// Honest editor sessions and the server, exchanging texts over first-in first-out channels.
module Collaboration {
  import opened Wrappers
  import opened ElementIds
  import opened Operations
  import opened DocumentStates
  import opened TextCodec
  import opened OperationCodec
  import opened Framing
  import opened Messages
  import opened Editing
  import opened SessionFacts
  import opened Servers

  // A session and its network client: the document asked for, how many of its messages the
  // server has handled, and how many of the server's messages it has handled.
  datatype Client = Client(session: Session, asked: Option<DocumentID>, delivered: nat, consumed: nat)

  // Clients and their connections are named by the client's id. The past is every identifier
  // named in the database when the server started.
  datatype System = System(server: Server<string>, clients: map<string, Client>, past: set<ElementID>)

  // Everything a client has written, in order: the handshake, then the session's queue.
  function Outbox(site: string, cl: Client): seq<Message>
  {
    [Hello(site)] + (if cl.asked.Some? then [OpenDocument(site, cl.asked.value)] else []) + cl.session.outgoing
  }

  function Inbox(sys: System, site: string): seq<Message>
  {
    if site in sys.server.conns then sys.server.conns[site].sent else []
  }

  datatype Step =
    | Join(site: string)
    | Ask(site: string, documentId: DocumentID)
    | Command(site: string, command: Editing.Command)
    | ShareCursor(site: string)
    | ServerTurn(site: string, choices: Choices)
    | ClientTurn(site: string)
    | Leave(site: string)

  ghost predicate Joined(sys: System, site: string)
  {
    site in sys.clients && site in sys.server.conns
  }

  // A name the text formats can carry.
  predicate Plain(site: string)
  {
    site != "" && '|' !in site && LineFree(site)
  }

  // The frame reader of either side takes the text; it hangs up on any larger one.
  predicate Framed(text: string)
  {
    |text| <= MAX_MESSAGE_SIZE
  }

  // The texts that reach the server and the client next.
  ghost function OutText(sys: System, site: string): string
    requires Joined(sys, site) && sys.clients[site].delivered < |Outbox(site, sys.clients[site])|
  {
    SerializeMessage(Outbox(site, sys.clients[site])[sys.clients[site].delivered])
  }

  ghost function InText(sys: System, site: string): string
    requires Joined(sys, site) && sys.clients[site].consumed < |Inbox(sys, site)|
  {
    SerializeMessage(Inbox(sys, site)[sys.clients[site].consumed])
  }

  // A command the text formats can carry: the clock stays within 64 bits, the character is a byte.
  ghost predicate Carriable(s: Session, cmd: Editing.Command)
  {
    s.clock + 1 < TWO_64 && (cmd.InsertCharacter? ==> cmd.c as int < 256)
  }

  // Clients have their own plain names, never used before; they ask for a document once
  // registered and edit once its history has been applied.
  ghost predicate Allowed(sys: System, step: Step)
  {
    match step
    case Join(site) =>
      Plain(site) && site !in sys.clients && site !in sys.server.conns && forall x | x in sys.past :: x.siteId != site
    case Ask(site, d) =>
      Joined(sys, site) && sys.clients[site].consumed == 1 && sys.clients[site].asked.None? && d != "" && LineFree(d)
    case Command(site, cmd) =>
      Joined(sys, site) && sys.clients[site].consumed >= 2 && Carriable(sys.clients[site].session, cmd)
    case ShareCursor(site) => Joined(sys, site) && sys.clients[site].consumed >= 2
    case ServerTurn(site, ch) =>
      && Joined(sys, site) && sys.clients[site].delivered < |Outbox(site, sys.clients[site])|
      && Possible(sys.server, Deliver(site, OutText(sys, site), ch))
    case ClientTurn(site) => Joined(sys, site) && sys.clients[site].consumed < |Inbox(sys, site)|
    case Leave(site) => Joined(sys, site)
  }

  ghost function WithClient(sys: System, site: string, cl: Client): System
  {
    sys.(clients := sys.clients[site := cl])
  }

  ghost function AfterCommand(s: Session, site: string, cmd: Editing.Command): Session
  {
    match HandleCommand(s, site, cmd)
    case Throws(_) => s
    case Ok(r) => r
  }

  ghost function Take(sys: System, step: Step): System
    requires Allowed(sys, step)
  {
    match step
    case Join(site) =>
      WithClient(sys, site, Client(FreshSession, None, 0, 0))
        .(server := sys.server.(conns := sys.server.conns[site := NEW_CONN]))
    case Ask(site, d) => WithClient(sys, site, sys.clients[site].(asked := Some(d)))
    case Command(site, cmd) =>
      WithClient(sys, site, sys.clients[site].(session := AfterCommand(sys.clients[site].session, site, cmd)))
    case ShareCursor(site) =>
      var s := sys.clients[site].session;
      WithClient(sys, site,
        sys.clients[site].(session := s.(outgoing := s.outgoing + [CursorUpdate(site, s.cursor.anchor)])))
    case ServerTurn(site, ch) =>
      var cl := sys.clients[site];
      if !Framed(OutText(sys, site)) then HungUp(sys, site)
      else
        WithClient(sys, site, cl.(delivered := cl.delivered + 1))
          .(server := Next(sys.server, Deliver(site, OutText(sys, site), ch)))
    case ClientTurn(site) =>
      var cl := sys.clients[site];
      if !Framed(InText(sys, site)) then HungUp(sys, site)
      else
        (match DeserializeMessage(InText(sys, site))
         case Throws(_) => HungUp(sys, site)
         case Ok(m) => WithClient(sys, site, cl.(session := Receive(cl.session, site, m), consumed := cl.consumed + 1)))
    case Leave(site) => HungUp(sys, site)
  }

  // Either side closed the connection.
  ghost function HungUp(sys: System, site: string): System
    requires Joined(sys, site)
  {
    sys.(server := Disconnect(sys.server, site))
  }

  ghost predicate IsHistory(states: seq<System>, steps: seq<Step>)
  {
    && |states| == |steps| + 1
    && (forall i {:trigger steps[i]} | 0 <= i < |steps| ::
          Allowed(states[i], steps[i]) && states[i + 1] == Take(states[i], steps[i]))
  }

  // ----- What is known where -----

  ghost function Logged(logs: map<DocumentID, set<Operation>>): set<Operation>
  {
    set d, op | d in logs && op in logs[d] :: op
  }

  ghost function Issued(clients: map<string, Client>): set<Operation>
  {
    set site, op | site in clients && op in Ops(clients[site].session.outgoing) :: op
  }

  // Every operation of the database or of a client.
  ghost function All(sys: System): set<Operation>
  {
    Logged(sys.server.logs) + Issued(sys.clients)
  }

  // The identifier was issued by the client it names, or is older than the clients.
  ghost predicate Known(sys: System, x: ElementID)
  {
    x == ROOT_ID || x in sys.past || (x.siteId in sys.clients && x.lamport <= sys.clients[x.siteId].session.clock)
  }

  ghost predicate HeapOrdered(ops: set<Operation>)
  {
    forall op | op in ops && op.Insert? :: op.parent.lamport < op.id.lamport
  }

  ghost predicate MentionsKnown(sys: System, ops: set<Operation>)
  {
    forall op, x {:trigger x in Mentioned(op)} | op in ops && x in Mentioned(op) :: Known(sys, x)
  }

  // Every sender is one line, and every position is a known identifier.
  ghost predicate MessagesFit(sys: System, ms: seq<Message>)
  {
    forall m | m in ms :: LineFree(m.sender) && (m.CursorUpdate? ==> Known(sys, m.position))
  }

  ghost predicate PresenceKnown(sys: System, presence: map<string, ElementID>)
  {
    forall id | id in presence :: LineFree(id) && Known(sys, presence[id])
  }

  predicate CharactersAreBytes(ops: set<Operation>)
  {
    forall op | op in ops && op.Insert? :: op.ch as int < 256
  }

  // An identifier the text formats can carry.
  predicate OneLine(x: ElementID)
  {
    CleanId(x) && LineFree(x.siteId)
  }

  // Everyone's names and clocks are ones the text formats can carry.
  ghost predicate NamesArePlain(sys: System)
  {
    && (forall x | x in sys.past :: OneLine(x) && x.siteId !in sys.clients)
    && (forall site | site in sys.clients :: Plain(site) && sys.clients[site].session.clock < TWO_64)
  }

  // Identifiers are unique, grow from parent to child, and name who issued them.
  ghost predicate Honest(sys: System)
  {
    && Functional(All(sys)) && HeapOrdered(All(sys)) && MentionsKnown(sys, All(sys)) && CharactersAreBytes(All(sys))
    && NamesArePlain(sys) && PresenceKnown(sys, sys.server.presence)
  }

  // ----- The protocol seen from one client -----

  predicate Traffic(m: Message)
  {
    m.OperationMessage? || m.CursorUpdate?
  }

  // What the server has said so far: an acknowledgement, a history, then traffic.
  predicate InboxShape(ms: seq<Message>)
  {
    && (|ms| > 0 ==> ms[0].HelloAck?)
    && (|ms| > 1 ==> ms[1].SyncResponse?)
    && forall i | 2 <= i < |ms| :: Traffic(ms[i])
  }

  // What the session has said so far: nothing before the history, then the end of its
  // synchronisation, then traffic.
  predicate QueueShape(ms: seq<Message>, synced: bool)
  {
    && (if synced then |ms| > 0 && ms[0].SyncComplete? else ms == [])
    && forall i | 1 <= i < |ms| :: Traffic(ms[i])
  }

  // The phase after so many handled messages.
  function PhaseAfter(delivered: nat): Phase
  {
    if delivered == 0 then Unregistered
    else if delivered == 1 then Registered
    else if delivered == 2 then Syncing
    else Live
  }

  ghost predicate Channels(site: string, cl: Client, cn: Conn)
  {
    && cl.delivered <= |Outbox(site, cl)| && cl.consumed <= |cn.sent|
    && InboxShape(cn.sent) && QueueShape(cl.session.outgoing, cl.consumed >= 2)
    && (|cn.sent| >= 2 ==> cl.delivered >= 2)
    && (cl.asked.None? ==> cl.session.outgoing == [])
    && (cl.asked.Some? ==> cl.asked.value != "" && LineFree(cl.asked.value))
  }

  // The server's view of the connection follows from what it has handled.
  ghost predicate InStep(site: string, cl: Client, cn: Conn)
  {
    cn.phase.Disconnected? ||
    (&& cn.phase == PhaseAfter(cl.delivered)
     && cn.clientId == (if cl.delivered == 0 then "" else site)
     && cn.document == (if cl.delivered < 2 then None else cl.asked)
     && (if cl.delivered <= 2 then |cn.sent| == cl.delivered else |cn.sent| >= 2))
  }

  // Where the session's operations come from, and what it has sent in.
  ghost predicate Accounted(site: string, cl: Client, cn: Conn)
    requires cl.delivered <= |Outbox(site, cl)| && cl.consumed <= |cn.sent|
  {
    && cl.session.received == Ops(cn.sent[..cl.consumed]) + Ops(cl.session.outgoing)
    && cn.originated == Ops(Outbox(site, cl)[..cl.delivered])
  }

  ghost predicate ClientOk(sys: System, site: string)
    requires Joined(sys, site)
  {
    var cl, cn := sys.clients[site], sys.server.conns[site];
    && Plain(site) && Channels(site, cl, cn) && InStep(site, cl, cn) && Accounted(site, cl, cn)
    && SessionValid(cl.session, site) && Quiet(cl.session)
    && MessagesFit(sys, cn.sent) && MessagesFit(sys, cl.session.outgoing)
  }

  ghost predicate Good(sys: System)
  {
    && Registry(sys.server) && NoGap(sys.server) && Stored(sys.server)
    && sys.server.conns.Keys == sys.clients.Keys
    && Honest(sys)
    && forall site {:trigger ClientOk(sys, site)} | site in sys.clients :: ClientOk(sys, site)
  }

  // ----- The start and the end -----

  // A database written by honest clients that are gone, and its documents, loaded.
  ghost predicate HonestPast(
    logs: map<DocumentID, set<Operation>>, documents: map<DocumentID, DocState>, past: set<ElementID>)
  {
    && Functional(Logged(logs)) && HeapOrdered(Logged(logs)) && CharactersAreBytes(Logged(logs))
    && (forall op, x {:trigger x in Mentioned(op)} | op in Logged(logs) && x in Mentioned(op) ::
       x == ROOT_ID || x in past)
    && (forall x | x in past :: OneLine(x))
    && Stored(Servers.Started<string>(logs, documents))
  }

  ghost function Beginning(
    logs: map<DocumentID, set<Operation>>, documents: map<DocumentID, DocState>, past: set<ElementID>): System
  {
    System(Servers.Started(logs, documents), map[], past)
  }

  ghost predicate Connected(sys: System, site: string, d: DocumentID)
  {
    Joined(sys, site) && sys.server.conns[site].IsOpen() && sys.server.conns[site].document == Some(d)
  }

  // Nothing is under way for the document: both channels and the waiting list are empty.
  ghost predicate AtRest(sys: System, site: string)
    requires Joined(sys, site)
  {
    var cl, cn := sys.clients[site], sys.server.conns[site];
    && cl.delivered == |Outbox(site, cl)| && cl.consumed == |cn.sent|
    && (cn.clientId in sys.server.pending ==> sys.server.pending[cn.clientId] == [])
  }
}
