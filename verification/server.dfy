// The synchronisation server as a state machine: every message handler is one step on a value.
module Servers {
  import opened Wrappers
  import opened ElementIds
  import opened Operations
  import opened DocumentStates
  import opened Messages
  import opened Editing

  datatype Phase = Unregistered | Registered | Syncing | Live | Disconnected

  // A connection, with everything it has been handed to send and every operation it sent in.
  datatype Conn = Conn(
    phase: Phase, clientId: string, document: Option<DocumentID>, sent: seq<Message>, originated: set<Operation>)
  {
    predicate IsRegistered() {
      phase.Registered? || phase.Syncing? || phase.Live?
    }

    predicate IsOpen() {
      phase.Syncing? || phase.Live?
    }
  }

  const NEW_CONN := Conn(Unregistered, "", None, [], {})

  // Connections are named by the values of C. The log of a document is the set of its rows; the
  // document itself is held beside it.
  datatype Server<C> = Server(
    conns: map<C, Conn>,
    clients: map<string, C>,
    pending: map<string, seq<Operation>>,
    presence: map<string, ElementID>,
    logs: map<DocumentID, set<Operation>>,
    documents: map<DocumentID, DocState>)

  // What a step does not decide itself: the order in which rows and presence entries are
  // enumerated.
  datatype Choices = Choices(history: seq<Operation>, order: seq<string>)

  function Send(cn: Conn, m: Message): Conn
  {
    if cn.phase.Unregistered? || cn.phase.Disconnected? then cn else cn.(sent := cn.sent + [m])
  }

  ghost function Unregister<C>(s: Server<C>, id: string): Server<C>
  {
    s.(clients := s.clients - {id}, pending := s.pending - {id}, presence := s.presence - {id})
  }

  ghost function Disconnect<C>(s: Server<C>, c: C): Server<C>
    requires c in s.conns
  {
    var cn := s.conns[c];
    if cn.phase.Disconnected? then s
    else
      var r := s.(conns := s.conns[c := cn.(phase := Disconnected)]);
      if cn.clientId != "" && cn.clientId in s.clients && s.clients[cn.clientId] == c
        then Unregister(r, cn.clientId) else r
  }

  ghost function SayHello<C>(s: Server<C>, c: C, id: string): Server<C>
    requires c in s.conns
  {
    if s.conns[c].IsRegistered() || id == "" || id in s.clients then Disconnect(s, c)
    else
      s.(conns := s.conns[c := Send(s.conns[c].(clientId := id, phase := Registered), HelloAck("server"))],
         clients := s.clients[id := c], pending := s.pending[id := []], presence := s.presence[id := ROOT_ID])
  }

  ghost function LogOf<C>(s: Server<C>, d: DocumentID): set<Operation>
  {
    if d in s.logs then s.logs[d] else {}
  }

  ghost function DocOf<C>(s: Server<C>, d: DocumentID): DocState
  {
    if d in s.documents then s.documents[d] else NewDocument()
  }

  ghost function Open<C>(s: Server<C>, c: C, d: DocumentID, history: seq<Operation>): Server<C>
    requires c in s.conns
  {
    var cn := s.conns[c];
    if !cn.IsRegistered() || cn.document.Some? || d == "" then Disconnect(s, c)
    else
      s.(conns := s.conns[c := Send(cn.(document := Some(d), phase := Syncing), SyncResponse("server", history))],
         logs := s.logs[d := LogOf(s, d)], documents := s.documents[d := DocOf(s, d)])
  }

  // Another registered connection with the sender's document open.
  ghost predicate Hears<C>(s: Server<C>, sender: C, c: C)
    requires sender in s.conns && c in s.conns
  {
    var cn := s.conns[c];
    c != sender && cn.clientId in s.clients && s.clients[cn.clientId] == c &&
    cn.document.Some? && cn.document == s.conns[sender].document
  }

  // To everyone live on the sender's document; those still syncing get operations later.
  ghost function Broadcast<C>(s: Server<C>, sender: C, m: Message): map<C, Conn>
    requires sender in s.conns
  {
    map c | c in s.conns :: if Hears(s, sender, c) && s.conns[c].phase.Live? then Send(s.conns[c], m) else s.conns[c]
  }

  ghost function Route<C>(s: Server<C>, sender: C, m: Message, op: Operation): Server<C>
    requires sender in s.conns
  {
    s.(conns := Broadcast(s, sender, m),
       pending := map id | id in s.pending ::
         if id in s.clients && s.clients[id] in s.conns && Hears(s, sender, s.clients[id])
           && s.conns[s.clients[id]].phase.Syncing?
         then s.pending[id] + [op] else s.pending[id])
  }

  // The operation is recorded before the document sees it, and stays so when the document throws.
  ghost function Record<C>(s: Server<C>, d: DocumentID, op: Operation): Server<C>
  {
    s.(logs := s.logs[d := LogOf(s, d) + {op}], documents := s.documents[d := Applied(DocOf(s, d), op).state])
  }

  ghost function Edit<C>(s: Server<C>, c: C, m: Message, op: Operation): Server<C>
    requires c in s.conns
  {
    var cn := s.conns[c];
    if !cn.phase.Live? || cn.document.None? || cn.document.value !in s.logs then Disconnect(s, c)
    else
      var recorded := Record(s, cn.document.value, op);
      if Applied(DocOf(s, cn.document.value), op).threw then Disconnect(recorded, c)
      else Route(recorded.(conns := s.conns[c := cn.(originated := cn.originated + {op})]), c, m, op)
  }

  ghost function MoveCursor<C>(s: Server<C>, c: C, m: Message, position: ElementID): Server<C>
    requires c in s.conns
  {
    var cn := s.conns[c];
    if !cn.phase.Live? || cn.document.None? || cn.clientId !in s.presence then Disconnect(s, c)
    else s.(presence := s.presence[cn.clientId := position], conns := Broadcast(s, c, m))
  }

  function AsMessages(ops: seq<Operation>): (ms: seq<Message>)
  {
    if ops == [] then [] else AsMessages(ops[..|ops| - 1]) + [OperationMessage("server", ops[|ops| - 1])]
  }

  // The cursors of the others live on the document.
  ghost function CursorsOf<C>(s: Server<C>, c: C, order: seq<string>): seq<Message>
    requires c in s.conns
  {
    if order == [] then []
    else
      var rest, id := CursorsOf(s, c, order[..|order| - 1]), order[|order| - 1];
      if id != s.conns[c].clientId && id in s.clients && id in s.presence && s.clients[id] in s.conns &&
         s.conns[s.clients[id]].phase.Live? && s.conns[s.clients[id]].document == s.conns[c].document
      then rest + [CursorUpdate(id, s.presence[id])] else rest
  }

  // The operations that arrived while the client was syncing, then the cursors of the others.
  ghost function FinishSync<C>(s: Server<C>, c: C, order: seq<string>): Server<C>
    requires c in s.conns
  {
    var cn := s.conns[c];
    if !cn.phase.Syncing? || cn.document.None? then Disconnect(s, c)
    else if cn.clientId !in s.pending then s
    else
      var live := cn.(phase := Live, sent := cn.sent + AsMessages(s.pending[cn.clientId]) + CursorsOf(s, c, order));
      s.(conns := s.conns[c := live], pending := s.pending - {cn.clientId})
  }

  ghost function Handle<C>(s: Server<C>, c: C, m: Message, ch: Choices): Server<C>
    requires c in s.conns
  {
    match m
    case Hello(sender) => SayHello(s, c, sender)
    case OperationMessage(_, op) => Edit(s, c, m, op)
    case SyncComplete(_) => FinishSync(s, c, ch.order)
    case CursorUpdate(_, position) => MoveCursor(s, c, m, position)
    case OpenDocument(_, d) => Open(s, c, d, ch.history)
    case _ => Disconnect(s, c)
  }

  // The history is the rows of the log and the order visits every presence entry once.
  ghost predicate Legal<C>(s: Server<C>, c: C, m: Message, ch: Choices)
    requires c in s.conns
  {
    match m
    case SyncComplete(_) => Elements(ch.order) == s.presence.Keys && NoDuplicates(ch.order)
    case OpenDocument(_, d) => Elements(ch.history) == LogOf(s, d)
    case _ => true
  }

  // ----- Registry -----

  // A client id leads to a registered connection that carries it.
  ghost predicate ClientsLead<C>(s: Server<C>)
  {
    forall id | id in s.clients ::
      id != "" && s.clients[id] in s.conns && s.conns[s.clients[id]].clientId == id
        && s.conns[s.clients[id]].IsRegistered()
  }

  ghost predicate ConnTidy<C>(s: Server<C>, c: C)
    requires c in s.conns
  {
    var cn := s.conns[c];
    && (cn.IsRegistered() ==> cn.clientId in s.clients && s.clients[cn.clientId] == c)
    && (cn.phase.Unregistered? ==> cn.clientId == "" && cn.sent == [])
    && (cn.phase.Unregistered? || cn.phase.Registered? ==> cn.document.None?)
    && (cn.IsOpen() ==> cn.document.Some? && cn.document.value in s.logs)
    && (cn.IsRegistered() ==> (cn.clientId in s.pending <==> !cn.phase.Live?))
  }

  // Every registered connection's id is its own key, presence has the clients' keys, pending
  // those not yet live, and a document is set exactly when syncing or live.
  ghost predicate Registry<C>(s: Server<C>)
  {
    && ClientsLead(s)
    && (forall c {:trigger ConnTidy(s, c)} | c in s.conns :: ConnTidy(s, c))
    && s.presence.Keys == s.clients.Keys
    && s.pending.Keys <= s.clients.Keys
  }

  // ----- Documents -----

  // A document against the operations in its log: well formed whatever these are, and described
  // by them as long as they reuse no identifier.
  ghost predicate Fits(doc: DocState, log: set<Operation>)
  {
    Structured(doc, log) && (Functional(log) ==> Documented(doc, log))
  }

  ghost predicate Stored<C>(s: Server<C>)
  {
    && s.documents.Keys == s.logs.Keys
    && forall d {:trigger DocOf(s, d)} :: Fits(DocOf(s, d), LogOf(s, d))
  }

  // ----- No gap -----

  ghost function Ops(ms: seq<Message>): set<Operation>
  {
    if ms == [] then {} else Ops(ms[..|ms| - 1]) + Carried(ms[|ms| - 1])
  }

  ghost function PendingOps<C>(s: Server<C>, cn: Conn): set<Operation>
  {
    if cn.clientId in s.pending then Elements(s.pending[cn.clientId]) else {}
  }

  // What the connection has been told, will be told when it goes live, or said itself.
  ghost function Heard<C>(s: Server<C>, cn: Conn): set<Operation>
  {
    Ops(cn.sent) + PendingOps(s, cn) + cn.originated
  }

  ghost predicate ConnComplete<C>(s: Server<C>, c: C)
    requires c in s.conns
  {
    var cn := s.conns[c];
    && (cn.IsOpen() && cn.document.Some? ==> Heard(s, cn) == LogOf(s, cn.document.value))
    && (cn.phase.Unregistered? || cn.phase.Registered? ==> Heard(s, cn) == {})
    && Ops(cn.sent) + cn.originated <= if cn.document.Some? then LogOf(s, cn.document.value) else {}
  }

  // Nothing in this document's log is missed by a connection that has it open, and a connection
  // with this document, or with none, is never told of an operation of any other document.
  ghost predicate NoGapFor<C>(s: Server<C>, d: DocumentID)
  {
    forall c {:trigger ConnComplete(s, c)} | c in s.conns
      && (s.conns[c].document.None? || s.conns[c].document == Some(d)) ::
      ConnComplete(s, c)
  }

  // The same for every document at once.
  ghost predicate NoGap<C>(s: Server<C>)
  {
    forall c {:trigger ConnComplete(s, c)} | c in s.conns :: ConnComplete(s, c)
  }

  // ----- Runs -----

  // What reaches the server: a connection, a text on it, or the end of it.
  datatype Event<C> =
    | Accept(conn: C)
    | Deliver(conn: C, text: string, choices: Choices)
    | Drop(conn: C)

  ghost function HandleText<C>(s: Server<C>, c: C, text: string, ch: Choices): Server<C>
    requires c in s.conns
  {
    match DeserializeMessage(text)
    case Throws(_) => Disconnect(s, c)
    case Ok(m) => Handle(s, c, m, ch)
  }

  // A closed connection is no longer read; nothing else is asked of what arrives.
  ghost predicate Possible<C>(s: Server<C>, e: Event<C>)
  {
    match e
    case Accept(c) => c !in s.conns
    case Deliver(c, text, ch) =>
      && c in s.conns && !s.conns[c].phase.Disconnected?
      && (DeserializeMessage(text).Ok? ==> Legal(s, c, DeserializeMessage(text).value, ch))
    case Drop(c) => c in s.conns
  }

  ghost function Next<C>(s: Server<C>, e: Event<C>): Server<C>
    requires Possible(s, e)
  {
    match e
    case Accept(c) => s.(conns := s.conns[c := NEW_CONN])
    case Deliver(c, text, ch) => HandleText(s, c, text, ch)
    case Drop(c) => Disconnect(s, c)
  }

  // The states of a run: each one follows from the one before by a possible event.
  ghost predicate IsRun<C>(states: seq<Server<C>>, events: seq<Event<C>>)
  {
    && |states| == |events| + 1
    && (forall i {:trigger events[i]} | 0 <= i < |events| ::
          Possible(states[i], events[i]) && states[i + 1] == Next(states[i], events[i]))
  }

  // A server that has just started, with the documents its database holds, loaded.
  ghost function Started<C>(logs: map<DocumentID, set<Operation>>, documents: map<DocumentID, DocState>): Server<C>
  {
    Server(map[], map[], map[], map[], logs, documents)
  }
}
