// What holds in every state an honest system can reach.
module CollaborationTheorems {
  import opened ElementIds
  import opened Operations
  import opened DocumentStates
  import opened OperationCodec
  import opened Trees
  import opened Buffers
  import opened TextCodec
  import opened VisibleText
  import opened Messages
  import opened Editing
  import opened SessionFacts
  import opened Commands
  import opened Typing
  import opened Servers
  import opened ServerFacts
  import opened Collaboration
  import opened CollaborationFacts

  lemma BeginningIsGood(
    logs: map<DocumentID, set<Operation>>, documents: map<DocumentID, DocState>, past: set<ElementID>)
    requires HonestPast(logs, documents, past)
    ensures Good(Beginning(logs, documents, past))
  {
    hide Functional;
    hide Stored;
    var sys := Beginning(logs, documents, past);
    StartedKeeps<string>(logs, documents);
    assert All(sys) == Logged(logs);
    RootKnown(sys);
  }

  lemma StepKeeps(sys: System, step: Step)
    requires Good(sys) && Allowed(sys, step)
    ensures Good(Take(sys, step))
  {
    hide Good;
    hide Allowed;
    hide Take;
    match step
    case Join(site) => JoinKeeps(sys, site);
    case Ask(site, d) => AskKeeps(sys, site, d);
    case Command(site, cmd) => CommandStepKeeps(sys, site, cmd);
    case ShareCursor(site) => ShareCursorKeeps(sys, site);
    case ServerTurn(site, ch) => ServerTurnKeeps(sys, site, ch);
    case ClientTurn(site) => ClientTurnKeeps(sys, site);
    case Leave(site) => LeaveKeeps(sys, site);
  }

  lemma LeaveKeeps(sys: System, site: string)
    requires Good(sys) && Allowed(sys, Leave(site))
    ensures Good(Take(sys, Leave(site)))
  {
    hide Good;
    HangUpKeeps(sys, site);
  }

  // A run from a server start: any number of clients, any interleaving, any disconnections.
  ghost predicate HonestRun(
    states: seq<System>, steps: seq<Step>,
    logs: map<DocumentID, set<Operation>>, documents: map<DocumentID, DocState>, past: set<ElementID>)
  {
    IsHistory(states, steps) && HonestPast(logs, documents, past) && states[0] == Beginning(logs, documents, past)
  }

  lemma {:induction false} GoodForever(
    states: seq<System>, steps: seq<Step>,
    logs: map<DocumentID, set<Operation>>, documents: map<DocumentID, DocState>, past: set<ElementID>, i: nat)
    requires HonestRun(states, steps, logs, documents, past) && i <= |steps|
    ensures Good(states[i])
    decreases i
  {
    hide Good;
    hide Allowed;
    hide Take;
    hide HonestPast;
    if i == 0 {
      BeginningIsGood(logs, documents, past);
    } else {
      GoodForever(states, steps, logs, documents, past, i - 1);
      assert states[i] == Take(states[i - 1], steps[i - 1]);
      StepKeeps(states[i - 1], steps[i - 1]);
    }
  }

  // A state some honest run leads to.
  ghost predicate Reached(sys: System)
  {
    exists states, steps, logs, documents, past ::
      HonestRun(states, steps, logs, documents, past) && states[|steps|] == sys
  }

  lemma ReachedIsGood(sys: System)
    requires Reached(sys)
    ensures Good(sys)
  {
    hide Good;
    hide Allowed;
    hide Take;
    hide HonestPast;
    var states, steps, logs, documents, past :| HonestRun(states, steps, logs, documents, past)
      && states[|steps|] == sys;
    GoodForever(states, steps, logs, documents, past, |steps|);
  }

  // What an honest system reaches, it reaches step by step.
  lemma ReachedByStep(sys: System, step: Step)
    requires Reached(sys) && Allowed(sys, step)
    ensures Reached(Take(sys, step))
  {
    hide Allowed;
    hide Take;
    hide HonestPast;
    var states, steps, logs, documents, past :| HonestRun(states, steps, logs, documents, past)
      && states[|steps|] == sys;
    var states', steps' := states + [Take(sys, step)], steps + [step];
    forall i | 0 <= i < |steps'|
      ensures Allowed(states'[i], steps'[i]) && states'[i + 1] == Take(states'[i], steps'[i]) {
      assert i < |steps| ==> steps'[i] == steps[i];
    }
    assert HonestRun(states', steps', logs, documents, past) && states'[|steps'|] == Take(sys, step);
  }

  // ----- Identifiers -----

  // In every reachable state all inserts have different identifiers, none of them the root's, each
  // with a greater clock value than its parent, and every client's clock bounds what it has applied
  // or buffered.
  lemma UniqueHeapOrderedIds(sys: System, a: Operation, b: Operation, site: string)
    requires Reached(sys) && a in All(sys) && b in All(sys) && a.Insert? && b.Insert?
    ensures a.id == b.id ==> a == b
    ensures a.parent.lamport < a.id.lamport && a.id != ROOT_ID
    ensures Joined(sys, site) && a in sys.clients[site].session.received ==>
              a.id.lamport <= sys.clients[site].session.clock
  {
    hide Reached;
    hide All;
    hide Registry;
    hide NoGap;
    hide Accounted;
    hide Channels;
    hide InStep;
    ReachedIsGood(sys);
    if Joined(sys, site) {
      assert ClientOk(sys, site);
    }
  }

  // ----- Cursors -----

  // In every reachable state the local anchor is the root or a visible element, so its position is
  // defined; remote cursors always resolve to such an anchor, and no waiting cursor does.
  lemma CursorsStayValid(sys: System, site: string)
    requires Reached(sys) && Joined(sys, site)
    ensures var s := sys.clients[site].session;
            var t := Meaning(s.received);
            && Anchored(t, s.cursor.anchor)
            && (forall k | k in s.remote ::
               Resolved(t, s.remote[k]).Some? && Anchored(t, Resolved(t, s.remote[k]).value))
            && (forall k | k in s.pending :: Resolved(t, s.pending[k]).None?)
  {
    hide Reached;
    hide Meaning;
    hide Good;
    hide Resolved;
    hide Anchored;
    hide Channels;
    hide InStep;
    hide ClientOk;
    ReachedIsGood(sys);
    GoodClient(sys, site);
    var s := sys.clients[site].session;
    var t := Meaning(s.received);
    forall k | k in s.remote ensures Resolved(t, s.remote[k]).Some? && Anchored(t, Resolved(t, s.remote[k]).value) {
      ResolvedIsAnchored(t, s.remote[k]);
    }
    forall k | k in s.pending ensures Resolved(t, s.pending[k]).None? {
      ResolvedIsAnchored(t, s.pending[k]);
    }
  }

  // Whatever others type at the same time, a typed character or newline lands at the cursor: the
  // visible text gains it right after the anchor, and the cursor stands after it.
  lemma TypedTextLands(sys: System, site: string, cmd: Editing.Command)
    requires Reached(sys) && Joined(sys, site) && Types(cmd) && cmd != InsertCharacter('\0')
    ensures var s := sys.clients[site].session;
            var s' := AfterCommand(s, site, cmd);
            var t, u, g := Meaning(s.received), Meaning(s'.received), Gap(Meaning(s.received), s.cursor.anchor);
            && g <= |Visible(t)|
            && Visible(u) == Visible(t)[..g] + [s'.cursor.anchor] + Visible(t)[g..]
            && Text(u) == Text(t)[..g] + [TypedChar(cmd)] + Text(t)[g..]
            && Gap(u, s'.cursor.anchor) == g + 1
  {
    hide Reached;
    hide Meaning;
    hide Good;
    hide SessionValid;
    hide ClientOk;
    hide Channels;
    hide InStep;
    hide Gap;
    hide Visible;
    hide Text;
    hide HandleCommand;
    ReachedIsGood(sys);
    GoodClient(sys, site);
    TypedCommandLands(sys.clients[site].session, site, cmd);
  }

  // ----- The protocol -----

  ghost predicate StillConnected(sys: System, site: string)
  {
    Joined(sys, site) && !sys.server.conns[site].phase.Disconnected?
  }

  // The step ends this client's connection: someone hangs up, or a text does not fit in a frame.
  ghost predicate Closes(sys: System, step: Step, site: string)
  {
    Allowed(sys, step) &&
    match step
    case ServerTurn(k, _) => k == site && !Framed(OutText(sys, site))
    case ClientTurn(k) => k == site && !Framed(InText(sys, site))
    case Leave(k) => k == site
    case _ => false
  }

  // Neither the reader nor any state check of the server ever disconnects an honest client: only a
  // text larger than a frame does.
  lemma HonestIsNeverRefused(sys: System, site: string, ch: Choices)
    requires Good(sys) && Allowed(sys, ServerTurn(site, ch))
    ensures StillConnected(Take(sys, ServerTurn(site, ch)), site) <==> Framed(OutText(sys, site))
  {
    hide Good;
    hide Handle;
    hide Outbox;
    hide Legal;
    hide SerializeMessage;
    hide Allowed;
    TurnReads(sys, site, ch);
    hide Take;
    if Framed(OutText(sys, site)) {
      SelfTurn(sys, site, ch);
    } else {
      DisconnectFrame(sys.server, site);
    }
  }

  // The client's reader accepts whatever the server sends, unless it is larger than a frame.
  lemma ServerIsNeverRefused(sys: System, site: string)
    requires Good(sys) && Allowed(sys, ClientTurn(site)) && StillConnected(sys, site)
    ensures StillConnected(Take(sys, ClientTurn(site)), site) <==> Framed(InText(sys, site))
  {
    hide Good;
    hide SerializeMessage;
    hide DeserializeMessage;
    hide Receive;
    InboxReads(sys, site);
    DisconnectFrame(sys.server, site);
    hide Disconnect;
  }

  lemma OthersStay(sys: System, k: string, ch: Choices, site: string)
    requires Good(sys) && Allowed(sys, ServerTurn(k, ch)) && StillConnected(sys, site) && k != site
    ensures StillConnected(Take(sys, ServerTurn(k, ch)), site)
  {
    hide Good;
    hide Handle;
    hide Outbox;
    hide Legal;
    hide SerializeMessage;
    hide Allowed;
    TurnReads(sys, k, ch);
    hide Take;
    var m := Outbox(k, sys.clients[k])[sys.clients[k].delivered];
    OthersAreToldAtMost(sys.server, k, m, ch, site);
    DisconnectFrame(sys.server, k);
    hide Disconnect;
  }

  // Exactly the closing steps end a connection.
  lemma StaysUnlessClosed(sys: System, step: Step, site: string)
    requires Good(sys) && Allowed(sys, step) && StillConnected(sys, site)
    ensures StillConnected(Take(sys, step), site) <==> !Closes(sys, step, site)
  {
    hide Good;
    hide Disconnect;
    hide Next;
    hide Possible;
    hide Receive;
    hide HandleCommand;
    hide SerializeMessage;
    hide DeserializeMessage;
    hide Outbox;
    match step
    case ServerTurn(k, ch) =>
      if k == site {
        HonestIsNeverRefused(sys, site, ch);
      } else {
        OthersStay(sys, k, ch, site);
      }
    case ClientTurn(k) =>
      if k == site {
        ServerIsNeverRefused(sys, site);
      } else {
        DisconnectFrame(sys.server, k);
      }
    case Leave(k) => DisconnectFrame(sys.server, k);
    case _ =>
  }

  // However long the system goes on, a connection lasts as long as nobody hangs up and every text
  // fits in a frame.
  lemma {:induction false} OnlyLeavingDisconnects(states: seq<System>, steps: seq<Step>, i: nat, site: string)
    requires IsHistory(states, steps) && Reached(states[0]) && i <= |steps|
    requires StillConnected(states[0], site)
    requires forall j {:trigger steps[j]} | 0 <= j < i :: !Closes(states[j], steps[j], site)
    ensures Reached(states[i]) && StillConnected(states[i], site)
    decreases i
  {
    hide Reached;
    hide Allowed;
    hide Take;
    hide Closes;
    hide StillConnected;
    if i > 0 {
      OnlyLeavingDisconnects(states, steps, i - 1, site);
      var sys, step := states[i - 1], steps[i - 1];
      assert states[i] == Take(sys, step);
      ReachedByStep(sys, step);
      ReachedIsGood(sys);
      StaysUnlessClosed(sys, step, site);
    }
  }

  // Nothing gets stuck: as long as a message is under way to or from a connected client, the
  // server or the client can take it, and the client stays connected if it fits in a frame.
  lemma NothingGetsStuck(sys: System, site: string)
    requires Reached(sys) && StillConnected(sys, site)
    ensures sys.clients[site].delivered < |Outbox(site, sys.clients[site])| ==>
              exists ch ::
                && Allowed(sys, ServerTurn(site, ch))
                && (StillConnected(Take(sys, ServerTurn(site, ch)), site) <==> Framed(OutText(sys, site)))
    ensures sys.clients[site].consumed < |Inbox(sys, site)| ==>
              && Allowed(sys, ClientTurn(site))
              && (StillConnected(Take(sys, ClientTurn(site)), site) <==> Framed(InText(sys, site)))
  {
    hide Reached;
    hide Good;
    hide Next;
    hide Outbox;
    hide Legal;
    hide Take;
    hide SerializeMessage;
    hide DeserializeMessage;
    ReachedIsGood(sys);
    var cl := sys.clients[site];
    if cl.delivered < |Outbox(site, cl)| {
      var ch := ChoicesExist(sys.server, site, Outbox(site, cl)[cl.delivered]);
      OutboxReads(sys, site);
      assert Allowed(sys, ServerTurn(site, ch));
      HonestIsNeverRefused(sys, site, ch);
    }
    if cl.consumed < |Inbox(sys, site)| {
      ServerIsNeverRefused(sys, site);
    }
  }

  // Why names are asked to be plain: the first character typed by a client whose name holds a bar
  // is a text no reader accepts, and the server cuts the client off.
  lemma BarredNameIsCutOff<C>(s: Server<C>, c: C, site: string, op: Operation, ch: Choices)
    requires c in s.conns && '|' in site && LineFree(site)
    requires op.Insert? && op.id.siteId == site && LineFree(op.parent.siteId)
    ensures HandleText(s, c, SerializeMessage(OperationMessage(site, op)), ch) == Disconnect(s, c)
  {
    hide SerializeOperation;
    hide DeserializeOperation;
    hide Disconnect;
    hide Handle;
    hide SerializeMessage;
    hide DeserializeMessage;
    hide Tokens;
    hide ReadHistory;
    BarIsRefused(op);
    OperationIsOneLine(op);
    TokensOfOne(SerializeOperation(op), '\n');
    ReadsPayload(OperationMessage(site, op));
  }

  // ----- Convergence -----

  // A client at rest has exactly its document's operations.
  lemma AtRestHasTheLog(sys: System, site: string, d: DocumentID)
    requires Good(sys) && Connected(sys, site, d) && AtRest(sys, site)
    ensures sys.clients[site].session.received == LogOf(sys.server, d)
  {
    hide Registry;
    hide Honest;
    hide SessionValid;
    hide Quiet;
    hide MessagesFit;
    hide InboxShape;
    hide QueueShape;
    hide Ops;
    hide LogOf;
    var cl, cn := sys.clients[site], sys.server.conns[site];
    assert ClientOk(sys, site) && ConnComplete(sys.server, site);
    assert cn.sent[..|cn.sent|] == cn.sent;
    assert Outbox(site, cl)[..|Outbox(site, cl)|] == Outbox(site, cl);
    OutboxCarriesQueue(site, cl);
  }

  lemma OutboxCarriesQueue(site: string, cl: Client)
    ensures Ops(Outbox(site, cl)) == Ops(cl.session.outgoing)
  {
    var shake := [Hello(site)] + if cl.asked.Some? then [OpenDocument(site, cl.asked.value)] else [];
    OpsOne([], Hello(site));
    assert [] + [Hello(site)] == [Hello(site)];
    if cl.asked.Some? {
      OpsOne([Hello(site)], OpenDocument(site, cl.asked.value));
    } else {
      assert shake == [Hello(site)];
    }
    assert Ops(shake) == {};
    OpsAppend(shake, cl.session.outgoing);
    assert shake + cl.session.outgoing == Outbox(site, cl);
  }

  // End-to-end convergence: in every reachable state, two clients at rest on the same document
  // have the same tree and the same text, and so has the server's own document.
  lemma EndToEndConvergence(sys: System, a: string, b: string, d: DocumentID)
    requires Reached(sys)
    requires Connected(sys, a, d) && AtRest(sys, a) && Connected(sys, b, d) && AtRest(sys, b)
    ensures Functional(LogOf(sys.server, d))
    ensures var ta, tb := Meaning(sys.clients[a].session.received), Meaning(sys.clients[b].session.received);
            && ta == tb == DocOf(sys.server, d).tree == TreeOf(LogOf(sys.server, d))
            && Text(ta) == Text(tb) == Text(DocOf(sys.server, d).tree)
  {
    hide Reached;
    hide Good;
    hide AtRest;
    hide Connected;
    hide Text;
    hide Functional;
    hide LogOf;
    hide DocOf;
    ReachedIsGood(sys);
    AtRestHasTheLog(sys, a, d);
    AtRestHasTheLog(sys, b, d);
    GoodIsFunctional(sys, a, d);
    ServerHoldsTheTree(sys, d);
  }

  // The server's document is the tree of its log.
  lemma ServerHoldsTheTree(sys: System, d: DocumentID)
    requires Good(sys) && Functional(LogOf(sys.server, d))
    ensures DocOf(sys.server, d).tree == TreeOf(LogOf(sys.server, d))
  {
    hide Functional;
    hide Structured;
    hide Represents;
    hide BuffersMatchExcept;
    GoodServer(sys);
    hide Good;
    var doc, log := DocOf(sys.server, d), LogOf(sys.server, d);
    assert Fits(doc, log);
    RepresentedTree(doc, log);
    RepresentationIsUnique(doc.tree, TreeOf(log), log);
  }

  lemma RepresentedTree(doc: DocState, log: set<Operation>)
    requires Documented(doc, log)
    ensures Represents(doc.tree, log) && Functional(log)
  {
  }

  lemma GoodIsFunctional(sys: System, site: string, d: DocumentID)
    requires Good(sys) && Connected(sys, site, d)
    ensures Functional(sys.clients[site].session.received)
    ensures Functional(LogOf(sys.server, d))
  {
    hide Registry;
    hide NoGap;
    hide ClientOk;
    GoodClient(sys, site);
    FewerOperations(LogOf(sys.server, d), All(sys));
  }
}
