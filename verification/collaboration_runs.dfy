// Where an honest system can be brought: once nobody types, everyone comes to rest and agrees.
module CollaborationRuns {
  import opened Wrappers
  import opened ElementIds
  import opened Operations
  import opened DocumentStates
  import opened VisibleText
  import opened TextCodec
  import opened OperationCodec
  import opened Framing
  import opened Messages
  import opened Editing
  import opened SessionFacts
  import opened Servers
  import opened ServerFacts
  import opened Collaboration
  import opened CollaborationFacts
  import opened CollaborationTheorems

  // ----- What is left to do -----

  // Messages a connected client has yet to send, and the three its synchronisation may cost.
  ghost function ToSend(sys: System, site: string): nat
  {
    if !StillConnected(sys, site) then 0
    else
      var cl := sys.clients[site];
      var left := |Outbox(site, cl)| - cl.delivered;
      (if left < 0 then 0 else left) + if cl.consumed < 2 then 3 else 0
  }

  // Messages a connected client has yet to read.
  ghost function ToRead(sys: System, site: string): nat
  {
    if !StillConnected(sys, site) then 0
    else
      var left := |Inbox(sys, site)| - sys.clients[site].consumed;
      if left < 0 then 0 else left
  }

  ghost function AllToSend(sys: System, sites: seq<string>): nat
  {
    if sites == [] then 0 else ToSend(sys, sites[0]) + AllToSend(sys, sites[1..])
  }

  ghost function AllToRead(sys: System, sites: seq<string>): nat
  {
    if sites == [] then 0 else ToRead(sys, sites[0]) + AllToRead(sys, sites[1..])
  }

  lemma {:induction false} LessToSend(sys: System, r: System, sites: seq<string>, site: string)
    requires forall k {:trigger ToSend(r, k)} :: ToSend(r, k) <= ToSend(sys, k)
    ensures AllToSend(r, sites) <= AllToSend(sys, sites)
    ensures site in sites && ToSend(r, site) < ToSend(sys, site) ==> AllToSend(r, sites) < AllToSend(sys, sites)
  {
    hide ToSend;
    if sites != [] {
      LessToSend(sys, r, sites[1..], site);
      assert ToSend(r, sites[0]) <= ToSend(sys, sites[0]);
      assert sites == [sites[0]] + sites[1..];
    }
  }

  lemma {:induction false} LessToRead(sys: System, r: System, sites: seq<string>, site: string)
    requires forall k {:trigger ToRead(r, k)} :: ToRead(r, k) <= ToRead(sys, k)
    ensures AllToRead(r, sites) <= AllToRead(sys, sites)
    ensures site in sites && ToRead(r, site) < ToRead(sys, site) ==> AllToRead(r, sites) < AllToRead(sys, sites)
  {
    hide ToRead;
    if sites != [] {
      LessToRead(sys, r, sites[1..], site);
      assert ToRead(r, sites[0]) <= ToRead(sys, sites[0]);
      assert sites == [sites[0]] + sites[1..];
    }
  }

  // ----- Every turn leaves less to do -----

  lemma HangingUpLeavesLess(sys: System, site: string)
    requires StillConnected(sys, site)
    ensures var r := HungUp(sys, site);
            && r.clients == sys.clients
            && ToSend(r, site) == 0 == ToRead(r, site)
            && (forall k {:trigger ToSend(r, k)} :: ToSend(r, k) <= ToSend(sys, k))
            && (forall k {:trigger ToRead(r, k)} :: ToRead(r, k) <= ToRead(sys, k))
  {
    hide Outbox;
    DisconnectFrame(sys.server, site);
    hide Disconnect;
  }

  // A turn of the server delivers a message, or ends the connection of the client that sent it.
  lemma ServerTurnLeavesLess(sys: System, site: string, ch: Choices)
    requires Good(sys) && Allowed(sys, ServerTurn(site, ch))
    ensures var r := Take(sys, ServerTurn(site, ch));
            && r.clients.Keys == sys.clients.Keys && ToSend(r, site) < ToSend(sys, site)
            && (forall k {:trigger ToSend(r, k)} :: ToSend(r, k) <= ToSend(sys, k))
  {
    hide Good;
    hide Handle;
    hide Outbox;
    hide Legal;
    hide SerializeMessage;
    hide DeserializeMessage;
    var r := Take(sys, ServerTurn(site, ch));
    TurnReads(sys, site, ch);
    if Framed(OutText(sys, site)) {
      HandledLeavesLess(sys, site, ch, r);
    } else {
      HangingUpLeavesLess(sys, site);
      WaitingIsCounted(sys, site);
    }
  }

  lemma WaitingIsCounted(sys: System, site: string)
    requires StillConnected(sys, site)
    ensures sys.clients[site].delivered < |Outbox(site, sys.clients[site])| ==> ToSend(sys, site) > 0
    ensures sys.clients[site].consumed < |Inbox(sys, site)| ==> ToRead(sys, site) > 0
  {
    hide Outbox;
  }

  lemma HandledLeavesLess(sys: System, site: string, ch: Choices, r: System)
    requires TurnLegal(sys, site, ch)
    requires var cl := sys.clients[site];
             r == WithClient(sys, site, cl.(delivered := cl.delivered + 1))
                    .(server := Handle(sys.server, site, Outbox(site, cl)[cl.delivered], ch))
    ensures r.clients.Keys == sys.clients.Keys && ToSend(r, site) < ToSend(sys, site)
    ensures forall k {:trigger ToSend(r, k)} :: ToSend(r, k) <= ToSend(sys, k)
  {
    hide Good;
    hide Handle;
    hide Legal;
    var cl := sys.clients[site];
    var m := Outbox(site, cl)[cl.delivered];
    assert Outbox(site, r.clients[site]) == Outbox(site, cl);
    hide Outbox;
    HandleKeepsConns(sys.server, site, m, ch);
    forall k ensures ToSend(r, k) <= ToSend(sys, k) && (k == site ==> ToSend(r, k) < ToSend(sys, k)) {
      if Joined(sys, k) && k != site {
        OthersAreToldAtMost(sys.server, site, m, ch, k);
      }
    }
  }

  // A turn of a client reads a message, or ends its connection.
  lemma ClientTurnLeavesLess(sys: System, site: string)
    requires Good(sys) && Allowed(sys, ClientTurn(site)) && StillConnected(sys, site)
    ensures var r := Take(sys, ClientTurn(site));
            && r.clients.Keys == sys.clients.Keys && ToRead(r, site) < ToRead(sys, site)
            && (forall k {:trigger ToSend(r, k)} :: ToSend(r, k) <= ToSend(sys, k))
            && (forall k {:trigger ToRead(r, k)} :: ToRead(r, k) <= ToRead(sys, k))
  {
    hide Good;
    hide Receive;
    hide SerializeMessage;
    hide DeserializeMessage;
    var r := Take(sys, ClientTurn(site));
    InboxReads(sys, site);
    WaitingIsCounted(sys, site);
    if Framed(InText(sys, site)) {
      ReadLeavesLess(sys, site, r);
    } else {
      HangingUpLeavesLess(sys, site);
    }
  }

  lemma ReadLeavesLess(sys: System, site: string, r: System)
    requires Good(sys) && StillConnected(sys, site) && sys.clients[site].consumed < |Inbox(sys, site)|
    requires var cl := sys.clients[site];
             r == WithClient(sys, site, cl.(session := Receive(cl.session, site, Inbox(sys, site)[cl.consumed]),
                                            consumed := cl.consumed + 1))
    ensures r.clients.Keys == sys.clients.Keys && ToRead(r, site) < ToRead(sys, site)
    ensures forall k {:trigger ToSend(r, k)} :: ToSend(r, k) <= ToSend(sys, k)
    ensures forall k {:trigger ToRead(r, k)} :: ToRead(r, k) <= ToRead(sys, k)
  {
    hide Good;
    hide Receive;
    hide SessionValid;
    hide Quiet;
    var cl, cn := sys.clients[site], sys.server.conns[site];
    var m := cn.sent[cl.consumed];
    GoodClient(sys, site);
    ReceiveReplies(cl.session, site, m);
    assert |Replies(site, Receive(cl.session, site, m), m)| == (if m.SyncResponse? then 2 else 0);
    assert m.SyncResponse? ==> cl.consumed == 1;
  }

  // ----- Nothing left to do -----

  // A connected client that has nothing to send and nothing to read is at rest.
  lemma IdleIsAtRest(sys: System, site: string)
    requires Good(sys) && StillConnected(sys, site)
    ensures AtRest(sys, site) || sys.clients[site].delivered < |Outbox(site, sys.clients[site])|
            || sys.clients[site].consumed < |Inbox(sys, site)|
  {
    hide Honest;
    hide Stored;
    hide SessionValid;
    hide Quiet;
    hide Accounted;
    hide MessagesFit;
    hide InboxShape;
    hide Ops;
    var cl, cn := sys.clients[site], sys.server.conns[site];
    assert ClientOk(sys, site) && ConnTidy(sys.server, site) && ConnComplete(sys.server, site);
    if cl.delivered == |Outbox(site, cl)| && cl.consumed == |cn.sent| && cn.clientId in sys.server.pending {
      assert cn.phase.Registered? && PendingOps(sys.server, cn) == {};
      WaitingIsSeen(sys.server.pending[cn.clientId]);
    }
  }

  lemma WaitingIsSeen(ops: seq<Operation>)
    ensures ops != [] ==> Elements(ops) != {}
  {
    if ops != [] {
      assert ops[0] in Elements(ops);
    }
  }

  // One more turn, of the server or of a client, for a client that is not at rest.
  lemma NextTurn(sys: System, site: string) returns (step: Step)
    requires Reached(sys) && StillConnected(sys, site) && !AtRest(sys, site)
    ensures Allowed(sys, step) && Reached(Take(sys, step)) && (step.ServerTurn? || step.ClientTurn?)
    ensures var r := Take(sys, step);
            && r.clients.Keys == sys.clients.Keys
            && (forall k {:trigger ToSend(r, k)} :: ToSend(r, k) <= ToSend(sys, k))
            && (ToSend(r, site) < ToSend(sys, site) ||
                (ToRead(r, site) < ToRead(sys, site) && forall k {:trigger ToRead(r, k)} ::
                  ToRead(r, k) <= ToRead(sys, k)))
  {
    hide Reached;
    hide Good;
    hide Allowed;
    hide Take;
    hide ToSend;
    hide ToRead;
    hide AtRest;
    hide Outbox;
    ReachedIsGood(sys);
    IdleIsAtRest(sys, site);
    NothingGetsStuck(sys, site);
    if sys.clients[site].delivered < |Outbox(site, sys.clients[site])| {
      var ch :| Allowed(sys, ServerTurn(site, ch));
      step := ServerTurn(site, ch);
      ServerTurnLeavesLess(sys, site, ch);
    } else {
      step := ClientTurn(site);
      ClientTurnLeavesLess(sys, site);
    }
    ReachedByStep(sys, step);
  }

  ghost predicate AllAtRest(sys: System)
  {
    forall site {:trigger AtRest(sys, site)} | StillConnected(sys, site) :: AtRest(sys, site)
  }

  // Only turns of the server and of clients.
  ghost predicate OnlyTurns(steps: seq<Step>)
  {
    forall step | step in steps :: step.ServerTurn? || step.ClientTurn?
  }

  lemma {:induction false} ComeToRest(sys: System, sites: seq<string>) returns (states: seq<System>, steps: seq<Step>)
    requires Reached(sys) && forall site | site in sys.clients :: site in sites
    ensures IsHistory(states, steps) && states[0] == sys && OnlyTurns(steps)
    ensures Reached(states[|steps|]) && AllAtRest(states[|steps|])
    decreases AllToSend(sys, sites), AllToRead(sys, sites)
  {
    hide Reached;
    hide Allowed;
    hide Take;
    hide AtRest;
    hide ToSend;
    hide ToRead;
    if AllAtRest(sys) {
      states, steps := [sys], [];
    } else {
      var site :| StillConnected(sys, site) && !AtRest(sys, site);
      var step := NextTurn(sys, site);
      var r := Take(sys, step);
      LessToSend(sys, r, sites, site);
      if ToSend(r, site) >= ToSend(sys, site) {
        LessToRead(sys, r, sites, site);
      }
      var states', steps' := ComeToRest(r, sites);
      states, steps := [sys] + states', [step] + steps';
      forall i | 0 <= i < |steps| ensures Allowed(states[i], steps[i]) && states[i + 1] == Take(states[i], steps[i]) {
        if i > 0 {
          assert states[i] == states'[i - 1] && steps[i] == steps'[i - 1] && states[i + 1] == states'[i];
        }
      }
    }
  }

  // Once nobody types, everyone comes to rest: from every reached state, finitely many turns of the
  // server and the clients lead to a reached state in which every client is at rest, except those
  // whose connection a text too large for a frame has ended on the way.
  lemma EveryoneComesToRest(sys: System) returns (states: seq<System>, steps: seq<Step>)
    requires Reached(sys)
    ensures IsHistory(states, steps) && states[0] == sys && OnlyTurns(steps) && Reached(states[|steps|])
    ensures forall site {:trigger StillConnected(sys, site)} | StillConnected(sys, site) ::
              if StillConnected(states[|steps|], site) then AtRest(states[|steps|], site)
              else exists j :: 0 <= j < |steps| && Closes(states[j], steps[j], site)
  {
    hide Reached;
    hide Allowed;
    hide Take;
    hide AtRest;
    hide Closes;
    var sites := Enumerate(sys.clients.Keys);
    states, steps := ComeToRest(sys, sites);
    forall site | StillConnected(sys, site)
      ensures if StillConnected(states[|steps|], site) then AtRest(states[|steps|], site)
              else exists j :: 0 <= j < |steps| && Closes(states[j], steps[j], site)
    {
      if forall j {:trigger steps[j]} | 0 <= j < |steps| :: !Closes(states[j], steps[j], site) {
        OnlyLeavingDisconnects(states, steps, |steps|, site);
      }
    }
  }

  // And there everyone agrees: every client with a document open has the tree and the text of the
  // server's own.
  lemma EveryoneAgrees(sys: System) returns (states: seq<System>, steps: seq<Step>)
    requires Reached(sys)
    ensures IsHistory(states, steps) && states[0] == sys && OnlyTurns(steps) && Reached(states[|steps|])
    ensures var r := states[|steps|];
            forall site, d {:trigger Connected(r, site, d)} | Connected(r, site, d) ::
              && Meaning(r.clients[site].session.received) == DocOf(r.server, d).tree
              && Text(Meaning(r.clients[site].session.received)) == Text(DocOf(r.server, d).tree)
  {
    hide Reached;
    hide Allowed;
    hide Take;
    hide AtRest;
    hide Meaning;
    hide Text;
    var sites := Enumerate(sys.clients.Keys);
    states, steps := ComeToRest(sys, sites);
    var r := states[|steps|];
    forall site, d {:trigger Connected(r, site, d)} | Connected(r, site, d)
      ensures Meaning(r.clients[site].session.received) == DocOf(r.server, d).tree
    {
      assert StillConnected(r, site);
      EndToEndConvergence(r, site, site, d);
    }
  }

  // ----- Documents larger than a frame -----

  lemma {:induction false} HistoryIsLong(ops: seq<Operation>)
    ensures |SerializeHistory(ops)| >= 2 * |ops|
  {
    hide SerializeId;
    if ops != [] {
      HistoryIsLong(ops[1..]);
    }
  }

  lemma {:induction false} NoMoreElements<T>(xs: seq<T>)
    ensures |Elements(xs)| <= |xs|
  {
    if xs == [] {
      assert Elements(xs) == {};
    } else {
      NoMoreElements(xs[..|xs| - 1]);
      ElementsSplit(xs);
    }
  }

  // A document with so many operations that their texts fill a frame cannot be opened: the server
  // takes the request, and its answer ends the connection.
  lemma LargeDocumentEndsConnection(sys: System, site: string, d: DocumentID, ch: Choices)
    requires Good(sys) && Allowed(sys, ServerTurn(site, ch)) && Framed(OutText(sys, site))
    requires sys.clients[site].delivered == 1 == sys.clients[site].consumed && sys.clients[site].asked == Some(d)
    requires MAX_MESSAGE_SIZE < 2 * |LogOf(sys.server, d)|
    ensures var r := Take(sys, ServerTurn(site, ch));
            && StillConnected(r, site) && Closes(r, ClientTurn(site), site)
            && !StillConnected(Take(r, ClientTurn(site)), site)
  {
    hide Good;
    hide Handle;
    hide Legal;
    hide LogOf;
    hide SerializeHistory;
    hide SerializeOperation;
    hide DeserializeMessage;
    var r := Take(sys, ServerTurn(site, ch));
    TurnReads(sys, site, ch);
    HonestIsNeverRefused(sys, site, ch);
    StepKeeps(sys, ServerTurn(site, ch));
    AnswerIsHistory(sys, site, d, ch);
    NoMoreElements(ch.history);
    HistoryIsLong(ch.history);
    assert |InText(r, site)| >= |SerializeHistory(ch.history)|;
    hide SerializeMessage;
    hide Take;
    ServerIsNeverRefused(r, site);
  }

  lemma AnswerIsHistory(sys: System, site: string, d: DocumentID, ch: Choices)
    requires Good(sys) && TurnLegal(sys, site, ch) && sys.clients[site].delivered == 1
    requires sys.clients[site].asked == Some(d)
    ensures var r := Handle(sys.server, site, Outbox(site, sys.clients[site])[1], ch);
            site in r.conns && |r.conns[site].sent| == 2 && r.conns[site].sent[1] == SyncResponse("server", ch.history)
    ensures Elements(ch.history) == LogOf(sys.server, d)
  {
    hide LogOf;
    hide Registry;
    hide NoGap;
    hide Stored;
    hide Honest;
    hide SessionValid;
    hide Quiet;
    hide Accounted;
    hide Disconnect;
    assert ClientOk(sys, site);
    NextMessage(site, sys.clients[site], sys.server.conns[site]);
    OpenedLogs(sys.server, site, d, ch.history);
  }

  // A past in which one client typed n characters.
  lemma {:induction false} LongPast(n: nat) returns (log: set<Operation>, doc: DocState)
    ensures |log| == n && Fits(doc, log)
    ensures forall op | op in log ::
              op.Insert? && op.parent == ROOT_ID && op.id.siteId == "past" && 0 < op.id.lamport <= n && op.ch == 'x'
  {
    if n == 0 {
      log, doc := {}, NewDocument();
      NewFits();
    } else {
      var log', doc' := LongPast(n - 1);
      var op := Insert(ROOT_ID, ElementID(n, "past"), 'x');
      assert op !in log';
      log, doc := log' + {op}, Applied(doc', op).state;
      hide Fits;
      AppliedFits(doc', log', op);
    }
  }

  lemma LongPastIsHonest(d: DocumentID, log: set<Operation>, doc: DocState, n: nat)
    requires Fits(doc, log) && n < TWO_64
    requires forall op | op in log ::
               op.Insert? && op.parent == ROOT_ID && op.id.siteId == "past" && 0 < op.id.lamport <= n && op.ch == 'x'
    ensures HonestPast(map[d := log], map[d := doc], InsertedIds(log))
  {
    hide Fits;
    var logs := map[d := log];
    forall op | op in log ensures op in Logged(logs) {
      assert d in logs && op in logs[d];
    }
    assert Logged(logs) == log;
    NewFits();
    forall op, x {:trigger x in Mentioned(op)} | op in log && x in Mentioned(op)
      ensures x == ROOT_ID || x in InsertedIds(log) {
      assert op.id in InsertedIds(log);
    }
  }

  lemma BeginningIsReached(
    logs: map<DocumentID, set<Operation>>, documents: map<DocumentID, DocState>, past: set<ElementID>)
    requires HonestPast(logs, documents, past)
    ensures Reached(Beginning(logs, documents, past))
  {
    hide HonestPast;
    hide Allowed;
    hide Take;
    var states, steps: seq<Step> := [Beginning(logs, documents, past)], [];
    assert HonestRun(states, steps, logs, documents, past) && states[|steps|] == Beginning(logs, documents, past);
  }

  // A newcomer and the server greet each other.
  lemma Greets(sys: System, site: string) returns (r: System)
    requires Reached(sys) && StillConnected(sys, site) && |site| < 100
    requires sys.clients[site] == Client(FreshSession, None, 0, 0)
    ensures Reached(r) && StillConnected(r, site) && r.server.logs == sys.server.logs
    ensures r.clients[site] == Client(FreshSession, None, 1, 1)
  {
    hide Reached;
    hide Good;
    hide Legal;
    hide Disconnect;
    hide Next;
    ReachedIsGood(sys);
    NothingGetsStuck(sys, site);
    var ch :| Allowed(sys, ServerTurn(site, ch));
    TurnReads(sys, site, ch);
    HonestIsNeverRefused(sys, site, ch);
    ReachedByStep(sys, ServerTurn(site, ch));
    OtherMessagesStore(sys.server, site, Hello(site), ch);
    HelloAnswered(sys, site, ch);
    hide Handle;
    var q := Take(sys, ServerTurn(site, ch));
    ReachedIsGood(q);
    InboxReads(q, site);
    NothingGetsStuck(q, site);
    ReachedByStep(q, ClientTurn(site));
    r := Take(q, ClientTurn(site));
  }

  lemma HelloAnswered(sys: System, site: string, ch: Choices)
    requires Good(sys) && TurnLegal(sys, site, ch) && sys.clients[site].delivered == 0
    ensures var r := Handle(sys.server, site, Hello(site), ch);
            site in r.conns && r.conns[site].sent == [HelloAck("server")]
  {
    hide Stored;
    hide Registry;
    hide NoGap;
    hide Honest;
    hide SessionValid;
    hide Quiet;
    hide Accounted;
    hide Disconnect;
    hide Outbox;
    NameIsFree(sys, site);
    NewcomerIsEmpty(sys, site);
    assert ClientOk(sys, site);
  }

  // Such a document does arise: a past in which a mebibyte of characters was typed, and a newcomer
  // whose request to open it is about to reach the server.
  lemma LargeDocumentArises() returns (sys: System, ch: Choices)
    ensures Reached(sys) && Allowed(sys, ServerTurn("b", ch)) && Framed(OutText(sys, "b"))
    ensures sys.clients["b"].delivered == 1 == sys.clients["b"].consumed && sys.clients["b"].asked == Some("d")
    ensures MAX_MESSAGE_SIZE < 2 * |LogOf(sys.server, "d")|
  {
    hide Reached;
    hide Good;
    hide HonestPast;
    hide Fits;
    var log, doc := LongPast(MAX_MESSAGE_SIZE);
    LongPastIsHonest("d", log, doc, MAX_MESSAGE_SIZE);
    var start := Beginning(map["d" := log], map["d" := doc], InsertedIds(log));
    BeginningIsReached(map["d" := log], map["d" := doc], InsertedIds(log));
    assert Allowed(start, Join("b"));
    ReachedByStep(start, Join("b"));
    var r := Greets(Take(start, Join("b")), "b");
    ReachedByStep(r, Ask("b", "d"));
    sys := Take(r, Ask("b", "d"));
    NothingGetsStuck(sys, "b");
    ch :| Allowed(sys, ServerTurn("b", ch));
  }
}
