// Names can be used again: a document's log accounts for every identifier its operations name, so
// a session that loads it issues new ones, whoever carried its name before.
module CollaborationRestarts {
  import opened Wrappers
  import opened ElementIds
  import opened Operations
  import opened Growth
  import opened DocumentStates
  import opened Messages
  import opened Editing
  import opened SessionFacts
  import opened Commands
  import opened Servers
  import opened ServerFacts
  import opened Collaboration
  import opened CollaborationFacts
  import opened CollaborationTheorems

  // The root's identifier, or one these operations insert.
  ghost predicate Told(x: ElementID, ops: set<Operation>)
  {
    x == ROOT_ID || x in InsertedIds(ops)
  }

  function NamedBy(m: Message): set<ElementID>
  {
    match m
    case OperationMessage(_, op) => Mentioned(op)
    case _ => {}
  }

  // Each queued operation names only what its session had heard by then, or had queued itself.
  ghost predicate QueueGrounded(heard: set<Operation>, queue: seq<Message>)
  {
    forall i, x {:trigger x in NamedBy(queue[i])} | 0 <= i < |queue| && x in NamedBy(queue[i]) ::
      Told(x, heard + Ops(queue[..i + 1]))
  }

  ghost predicate ClientGrounded(sys: System, site: string)
    requires Joined(sys, site)
  {
    var cl, cn := sys.clients[site], sys.server.conns[site];
    cl.consumed <= |cn.sent| && QueueGrounded(Ops(cn.sent[..cl.consumed]), cl.session.outgoing)
  }

  // Every log accounts for the identifiers its operations name.
  ghost predicate LogsRooted(s: Server<string>)
  {
    forall d {:trigger LogOf(s, d)} :: Rooted(LogOf(s, d))
  }

  ghost predicate Grounded(sys: System)
  {
    && LogsRooted(sys.server)
    && forall site {:trigger ClientGrounded(sys, site)} | Joined(sys, site) :: ClientGrounded(sys, site)
  }

  // ----- The queues -----

  lemma ToldMore(x: ElementID, ops: set<Operation>, more: set<Operation>)
    requires Told(x, ops) && ops <= more
    ensures Told(x, more)
  {
  }

  // What a session queues next names what it has heard, what it has queued, or itself.
  ghost predicate Follows(heard: set<Operation>, queue: seq<Message>, extra: seq<Message>)
  {
    forall m, x {:trigger x in NamedBy(m)} | m in extra && x in NamedBy(m) :: Told(x, heard + Ops(queue) + Carried(m))
  }

  lemma QueueGrows(heard: set<Operation>, heard': set<Operation>, queue: seq<Message>, extra: seq<Message>)
    requires QueueGrounded(heard, queue) && heard <= heard' && Follows(heard, queue, extra)
    ensures QueueGrounded(heard', queue + extra)
  {
    hide Ops;
    hide Told;
    hide NamedBy;
    hide Carried;
    var all := queue + extra;
    forall i, x {:trigger x in NamedBy(all[i])} | 0 <= i < |all| && x in NamedBy(all[i])
      ensures Told(x, heard' + Ops(all[..i + 1]))
    {
      if i < |queue| {
        assert all[i] == queue[i] && all[..i + 1] == queue[..i + 1];
        ToldMore(x, heard + Ops(queue[..i + 1]), heard' + Ops(all[..i + 1]));
      } else {
        assert all[i] in extra && all[..i + 1][..|queue|] == queue;
        OpsPrefix(all[..i + 1], |queue|);
        OpsMember(all[..i + 1], all[i]);
        ToldMore(x, heard + Ops(queue) + Carried(all[i]), heard' + Ops(all[..i + 1]));
      }
    }
  }

  // A client that has read no less, with a queue that follows.
  lemma StaysGrounded(sys: System, r: System, site: string, extra: seq<Message>)
    requires Joined(sys, site) && Joined(r, site) && ClientGrounded(sys, site)
    requires sys.server.conns[site].sent <= r.server.conns[site].sent
    requires sys.clients[site].consumed <= r.clients[site].consumed <= |r.server.conns[site].sent|
    requires r.clients[site].session.outgoing == sys.clients[site].session.outgoing + extra
    requires Follows(Ops(sys.server.conns[site].sent[..sys.clients[site].consumed]), sys.clients[site].session.outgoing,
               extra)
    ensures ClientGrounded(r, site)
  {
    hide Ops;
    hide Follows;
    hide QueueGrounded;
    var i, sent := sys.clients[site].consumed, r.server.conns[site].sent[..r.clients[site].consumed];
    assert sent[..i] == sys.server.conns[site].sent[..i];
    OpsPrefix(sent, i);
    QueueGrows(Ops(sent[..i]), Ops(sent), sys.clients[site].session.outgoing, extra);
  }

  // The session is as it was.
  lemma UntouchedIsGrounded(sys: System, r: System, site: string)
    requires Joined(sys, site) && Joined(r, site) && ClientGrounded(sys, site)
    requires r.clients[site].session == sys.clients[site].session
             && r.clients[site].consumed == sys.clients[site].consumed
    requires sys.server.conns[site].sent <= r.server.conns[site].sent
    ensures ClientGrounded(r, site)
  {
    hide ClientGrounded;
    var queue := sys.clients[site].session.outgoing;
    assert queue + [] == queue;
    ReadWithinSent(sys, site);
    StaysGrounded(sys, r, site, []);
  }

  lemma ReadWithinSent(sys: System, site: string)
    requires Joined(sys, site) && ClientGrounded(sys, site)
    ensures sys.clients[site].consumed <= |sys.server.conns[site].sent|
  {
  }

  lemma CommandFollows(sys: System, site: string, cmd: Editing.Command)
    requires Good(sys) && Joined(sys, site) && HandleCommand(sys.clients[site].session, site, cmd).Ok?
    ensures sys.clients[site].consumed <= |sys.server.conns[site].sent|
    ensures var s, ops := sys.clients[site].session, CommandOps(sys.clients[site].session, site, cmd);
            && HandleCommand(s, site, cmd).value.outgoing == s.outgoing + Sent(site, ops)
            && Follows(Ops(sys.server.conns[site].sent[..sys.clients[site].consumed]), s.outgoing, Sent(site, ops))
  {
    hide Registry;
    hide NoGap;
    hide Stored;
    hide Honest;
    hide SessionValid;
    hide Quiet;
    hide HandleCommand;
    hide CommandOps;
    hide Meaning;
    hide Ops;
    hide MessagesFit;
    hide InStep;
    var s := sys.clients[site].session;
    var ops := CommandOps(s, site, cmd);
    assert ClientOk(sys, site);
    CommandKeeps(s, site, cmd);
    forall m, x {:trigger x in NamedBy(m)} | m in Sent(site, ops) && x in NamedBy(m)
      ensures Told(x, s.received + Carried(m)) {
      SentMember(site, ops, m);
      assert OwnOperation(s, site, m.op);
      OwnIsTold(s, site, m.op, x);
    }
  }

  lemma {:induction false} SentMember(site: string, ops: seq<Operation>, m: Message)
    requires m in Sent(site, ops)
    ensures m.OperationMessage? && m.op in ops
  {
    if m in Sent(site, ops[..|ops| - 1]) {
      SentMember(site, ops[..|ops| - 1], m);
    }
  }

  lemma OwnIsTold(s: Session, site: string, op: Operation, x: ElementID)
    requires SessionValid(s, site) && OwnOperation(s, site, op) && x in Mentioned(op)
    ensures Told(x, s.received + {op})
  {
    hide SessionValid;
    hide Meaning;
    if op.Remove? {
      PresentIsOld(s, site, x);
    } else if x == op.parent {
      AnchorWasInserted(s, site);
    }
  }

  // ----- The logs -----

  lemma RootedWithOneMore(log: set<Operation>, op: Operation)
    requires Rooted(log) && forall x | x in Mentioned(op) :: Told(x, log + {op})
    ensures Rooted(log + {op})
  {
    forall o, x {:trigger x in Mentioned(o)} | o in log + {op} && x in Mentioned(o)
      ensures x == ROOT_ID || x in InsertedIds(log + {op})
    {
      if o in log && x != ROOT_ID {
        assert x in InsertedIds(log);
      }
    }
  }

  // What an operation names is in its document's log by the time it is recorded.
  lemma DeliveredIsTold(sys: System, site: string, d: DocumentID, x: ElementID)
    requires Good(sys) && Joined(sys, site) && ClientGrounded(sys, site)
    requires 2 < sys.clients[site].delivered < |Outbox(site, sys.clients[site])|
    requires sys.server.conns[site].document == Some(d)
    requires x in NamedBy(Outbox(site, sys.clients[site])[sys.clients[site].delivered])
    ensures Told(x, LogOf(sys.server, d) + Carried(Outbox(site, sys.clients[site])[sys.clients[site].delivered]))
  {
    hide Registry;
    hide Honest;
    hide Stored;
    hide SessionValid;
    hide Quiet;
    hide MessagesFit;
    hide Ops;
    hide Told;
    hide NamedBy;
    hide LogOf;
    hide Carried;
    var cl, cn := sys.clients[site], sys.server.conns[site];
    var queue, j := cl.session.outgoing, cl.delivered - 2;
    assert ClientOk(sys, site) && ConnComplete(sys.server, site);
    NextMessage(site, cl, cn);
    var shake := [Hello(site), OpenDocument(site, cl.asked.value)];
    assert Outbox(site, cl) == shake + queue;
    var m := queue[j];
    assert Outbox(site, cl)[cl.delivered] == m && x in NamedBy(queue[j]);
    assert Outbox(site, cl)[..cl.delivered] == shake + queue[..j];
    OpsAppend(shake, queue[..j]);
    assert queue[..j + 1] == queue[..j] + [m];
    OpsOne(queue[..j], m);
    OpsPrefix(cn.sent, cl.consumed);
    ToldMore(x, Ops(cn.sent[..cl.consumed]) + Ops(queue[..j + 1]), LogOf(sys.server, d) + Carried(m));
  }

  // ----- Every step -----

  lemma SameLogs(sys: System, r: System)
    requires LogsRooted(sys.server) && r.server.logs == sys.server.logs
    ensures LogsRooted(r.server)
  {
    forall d ensures Rooted(LogOf(r.server, d)) {
      assert Rooted(LogOf(sys.server, d));
    }
  }

  // A step that changes one session at most, and no log.
  lemma SessionStepGrounded(sys: System, r: System, site: string, extra: seq<Message>)
    requires Grounded(sys) && Joined(sys, site) && site in r.clients && r == WithClient(sys, site, r.clients[site])
    requires sys.clients[site].consumed <= r.clients[site].consumed <= |sys.server.conns[site].sent|
    requires r.clients[site].session.outgoing == sys.clients[site].session.outgoing + extra
    requires Follows(Ops(sys.server.conns[site].sent[..sys.clients[site].consumed]), sys.clients[site].session.outgoing,
               extra)
    ensures Grounded(r)
  {
    hide ClientGrounded;
    hide Follows;
    hide LogsRooted;
    SameLogs(sys, r);
    forall k | Joined(r, k) ensures ClientGrounded(r, k) {
      assert ClientGrounded(sys, k);
      if k == site {
        StaysGrounded(sys, r, k, extra);
      } else {
        UntouchedIsGrounded(sys, r, k);
      }
    }
  }

  lemma JoinGrounded(sys: System, site: string)
    requires Grounded(sys) && Allowed(sys, Join(site))
    ensures Grounded(Take(sys, Join(site)))
  {
    hide LogsRooted;
    var r := Take(sys, Join(site));
    SameLogs(sys, r);
    forall k | Joined(r, k) ensures ClientGrounded(r, k) {
      if k != site {
        assert ClientGrounded(sys, k);
      }
    }
  }

  lemma HungUpGrounded(sys: System, site: string)
    requires Grounded(sys) && Joined(sys, site)
    ensures Grounded(HungUp(sys, site))
  {
    hide LogsRooted;
    hide ClientGrounded;
    var r := HungUp(sys, site);
    DisconnectFrame(sys.server, site);
    hide Disconnect;
    SameLogs(sys, r);
    forall k | Joined(r, k) ensures ClientGrounded(r, k) {
      assert ClientGrounded(sys, k);
      UntouchedIsGrounded(sys, r, k);
    }
  }

  lemma QuietExtra(heard: set<Operation>, queue: seq<Message>, extra: seq<Message>)
    requires forall m | m in extra :: !m.OperationMessage?
    ensures Follows(heard, queue, extra)
  {
  }

  lemma SessionGrounded(sys: System, step: Step)
    requires Good(sys) && Grounded(sys) && Allowed(sys, step)
    requires step.Ask? || step.Command? || step.ShareCursor?
    ensures Grounded(Take(sys, step))
  {
    hide Good;
    hide Grounded;
    hide Ops;
    hide Follows;
    hide HandleCommand;
    hide CommandOps;
    var site := step.site;
    var cl, queue, r := sys.clients[site], sys.clients[site].session.outgoing, Take(sys, step);
    var heard := sys.server.conns[site].sent;
    GoodClient(sys, site);
    assert queue + [] == queue;
    QuietExtra(Ops(heard[..cl.consumed]), queue, []);
    if step.Ask? || (step.Command? && HandleCommand(cl.session, site, step.command).Throws?) {
      SessionStepGrounded(sys, r, site, []);
    } else if step.ShareCursor? {
      var extra := [CursorUpdate(site, cl.session.cursor.anchor)];
      QuietExtra(Ops(heard[..cl.consumed]), queue, extra);
      SessionStepGrounded(sys, r, site, extra);
    } else {
      CommandFollows(sys, site, step.command);
      SessionStepGrounded(sys, r, site, Sent(site, CommandOps(cl.session, site, step.command)));
    }
  }

  lemma ClientTurnGrounded(sys: System, site: string)
    requires Good(sys) && Grounded(sys) && Allowed(sys, ClientTurn(site))
    ensures Grounded(Take(sys, ClientTurn(site)))
  {
    hide Good;
    hide Grounded;
    hide Receive;
    hide Ops;
    hide Follows;
    hide SerializeMessage;
    hide DeserializeMessage;
    InboxReads(sys, site);
    if Framed(InText(sys, site)) {
      var cl, cn, r := sys.clients[site], sys.server.conns[site], Take(sys, ClientTurn(site));
      var m := cn.sent[cl.consumed];
      ReceiveReplies(cl.session, site, m);
      QuietExtra(Ops(cn.sent[..cl.consumed]), cl.session.outgoing, Replies(site, r.clients[site].session, m));
      SessionStepGrounded(sys, r, site, Replies(site, r.clients[site].session, m));
    } else {
      HungUpGrounded(sys, site);
    }
  }

  // The log an operation goes to accounts for it; no other log changes.
  lemma LogsStayRooted(sys: System, site: string, ch: Choices)
    requires Good(sys) && Grounded(sys) && TurnLegal(sys, site, ch)
    ensures LogsRooted(Handle(sys.server, site, Outbox(site, sys.clients[site])[sys.clients[site].delivered], ch))
  {
    hide Good;
    hide Rooted;
    hide Handle;
    hide Outbox;
    hide ClientGrounded;
    var cl, cn := sys.clients[site], sys.server.conns[site];
    var m := Outbox(site, cl)[cl.delivered];
    var r := Handle(sys.server, site, m, ch);
    GoodClient(sys, site);
    NextMessage(site, cl, cn);
    LogsAfter(sys.server, site, m, ch);
    forall d ensures Rooted(LogOf(r, d)) {
      assert Rooted(LogOf(sys.server, d));
      if m.OperationMessage? && cn.phase.Live? && cn.document == Some(d) {
        assert ClientGrounded(sys, site);
        forall x | x in Mentioned(m.op) ensures Told(x, LogOf(sys.server, d) + {m.op}) {
          DeliveredIsTold(sys, site, d, x);
        }
        RootedWithOneMore(LogOf(sys.server, d), m.op);
      }
    }
  }

  lemma LogsAfter<C>(s: Server<C>, c: C, m: Message, ch: Choices)
    requires c in s.conns
    ensures forall d {:trigger LogOf(Handle(s, c, m, ch), d)} ::
              && (LogOf(Handle(s, c, m, ch), d) == LogOf(s, d) ||
                  (m.OperationMessage? && s.conns[c].phase.Live? && s.conns[c].document == Some(d)
                   && LogOf(Handle(s, c, m, ch), d) == LogOf(s, d) + {m.op}))
  {
    hide Record;
    hide DocOf;
    hide Edit;
    hide SayHello;
    hide MoveCursor;
    hide FinishSync;
    hide Disconnect;
    match m {
      case OperationMessage(_, op) =>
        EditStore(s, c, m, op);
        if s.conns[c].document.Some? {
          RecordFrame(s, s.conns[c].document.value, op);
        }
      case OpenDocument(_, _) =>
        DisconnectFrame(s, c);
      case _ =>
        OtherMessagesStore(s, c, m, ch);
    }
  }

  lemma ServerTurnGrounded(sys: System, site: string, ch: Choices)
    requires Good(sys) && Grounded(sys) && Allowed(sys, ServerTurn(site, ch))
    ensures Grounded(Take(sys, ServerTurn(site, ch)))
  {
    hide Good;
    hide Grounded;
    hide Handle;
    hide Outbox;
    hide Legal;
    hide Allowed;
    TurnReads(sys, site, ch);
    hide Take;
    if Framed(OutText(sys, site)) {
      HandledGrounded(sys, site, ch);
    } else {
      HungUpGrounded(sys, site);
    }
  }

  lemma HandledGrounded(sys: System, site: string, ch: Choices)
    requires Good(sys) && Grounded(sys) && TurnLegal(sys, site, ch)
    ensures var cl := sys.clients[site];
            Grounded(WithClient(sys, site, cl.(delivered := cl.delivered + 1))
                       .(server := Handle(sys.server, site, Outbox(site, cl)[cl.delivered], ch)))
  {
    hide Good;
    hide Handle;
    hide Outbox;
    hide Legal;
    hide ClientGrounded;
    hide LogsRooted;
    var cl := sys.clients[site];
    var m := Outbox(site, cl)[cl.delivered];
    var r := WithClient(sys, site, cl.(delivered := cl.delivered + 1)).(server := Handle(sys.server, site, m, ch));
    LogsStayRooted(sys, site, ch);
    SelfTurn(sys, site, ch);
    HandleKeepsConns(sys.server, site, m, ch);
    forall k | Joined(r, k) ensures ClientGrounded(r, k) {
      assert ClientGrounded(sys, k);
      if k != site {
        OthersAreToldAtMost(sys.server, site, m, ch, k);
      }
      UntouchedIsGrounded(sys, r, k);
    }
  }

  lemma StepGrounded(sys: System, step: Step)
    requires Good(sys) && Grounded(sys) && Allowed(sys, step)
    ensures Grounded(Take(sys, step))
  {
    hide Good;
    hide Grounded;
    hide Allowed;
    hide Take;
    match step
    case Join(site) => JoinGrounded(sys, site);
    case Ask(_, _) => SessionGrounded(sys, step);
    case Command(_, _) => SessionGrounded(sys, step);
    case ShareCursor(_) => SessionGrounded(sys, step);
    case ServerTurn(site, ch) => ServerTurnGrounded(sys, site, ch);
    case ClientTurn(site) => ClientTurnGrounded(sys, site);
    case Leave(site) => LeaveGrounded(sys, site);
  }

  lemma LeaveGrounded(sys: System, site: string)
    requires Grounded(sys) && Allowed(sys, Leave(site))
    ensures Grounded(Take(sys, Leave(site)))
  {
    hide Grounded;
    HungUpGrounded(sys, site);
  }

  // In every state of an honest run from logs that account for the identifiers they name, every log
  // still does.
  lemma {:induction false} LogsStayGrounded(
    states: seq<System>, steps: seq<Step>,
    logs: map<DocumentID, set<Operation>>, documents: map<DocumentID, DocState>, past: set<ElementID>, i: nat)
    requires HonestRun(states, steps, logs, documents, past) && LogsRooted(states[0].server) && i <= |steps|
    ensures Grounded(states[i])
    decreases i
  {
    hide Good;
    hide LogsRooted;
    hide ClientGrounded;
    hide Allowed;
    hide Take;
    hide HonestPast;
    if i > 0 {
      GoodForever(states, steps, logs, documents, past, i - 1);
      LogsStayGrounded(states, steps, logs, documents, past, i - 1);
      assert states[i] == Take(states[i - 1], steps[i - 1]);
      StepGrounded(states[i - 1], steps[i - 1]);
    }
  }

  // A name can be used again: in every such state, a fresh session under any name, also one that has
  // issued identifiers before, is sound once it has loaded a document, and the identifier it issues
  // next is named by no operation of that document.
  lemma NamesCanReturn(
    states: seq<System>, steps: seq<Step>,
    logs: map<DocumentID, set<Operation>>, documents: map<DocumentID, DocState>, past: set<ElementID>,
    i: nat, d: DocumentID, history: seq<Operation>, site: string)
    requires HonestRun(states, steps, logs, documents, past) && LogsRooted(states[0].server) && i <= |steps|
    requires Elements(history) == LogOf(states[i].server, d)
    ensures var s := Receive(FreshSession, site, SyncResponse("server", history));
            && s.received == LogOf(states[i].server, d) && SessionValid(s, site) && Quiet(s)
            && Unheard(LogOf(states[i].server, d), ElementID(s.clock + 1, site))
  {
    hide ClientGrounded;
    hide Functional;
    hide Rooted;
    hide Receive;
    hide SessionValid;
    hide Quiet;
    hide Allowed;
    hide Take;
    hide HonestPast;
    hide LogOf;
    LogsStayGrounded(states, steps, logs, documents, past, i);
    GoodForever(states, steps, logs, documents, past, i);
    LogIsFunctional(states[i], d);
    RestartIsSound(site, "server", history);
  }

  lemma LogIsFunctional(sys: System, d: DocumentID)
    requires Good(sys)
    ensures Functional(LogOf(sys.server, d))
  {
    hide Registry;
    hide NoGap;
    hide ClientOk;
    FewerOperations(LogOf(sys.server, d), All(sys));
  }

  // ----- The server restarts -----

  ghost function NamedIn(ops: set<Operation>): set<ElementID>
  {
    set op, x | op in ops && x in Mentioned(op) :: x
  }

  // What an honest system leaves in the database is an honest past again, however its documents are
  // rebuilt: everything that holds of a run holds across restarts of the server.
  lemma PastStaysHonest(sys: System, documents: map<DocumentID, DocState>)
    requires Reached(sys) && Stored(Servers.Started<string>(sys.server.logs, documents))
    ensures HonestPast(sys.server.logs, documents, NamedIn(Logged(sys.server.logs)))
  {
    hide Reached;
    hide Good;
    hide Stored;
    hide Known;
    hide NamesArePlain;
    hide MentionsKnown;
    hide Issued;
    hide OneLine;
    var logged := Logged(sys.server.logs);
    ReachedIsGood(sys);
    GoodIsHonest(sys);
    FewerOperations(logged, All(sys));
    forall op, x {:trigger x in Mentioned(op)} | op in logged && x in Mentioned(op) ensures OneLine(x) {
      MentionedIsKnown(sys, All(sys), op, x);
      KnownIsOneLine(sys, x);
    }
  }
}
