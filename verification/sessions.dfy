// The editor session: one document, one cursor, the identifier generator, duplicate detection
// by text, and the cursors of other clients, all updated in place.
module Sessions {
  import opened Wrappers
  import opened ElementIds
  import opened Operations
  import opened Trees
  import opened VisibleText
  import opened Documents
  import opened OperationCodec
  import opened Messages
  import opened Editing
  import opened SessionFacts
  import opened Commands
  import opened SessionSteps
  import opened Cursors
  import opened InputHandlers

  ghost predicate DistinctTexts(history: seq<Operation>)
  {
    forall i, j | 0 <= i < j < |history| :: SerializeOperation(history[i]) != SerializeOperation(history[j])
  }

  // The operations a session has seen, in the order it saw them, one for each text.
  class OperationLog {
    var operationHistory: seq<Operation>
    var recordedOperations: set<string>

    ghost predicate Valid()
      reads this
    {
      DistinctTexts(operationHistory) && recordedOperations == TextsOf(Elements(operationHistory))
    }

    constructor ()
      ensures Valid() && operationHistory == []
    {
      operationHistory, recordedOperations := [], {};
    }

    method Record(op: Operation)
      requires Valid()
      modifies this
      ensures Valid()
      ensures operationHistory ==
              if exists o :: o in old(operationHistory) && SerializeOperation(o) == SerializeOperation(op)
              then old(operationHistory) else old(operationHistory) + [op]
    {
      hide SerializeOperation;
      var serialized := SerializeOperation(op);
      if serialized in recordedOperations {
        return;
      }
      recordedOperations := recordedOperations + {serialized};
      operationHistory := operationHistory + [op];
      ElementsGrow(old(operationHistory), op);
    }
  }

  lemma ElementsGrow(history: seq<Operation>, op: Operation)
    ensures Elements(history + [op]) == Elements(history) + {op}
    ensures TextsOf(Elements(history + [op])) == TextsOf(Elements(history)) + {SerializeOperation(op)}
  {
    hide SerializeOperation;
    var ops, more := Elements(history), Elements(history + [op]);
    assert more == ops + {op};
    assert op in more && forall o | o in ops :: o in more;
  }

  // A batch of messages from honest senders, and the session after taking them one by one.
  ghost predicate AllTrusted(s: Session, site: string, ms: seq<Message>)
    decreases |ms|
  {
    ms == [] ||
    (Trusted(s, site, ms[0]) && Sendable(ms[0]) && AllTrusted(Editing.Receive(s, site, ms[0]), site, ms[1..]))
  }

  ghost function ReceiveAll(s: Session, site: string, ms: seq<Message>): Session
    decreases |ms|
  {
    if ms == [] then s else ReceiveAll(Editing.Receive(s, site, ms[0]), site, ms[1..])
  }

  lemma NoTexts(site: string)
    ensures TextsOf({}) == {} && Elements<Operation>([]) == {} && AllOfSite({}, site)
  {
  }

  lemma NonePromoted(t: Tree, remote: map<string, ElementID>, pending: map<string, ElementID>)
    ensures Arrived(t, pending, {}) == map[] && StillWaiting(t, pending, {}) == pending
    ensures remote + map[] == remote
  {
    hide Resolved;
  }

  lemma PromotedOne(
    t: Tree, remote: map<string, ElementID>, pending: map<string, ElementID>, done: set<string>, k: string)
    requires k in pending && k !in done
    ensures k in StillWaiting(t, pending, done) && StillWaiting(t, pending, done)[k] == pending[k]
    ensures Resolved(t, pending[k]).Some? ==>
              && StillWaiting(t, pending, done + {k}) == StillWaiting(t, pending, done) - {k}
              && remote + Arrived(t, pending, done + {k}) == (remote + Arrived(t, pending, done))[k := pending[k]]
    ensures Resolved(t, pending[k]).None? ==>
              && StillWaiting(t, pending, done + {k}) == StillWaiting(t, pending, done)
              && Arrived(t, pending, done + {k}) == Arrived(t, pending, done)
  {
    hide Resolved;
  }

  class EditorSession {
    const doc: Document
    const cursor: Cursor
    const gen: IdGenerator
    const handler: InputHandler
    const log: OperationLog
    const clientId: string
    var appliedOperations: set<string>
    var remoteCursors: map<string, ElementID>
    var pendingCursorUpdates: map<string, ElementID>
    var incoming: seq<Message>
    var outgoing: seq<Message>

    ghost function View(): Session
      reads this`remoteCursors, this`pendingCursorUpdates, this`outgoing, doc, cursor, gen
    {
      Session(doc.received, cursor.State(), gen.lamportClock, remoteCursors, pendingCursorUpdates, outgoing)
    }

    // What holds even between the operations of one command.
    ghost predicate Wired()
      reads this`appliedOperations, doc, log
    {
      && handler.doc == doc && handler.cursor == cursor && handler.gen == gen && gen.clientId == clientId
      && doc.Valid() && doc.Exact() && log.Valid()
      && AllOfSite(doc.received, clientId) && appliedOperations == TextsOf(doc.received)
      && Elements(log.operationHistory) == doc.received
    }

    ghost predicate Valid()
      reads this`appliedOperations, this`remoteCursors, this`pendingCursorUpdates, this`outgoing, doc, cursor, gen, log
    {
      Wired() && SessionValid(View(), clientId) && Quiet(View())
    }

    constructor (clientId: string)
      ensures Valid() && View() == FreshSession && this.clientId == clientId
      ensures fresh(doc) && fresh(cursor) && fresh(gen) && fresh(log)
    {
      hide TextsOf;
      hide AllOfSite;
      hide SessionValid;
      hide Quiet;
      hide Document.Valid;
      hide Document.Exact;
      hide OperationLog.Valid;
      var d := new Document();
      var c := new Cursor(ROOT_ID);
      var g := new IdGenerator(clientId);
      var h := new InputHandler(d, c, g);
      var l := new OperationLog();
      doc, cursor, gen, handler, log := d, c, g, h, l;
      this.clientId := clientId;
      appliedOperations, remoteCursors, pendingCursorUpdates, incoming, outgoing := {}, map[], map[], [], [];
      new;
      NoTexts(clientId);
      FreshSessionValid(clientId);
    }

    // ----- Operations -----

    // A duplicate changes nothing; a new operation is logged and applied, and the cursors it
    // concerns follow it.
    method ApplyOperation(op: Operation, updateCursor: bool) returns (outcome: Result<()>)
      requires Wired() && OfSite(op, clientId) && Ready(View(), op)
      modifies this`appliedOperations, this`remoteCursors, doc, cursor, log
      ensures outcome.Ok? && Wired() && View() == Absorb(old(View()), op, updateCursor)
    {
      hide Shape;
      hide Document.Valid;
      hide Document.Exact;
      hide Wired;
      hide SerializeOperation;
      hide OfSite;
      hide Ready;
      hide Absorb;
      hide Functional;
      hide RemotesPresent;
      hide Meaning;
      hide CursorAfter;
      hide RemoteAfter;
      SeenByText(op);
      ghost var s := View();
      ReadyUnfolds(s, op, updateCursor);
      WiredMeaning();
      var serialized := SerializeOperation(op);
      if serialized in appliedOperations {
        return Ok(());
      }
      ghost var t := doc.View();
      outcome := TakeIn(op);
      if outcome.Throws? {
        return;
      }
      RemotesStay(t);
      WiredMeaning();
      outcome := MoveCursors(op, updateCursor);
      AbsorbedAs(s, View(), op, updateCursor);
    }

    // A new operation enters the applied set, the log and the document.
    method TakeIn(op: Operation) returns (outcome: Result<()>)
      requires Wired() && OfSite(op, clientId) && Functional(doc.received + {op})
      modifies this`appliedOperations, doc, log
      ensures outcome.Ok? && Wired() && doc.received == old(doc.received) + {op}
      ensures old(doc.elements.Keys) <= doc.elements.Keys
    {
      hide SerializeOperation;
      hide Document.Valid;
      hide Document.Exact;
      hide OperationLog.Valid;
      hide AllOfSite;
      hide TextsOf;
      hide OfSite;
      hide Functional;
      SeenByText(op);
      appliedOperations := appliedOperations + {SerializeOperation(op)};
      log.Record(op);
      outcome := doc.Apply(op);
    }

    lemma WiredMeaning()
      requires Wired()
      ensures doc.Valid() && doc.Exact() && doc.View() == Meaning(doc.received)
      ensures doc.elements == Meaning(doc.received).elements && doc.View().elements == doc.elements
    {
      DocMeaning();
    }

    // Being in the applied set, in the log and in the document are one thing.
    lemma SeenByText(op: Operation)
      requires Wired() && OfSite(op, clientId)
      ensures SerializeOperation(op) in appliedOperations <==> op in doc.received
      ensures (exists o :: o in log.operationHistory && SerializeOperation(o) == SerializeOperation(op)) <==>
              SerializeOperation(op) in appliedOperations
      ensures AllOfSite(doc.received + {op}, clientId)
      ensures TextsOf(doc.received + {op}) == TextsOf(doc.received) + {SerializeOperation(op)}
      ensures Elements(log.operationHistory + [op]) == Elements(log.operationHistory) + {op}
    {
      hide SerializeOperation;
      hide OfSite;
      hide Document.Valid;
      hide Document.Exact;
      hide OperationLog.Valid;
      DuplicateByText(doc.received, op, clientId);
      ElementsGrow(log.operationHistory, op);
      assert forall o :: o in log.operationHistory <==> o in doc.received;
    }

    lemma RemotesStay(t: Tree)
      requires RemotesPresent(t, remoteCursors) && t.elements.Keys <= doc.elements.Keys
      ensures RemotesPresent(doc.View(), remoteCursors)
    {
    }

    // The cursors after an operation has been applied.
    method MoveCursors(op: Operation, updateCursor: bool) returns (outcome: Result<()>)
      requires doc.Valid() && doc.Exact() && RemotesPresent(doc.View(), remoteCursors)
      requires op == Remove(cursor.anchor) ==> cursor.anchor in doc.elements
      modifies this`remoteCursors, cursor`anchor
      ensures outcome.Ok?
      ensures cursor.State() == CursorAfter(Meaning(doc.received), old(cursor.State()), op, updateCursor)
      ensures remoteCursors == RemoteAfter(Meaning(doc.received), old(remoteCursors), op)
    {
      hide Document.Valid;
      hide Document.Exact;
      hide Meaning;
      hide CursorAfter;
      hide RemoteAfter;
      hide RemotesPresent;
      DocMeaning();
      if updateCursor {
        outcome := cursor.Update(doc, op);
      } else {
        outcome := cursor.UpdateOnRemote(doc, op);
      }
      if outcome.Throws? {
        return;
      }
      UpdateRemoteCursors(op);
    }

    lemma DocMeaning()
      requires doc.Exact()
      ensures doc.View() == Meaning(doc.received) && Functional(doc.received)
      ensures doc.elements == Meaning(doc.received).elements
    {
      doc.IsExact();
      hide Represents;
      hide Document.Valid;
      hide Document.Exact;
      hide Functional;
      RepresentationIsUnique(doc.View(), Meaning(doc.received), doc.received);
    }

    // Remote cursors at a removed element step back to the visible element before it.
    method UpdateRemoteCursors(op: Operation)
      requires doc.Valid() && RemotesPresent(doc.View(), remoteCursors)
      modifies this`remoteCursors
      ensures remoteCursors == RemoteAfter(doc.View(), old(remoteCursors), op)
    {
      hide Document.Valid;
      hide Document.Exact;
      hide VisiblePredecessor;
      if op.Insert? {
        return;
      }
      var keys := remoteCursors.Keys;
      while keys != {}
        invariant keys <= remoteCursors.Keys == old(remoteCursors.Keys)
        invariant forall k | k in remoteCursors ::
                    remoteCursors[k] == if k in keys
                      then old(remoteCursors)[k] else RemoteAfter(doc.View(), old(remoteCursors), op)[k]
      {
        var k :| k in keys;
        assert old(remoteCursors)[k] in doc.View().elements;
        if remoteCursors[k] == op.target {
          var predecessor := doc.VisiblePredecessorOf(op.target);
          remoteCursors := remoteCursors[k := predecessor.value];
        }
        keys := keys - {k};
      }
    }

    // A remote operation first advances the clock.
    method ReceiveOperation(op: Operation) returns (outcome: Result<()>)
      requires Wired() && SessionValid(View(), clientId) && OfSite(op, clientId)
      requires Functional(doc.received + {op}) && AllIssuedHere({op}, clientId, gen.lamportClock)
      modifies this`appliedOperations, this`remoteCursors, doc, cursor, log, gen
      ensures outcome.Ok? && Wired() && SessionValid(View(), clientId)
      ensures View() == AbsorbRemote(old(View()), op)
    {
      hide Wired;
      hide SessionValid;
      hide Ready;
      hide Absorb;
      AbsorbRemoteKeeps(View(), clientId, op);
      BoundsLater(View(), clientId, ClockAfter(gen.lamportClock, op));
      ghost var s := View();
      if op.Insert? {
        gen.SyncClock(op.id.lamport);
      }
      assert View() == s.(clock := ClockAfter(s.clock, op));
      ValidIsReady(View(), clientId, op);
      outcome := ApplyOperation(op, false);
    }

    lemma HistoryStep(s: Session, history: seq<Operation>, i: nat)
      requires SessionValid(s, clientId) && AllOfSite(Elements(history), clientId) && i < |history|
      requires Functional(s.received + Elements(history)) && AllIssuedHere(Elements(history), clientId, s.clock)
      ensures var r := AbsorbHistory(s, history[..i]);
              && SessionValid(r, clientId) && Functional(r.received + {history[i]})
              && AllIssuedHere({history[i]}, clientId, r.clock) && OfSite(history[i], clientId)
      ensures AbsorbHistory(s, history[..i + 1]) == AbsorbRemote(AbsorbHistory(s, history[..i]), history[i])
    {
      hide SessionValid;
      hide AbsorbRemote;
      hide OfSite;
      assert history[..i + 1][..i] == history[..i];
      assert Elements(history[..i]) <= Elements(history);
      FewerOperations(s.received + Elements(history[..i]), s.received + Elements(history));
      FewerOperations(s.received + Elements(history[..i]) + {history[i]}, s.received + Elements(history));
      hide Functional;
      AbsorbHistoryKeeps(s, clientId, history[..i]);
      assert history[i] in Elements(history);
    }

    method ApplyHistory(history: seq<Operation>) returns (outcome: Result<()>)
      requires Wired() && SessionValid(View(), clientId) && AllOfSite(Elements(history), clientId)
      requires Functional(doc.received + Elements(history))
               && AllIssuedHere(Elements(history), clientId, gen.lamportClock)
      modifies this`appliedOperations, this`remoteCursors, this`pendingCursorUpdates, doc, cursor, log, gen
      ensures outcome.Ok? && Wired() && SessionValid(View(), clientId)
      ensures View() == Settle(AbsorbHistory(old(View()), history))
    {
      hide Wired;
      hide SessionValid;
      hide Functional;
      hide AllIssuedHere;
      hide AbsorbRemote;
      ghost var s := View();
      assert history[..0] == [];
      assert history[..|history|] == history;
      for i := 0 to |history|
        invariant Wired() && SessionValid(View(), clientId)
        invariant View() == AbsorbHistory(s, history[..i])
      {
        HistoryStep(s, history, i);
        outcome := ReceiveOperation(history[i]);
        if outcome.Throws? {
          return;
        }
      }
      UpdatePendingCursorUpdates();
      outcome := Ok(());
    }

    // Cursor updates whose anchor has arrived leave the waiting list, erased while it is walked.
    method UpdatePendingCursorUpdates()
      requires Wired() && SessionValid(View(), clientId)
      modifies this`remoteCursors, this`pendingCursorUpdates
      ensures Wired() && SessionValid(View(), clientId) && Quiet(View()) && View() == Settle(old(View()))
    {
      hide Document.Valid;
      hide Document.Exact;
      hide TextsOf;
      hide AllOfSite;
      hide OperationLog.Valid;
      hide SessionValid;
      hide Quiet;
      hide Arrived;
      hide StillWaiting;
      hide Meaning;
      SettleKeeps(View(), clientId);
      DocMeaning();
      PromotePending();
    }

    method PromotePending()
      requires doc.Valid()
      modifies this`remoteCursors, this`pendingCursorUpdates
      ensures remoteCursors ==
              old(remoteCursors) + Arrived(doc.View(), old(pendingCursorUpdates), old(pendingCursorUpdates).Keys)
      ensures pendingCursorUpdates ==
              StillWaiting(doc.View(), old(pendingCursorUpdates), old(pendingCursorUpdates).Keys)
    {
      hide Document.Valid;
      hide Document.Exact;
      hide Resolved;
      hide Arrived;
      hide StillWaiting;
      NonePromoted(doc.View(), remoteCursors, pendingCursorUpdates);
      var keys := pendingCursorUpdates.Keys;
      ghost var remote, pending, done := remoteCursors, pendingCursorUpdates, {};
      while keys != {}
        invariant keys + done == pending.Keys && keys !! done
        invariant pendingCursorUpdates == StillWaiting(doc.View(), pending, done)
        invariant remoteCursors == remote + Arrived(doc.View(), pending, done)
      {
        var k :| k in keys;
        PromotedOne(doc.View(), remote, pending, done, k);
        var position := pendingCursorUpdates[k];
        var resolved := doc.ResolveCursorAnchor(position);
        if resolved.Some? {
          remoteCursors := remoteCursors[k := position];
          pendingCursorUpdates := pendingCursorUpdates - {k};
        }
        keys := keys - {k};
        done := done + {k};
      }
      assert done == pending.Keys;
    }

    // ----- Messages -----

    // An update whose anchor is not here yet waits; it replaces an older one either way.
    method ReceiveCursorUpdate(sender: string, position: ElementID)
      requires Wired()
      modifies this`remoteCursors, this`pendingCursorUpdates
      ensures Wired() && View() == ReceiveCursor(old(View()), sender, position)
    {
      hide Document.Valid;
      hide Document.Exact;
      hide TextsOf;
      hide AllOfSite;
      hide OperationLog.Valid;
      hide Resolved;
      hide Meaning;
      DocMeaning();
      var resolved := doc.ResolveCursorAnchor(position);
      if resolved.None? {
        pendingCursorUpdates := pendingCursorUpdates[sender := position];
        return;
      }
      remoteCursors := remoteCursors[sender := position];
      pendingCursorUpdates := pendingCursorUpdates - {sender};
    }

    method QueueOutgoing(m: Message)
      modifies this`outgoing
      ensures outgoing == old(outgoing) + [m]
    {
      outgoing := outgoing + [m];
    }

    method QueueCursorUpdate()
      requires Valid()
      modifies this`outgoing
      ensures Valid()
      ensures View() == old(View()).(outgoing := old(outgoing) + [CursorUpdate(clientId, cursor.anchor)])
    {
      hide SessionValid;
      hide Quiet;
      hide Document.Valid;
      hide Document.Exact;
      hide TextsOf;
      hide AllOfSite;
      hide OperationLog.Valid;
      OutgoingIsFree(View(), clientId, outgoing + [CursorUpdate(clientId, cursor.anchor)]);
      QueueOutgoing(CursorUpdate(clientId, cursor.anchor));
    }

    // Every message does what the value-level semantics says and leaves the session valid.
    method Apply(m: Message) returns (outcome: Result<()>)
      requires Valid() && Trusted(View(), clientId, m) && Sendable(m)
      modifies this`appliedOperations, this`remoteCursors, this`pendingCursorUpdates, this`outgoing, doc, cursor, log,
               gen
      ensures outcome.Ok? && Valid() && View() == Editing.Receive(old(View()), clientId, m)
    {
      hide SessionValid;
      hide Quiet;
      hide Wired;
      hide Settle;
      hide AbsorbRemote;
      hide AbsorbHistory;
      hide ReceiveCursor;
      hide Functional;
      hide AllIssuedHere;
      ReceiveKeeps(View(), clientId, m);
      ReadIsOfSite(m, clientId);
      match m {
        case OperationMessage(_, op) =>
          assert op in Carried(m);
          outcome := ReceiveOperation(op);
          if outcome.Throws? {
            return;
          }
          UpdatePendingCursorUpdates();
        case SyncResponse(_, history) =>
          assert Carried(m) == Elements(history);
          outcome := ApplyHistory(history);
          if outcome.Throws? {
            return;
          }
          ghost var queued := outgoing;
          QueueOutgoing(SyncComplete(clientId));
          QueueOutgoing(CursorUpdate(clientId, cursor.anchor));
          assert outgoing == queued + [SyncComplete(clientId), CursorUpdate(clientId, cursor.anchor)];
        case CursorUpdate(sender, position) =>
          ReceiveCursorUpdate(sender, position);
        case _ =>
      }
      outcome := Ok(());
    }

    // Takes everything that has arrived and applies it in order.
    method FlushIncoming() returns (outcome: Result<()>)
      requires Valid() && AllTrusted(View(), clientId, incoming)
      modifies this, doc, cursor, log, gen
      ensures outcome.Ok? && Valid() && incoming == []
      ensures View() == ReceiveAll(old(View()), clientId, old(incoming))
    {
      hide Valid;
      hide Trusted;
      hide Sendable;
      hide Editing.Receive;
      var messages := incoming;
      incoming := [];
      for i := 0 to |messages|
        invariant Valid() && incoming == []
        invariant AllTrusted(View(), clientId, messages[i..])
        invariant ReceiveAll(View(), clientId, messages[i..]) == ReceiveAll(old(View()), clientId, messages)
      {
        assert messages[i..][0] == messages[i] && messages[i..][1..] == messages[i + 1..];
        outcome := Apply(messages[i]);
        if outcome.Throws? {
          return;
        }
      }
      outcome := Ok(());
    }

    // ----- Commands -----

    // Every command does what the value-level semantics says and leaves the session valid; only
    // a command without a character is refused, and changes nothing.
    method HandleEditorCommand(cmd: Command) returns (outcome: Result<()>)
      requires Valid()
      modifies this`appliedOperations, this`remoteCursors, this`outgoing, doc, cursor, log, gen
      ensures Valid()
      ensures match HandleCommand(old(View()), clientId, cmd)
              case Throws(_) => outcome.Throws? && View() == old(View())
              case Ok(r) => outcome.Ok? && View() == r
    {
      hide Shape;
      hide SessionValid;
      hide Quiet;
      hide Document.Valid;
      hide Document.Exact;
      hide OperationLog.Valid;
      hide TextsOf;
      hide AllOfSite;
      hide Functional;
      hide Process;
      hide PerformAll;
      hide CursorPosition;
      hide Anchored;
      hide HandleCommand;
      hide CommandKept;
      hide Meaning;
      ghost var s := View();
      DocMeaning();
      ValidIsFunctional(s, clientId);
      CommandUnfolds(s, clientId, cmd);
      var actions := handler.ProcessCommand(cmd);
      if actions.Throws? {
        return Throws(actions.reason);
      }
      outcome := PerformActions(s, cmd, actions.value);
      if outcome.Throws? {
        return;
      }
      DocMeaning();
      KeptIsValid(s, View(), clientId, actions.value);
      KeptIsValid(s, HandleCommand(s, clientId, cmd).value, clientId, actions.value);
      if !cmd.MoveUp? && !cmd.MoveDown? {
        outcome := cursor.UpdateDesiredColumn(doc);
      }
    }

    // Applies the operations of a command one by one and queues each for the server.
    method PerformActions(ghost s: Session, ghost cmd: Command, actions: seq<Operation>) returns (outcome: Result<()>)
      requires Wired() && SessionValid(s, clientId) && s.received == doc.received
      requires cmd != InsertCharacter('\0') && actions == CommandOps(s, clientId, cmd)
      requires View() == Started(s, clientId, cmd)
      modifies this`appliedOperations, this`remoteCursors, this`outgoing, doc, cursor, log
      ensures outcome.Ok? && Wired() && View() == PerformAll(Started(s, clientId, cmd), clientId, actions)
    {
      hide SessionValid;
      hide Wired;
      hide Ready;
      hide Started;
      hide Process;
      hide Absorb;
      hide OfSite;
      ActionsAreOfSite(s, cmd);
      assert actions[..0] == [] && actions[..|actions|] == actions;
      for i := 0 to |actions|
        invariant Wired() && View() == PerformAll(Started(s, clientId, cmd), clientId, actions[..i])
      {
        CommandReady(s, clientId, cmd, i);
        assert actions[..i + 1][..i] == actions[..i];
        outcome := ApplyOperation(actions[i], true);
        if outcome.Throws? {
          return;
        }
        QueueOutgoing(OperationMessage(clientId, actions[i]));
      }
      outcome := Ok(());
    }

    lemma ActionsAreOfSite(s: Session, cmd: Command)
      requires Wired() && SessionValid(s, clientId) && s.received == doc.received
      requires cmd != InsertCharacter('\0')
      ensures forall op | op in CommandOps(s, clientId, cmd) :: OfSite(op, clientId)
    {
      hide SessionValid;
      hide OfSite;
      hide OwnOperation;
      hide CommandOps;
      CommandUnfolds(s, clientId, cmd);
      forall op | op in CommandOps(s, clientId, cmd) ensures OfSite(op, clientId) {
        OwnIsOfSite(s, clientId, op);
      }
    }
  }
}
