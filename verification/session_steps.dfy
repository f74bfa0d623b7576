// What a session may rely on at each step of a command or a message: nothing it calls throws,
// and comparing texts is comparing operations.
module SessionSteps {
  import opened Wrappers
  import opened ElementIds
  import opened Operations
  import opened Trees
  import opened VisibleText
  import opened OperationCodec
  import opened Messages
  import opened Editing
  import opened SessionFacts
  import opened Commands

  // The operation can be applied and every cursor it moves can be moved.
  ghost predicate Ready(s: Session, op: Operation)
  {
    && Functional(s.received + {op})
    && (op == Remove(s.cursor.anchor) ==> s.cursor.anchor in Meaning(s.received).elements)
    && RemotesPresent(Meaning(s.received), s.remote)
  }

  lemma ValidIsReady(s: Session, site: string, op: Operation)
    requires SessionValid(s, site) && Functional(s.received + {op})
    ensures Ready(s, op)
  {
    AnchoredIsPresent(Meaning(s.received), s.cursor.anchor);
  }

  // The session when the handler has run and none of the operations is performed yet.
  ghost function Started(s: Session, site: string, cmd: Command): Session
  {
    match Process(Meaning(s.received), s.cursor, s.clock, site, cmd)
    case Throws(_) => s
    case Ok(effect) => s.(cursor := effect.cursor, clock := effect.clock)
  }

  lemma CommandUnfolds(s: Session, site: string, cmd: Command)
    requires SessionValid(s, site)
    ensures HandleCommand(s, site, cmd).Throws? <==> cmd == InsertCharacter('\0')
    ensures Process(Meaning(s.received), s.cursor, s.clock, site, cmd).Throws? <==> cmd == InsertCharacter('\0')
    ensures cmd != InsertCharacter('\0') ==>
              var r := PerformAll(Started(s, site, cmd), site, CommandOps(s, site, cmd));
              && HandleCommand(s, site, cmd) == Ok(if cmd.MoveUp? || cmd.MoveDown? then r else Remember(r))
              && CommandKept(s, r, site, CommandOps(s, site, cmd))
              && CommandKept(s, HandleCommand(s, site, cmd).value, site, CommandOps(s, site, cmd))
  {
    hide SessionValid;
    hide Meaning;
    hide CommandKept;
    hide PerformAll;
    hide Remember;
    CommandKeeps(s, site, cmd);
    if cmd != InsertCharacter('\0') {
      CommandCases(s, site, cmd);
    }
    hide Process;
  }

  lemma KeptIsValid(s: Session, r: Session, site: string, ops: seq<Operation>)
    requires CommandKept(s, r, site, ops) && Quiet(s)
    ensures SessionValid(r, site) && Quiet(r)
    ensures Anchored(Meaning(r.received), r.cursor.anchor)
  {
    hide SessionValid;
    hide Quiet;
    ValidIsFunctional(r, site);
  }

  lemma ReadyUnfolds(s: Session, op: Operation, local: bool)
    requires Ready(s, op)
    ensures Functional(s.received + {op}) && RemotesPresent(Meaning(s.received), s.remote)
    ensures op == Remove(s.cursor.anchor) ==> s.cursor.anchor in Meaning(s.received).elements
    ensures op in s.received ==> Absorb(s, op, local) == s
  {
    hide Functional;
    hide RemotesPresent;
    hide Meaning;
    hide CursorAfter;
    hide RemoteAfter;
  }

  lemma AbsorbedAs(s: Session, r: Session, op: Operation, local: bool)
    requires op !in s.received && r.received == s.received + {op}
    requires r.cursor == CursorAfter(Meaning(r.received), s.cursor, op, local)
    requires r.remote == RemoteAfter(Meaning(r.received), s.remote, op)
    requires r.clock == s.clock && r.pending == s.pending && r.outgoing == s.outgoing
    ensures r == Absorb(s, op, local)
  {
    hide Meaning;
    hide CursorAfter;
    hide RemoteAfter;
  }

  // Every operation of a command is ready when its turn comes.
  lemma CommandReady(s: Session, site: string, cmd: Command, i: nat)
    requires SessionValid(s, site) && i < |CommandOps(s, site, cmd)|
    ensures Ready(PerformAll(Started(s, site, cmd), site, CommandOps(s, site, cmd)[..i]), CommandOps(s, site, cmd)[i])
  {
    CommandReadyIn(s, site, cmd, i);
    hide SessionValid;
    hide Meaning;
    hide Process;
    hide PerformAll;
    hide Ready;
  }

  lemma CommandReadyIn(s: Session, site: string, cmd: Command, i: nat)
    requires SessionValid(s, site) && cmd != InsertCharacter('\0')
    ensures var effect := Process(Meaning(s.received), s.cursor, s.clock, site, cmd);
            && effect.Ok? && effect.value.ops == CommandOps(s, site, cmd)
            && (i < |effect.value.ops| ==>
                  Ready(PerformAll(s.(cursor := effect.value.cursor, clock := effect.value.clock), site,
                    effect.value.ops[..i]),
                        effect.value.ops[i]))
  {
    SameOps(s, site, cmd);
    if Types(cmd) {
      TypingReady(s, site, if cmd.Enter? then '\n' else cmd.c, i);
    } else {
      var t := Meaning(s.received);
      ValidIsFunctional(s, site);
      NonTypingCommand(t, s.cursor, s.clock, site, cmd);
      hide *;
      var effect := Process(t, s.cursor, s.clock, site, cmd).value;
      assert s.(cursor := effect.cursor, clock := effect.clock) == s.(cursor := effect.cursor);
      if i < |effect.ops| {
        RemovalReady(s, site, effect.cursor, RemovedIds(t, s.cursor, cmd), i);
      }
    }
  }

  lemma TypingReady(s: Session, site: string, c: char, i: nat)
    requires SessionValid(s, site)
    ensures var effect := Typed(s.cursor, s.clock, site, c);
            i < |effect.ops| ==>
              Ready(PerformAll(s.(cursor := effect.cursor, clock := effect.clock), site, effect.ops[..i]),
                effect.ops[i])
  {
    var op := Insert(s.cursor.anchor, ElementID(s.clock + 1, site), c);
    FreshIsUnheard(s, site, op);
    hide Functional;
    hide Meaning;
    if i == 0 {
      assert [op][..0] == [];
    }
  }

  lemma RemovalReady(s: Session, site: string, cur: CursorState, ids: seq<ElementID>, i: nat)
    requires SessionValid(s, site) && Anchored(Meaning(s.received), cur.anchor) && i < |ids|
    requires SelectionPresent(Meaning(s.received), cur)
    requires forall x | x in ids :: x in Meaning(s.received).elements
    ensures Ready(PerformAll(s.(cursor := cur), site, RemoveEach(ids)[..i]), RemoveEach(ids)[i])
  {
    var s0 := s.(cursor := cur);
    assert SessionValid(s0, site);
    hide SessionValid;
    hide Meaning;
    hide Anchored;
    RemoveEachPrefix(ids, i);
    assert forall x | x in ids[..i] :: x in ids;
    Removals(s0, site, ids[..i]);
    hide PerformAll;
    hide Ready;
    hide Cleared;
    var r := PerformAll(s0, site, RemoveEach(ids[..i]));
    ValidIsFunctional(r, site);
    BuriedMeaning(r.received, ids[i]);
    ValidIsReady(r, site, Remove(ids[i]));
  }

  lemma RemoveEachPrefix(ids: seq<ElementID>, i: nat)
    requires i <= |ids|
    ensures RemoveEach(ids)[..i] == RemoveEach(ids[..i])
  {
  }

  // ----- Comparing texts -----

  ghost function TextsOf(ops: set<Operation>): set<string>
  {
    set op | op in ops :: SerializeOperation(op)
  }

  ghost predicate AllOfSite(ops: set<Operation>, site: string)
  {
    forall op | op in ops :: OfSite(op, site)
  }

  // A received text is a duplicate exactly when its operation is one.
  lemma DuplicateByText(ops: set<Operation>, op: Operation, site: string)
    requires AllOfSite(ops + {op}, site)
    ensures SerializeOperation(op) in TextsOf(ops) <==> op in ops
    ensures TextsOf(ops + {op}) == TextsOf(ops) + {SerializeOperation(op)}
  {
    hide OfSite;
    hide SerializeOperation;
    var text := SerializeOperation(op);
    assert op in ops + {op};
    if text in TextsOf(ops) {
      var o :| o in ops && SerializeOperation(o) == text;
      SessionTextsAreInjective(op, o, site);
    }
    forall x ensures x in TextsOf(ops + {op}) <==> x in TextsOf(ops) || x == text {
      if x in TextsOf(ops) {
        var o :| o in ops && SerializeOperation(o) == x;
        assert o in ops + {op};
      }
    }
  }

  // What the reader returns is fit for every session.
  lemma ReadIsOfSite(m: Message, site: string)
    requires Sendable(m)
    ensures AllOfSite(Carried(m), site)
  {
  }

  // A session only issues operations its texts can tell apart.
  lemma OwnIsOfSite(s: Session, site: string, op: Operation)
    requires SessionValid(s, site) && OwnOperation(s, site, op) && AllOfSite(s.received, site)
    ensures OfSite(op, site)
  {
    AnchoredIsPresent(Meaning(s.received), s.cursor.anchor);
    if op.Insert? && op.parent != ROOT_ID {
      PresentIsOld(s, site, op.parent);
    }
  }

  // ----- Whole runs -----

  datatype SessionStep = Commanded(cmd: Command) | Shared | Received(m: Message)

  // A refused command changes nothing; sharing the cursor only queues a message.
  ghost function StepTo(s: Session, site: string, step: SessionStep): Session
  {
    match step
    case Commanded(cmd) =>
      (match HandleCommand(s, site, cmd)
       case Ok(r) => r
       case Throws(_) => s)
    case Shared => s.(outgoing := s.outgoing + [CursorUpdate(site, s.cursor.anchor)])
    case Received(m) => Receive(s, site, m)
  }

  ghost function RunSteps(s: Session, site: string, steps: seq<SessionStep>): Session
  {
    if steps == [] then s else StepTo(RunSteps(s, site, steps[..|steps| - 1]), site, steps[|steps| - 1])
  }

  // The last position received from each client.
  ghost function LatestOf(steps: seq<SessionStep>): map<string, ElementID>
  {
    if steps == [] then map[]
    else
      var before, last := LatestOf(steps[..|steps| - 1]), steps[|steps| - 1];
      if last.Received? then LatestAfter(before, last.m) else before
  }

  // Whatever a session types, shares and receives, a waiting update is always its client's newest
  // one, every other client's cursor is shown, and an update that stops waiting is shown at its
  // client's newest position; so settling never goes back in time.
  lemma {:induction false} NewestUpdateWins(site: string, steps: seq<SessionStep>)
    ensures TracksLatest(RunSteps(FreshSession, site, steps), LatestOf(steps))
    ensures steps != [] ==>
              PromotedNewest(RunSteps(FreshSession, site, steps[..|steps| - 1]), RunSteps(FreshSession, site, steps),
                LatestOf(steps))
  {
    if steps != [] {
      var before, last := steps[..|steps| - 1], steps[|steps| - 1];
      NewestUpdateWins(site, before);
      StepTracks(RunSteps(FreshSession, site, before), site, last, LatestOf(before));
    }
  }

  lemma StepTracks(s: Session, site: string, step: SessionStep, latest: map<string, ElementID>)
    requires TracksLatest(s, latest)
    ensures var after := if step.Received? then LatestAfter(latest, step.m) else latest;
            TracksLatest(StepTo(s, site, step), after) && PromotedNewest(s, StepTo(s, site, step), after)
  {
    hide Meaning;
    hide Shape;
    hide Receive;
    hide Process;
    hide PerformAll;
    hide CursorPosition;
    match step {
      case Commanded(cmd) =>
        var effect := Process(Meaning(s.received), s.cursor, s.clock, site, cmd);
        if effect.Ok? {
          PerformAllTracks(s.(cursor := effect.value.cursor, clock := effect.value.clock), site, effect.value.ops,
            latest);
        }
      case Shared =>
      case Received(m) => ReceiveTracks(s, site, m, latest);
    }
  }

  lemma {:induction false} PerformAllTracks(
    s: Session, site: string, ops: seq<Operation>, latest: map<string, ElementID>)
    requires TracksLatest(s, latest)
    ensures TracksLatest(PerformAll(s, site, ops), latest) && PerformAll(s, site, ops).pending == s.pending
  {
    hide Absorb;
    if ops != [] {
      PerformAllTracks(s, site, ops[..|ops| - 1], latest);
      var r := PerformAll(s, site, ops[..|ops| - 1]);
      AbsorbTracks(r, ops[|ops| - 1], true, latest);
      AbsorbFrame(r, ops[|ops| - 1], true);
    }
  }
}
