// What every step of a session keeps, and where typed and deleted text goes.
module SessionFacts {
  import opened Wrappers
  import opened ElementIds
  import opened Operations
  import opened Trees
  import opened Preorder
  import opened Growth
  import opened VisibleText
  import opened Messages
  import opened Editing

  // The clock bounds every insert received, applied or buffered.
  ghost predicate ClockBounds(ops: set<Operation>, clock: nat)
  {
    forall op | op in ops && op.Insert? :: op.id.lamport <= clock
  }

  // An identifier of this site has been issued by its clock.
  ghost predicate IssuedHere(id: ElementID, site: string, clock: nat)
  {
    id.siteId == site ==> id.lamport <= clock
  }

  ghost predicate AllIssuedHere(ops: set<Operation>, site: string, clock: nat)
  {
    forall op, x {:trigger x in Mentioned(op)} | op in ops && x in Mentioned(op) :: IssuedHere(x, site, clock)
  }

  // Every remote cursor is at a present element; no waiting cursor is.
  ghost predicate RemotesPresent(t: Tree, remote: map<string, ElementID>)
  {
    forall k | k in remote :: remote[k] in t.elements
  }

  ghost predicate NoneReady(t: Tree, pending: map<string, ElementID>)
  {
    forall k | k in pending :: pending[k] !in t.elements
  }

  ghost predicate PendingIssuedHere(pending: map<string, ElementID>, site: string, clock: nat)
  {
    forall k | k in pending :: IssuedHere(pending[k], site, clock)
  }

  // The fixed end of a selection, visible or not, is a present element.
  ghost predicate SelectionPresent(t: Tree, cur: CursorState)
  {
    cur.selection.Some? ==> cur.selection.value in t.elements
  }

  ghost predicate SessionValid(s: Session, site: string)
  {
    && Functional(s.received)
    && Anchored(Meaning(s.received), s.cursor.anchor)
    && SelectionPresent(Meaning(s.received), s.cursor)
    && ClockBounds(s.received, s.clock)
    && AllIssuedHere(s.received, site, s.clock)
    && RemotesPresent(Meaning(s.received), s.remote)
    && PendingIssuedHere(s.pending, site, s.clock)
  }

  ghost predicate Quiet(s: Session)
  {
    NoneReady(Meaning(s.received), s.pending)
  }

  lemma FreshSessionValid(site: string)
    ensures SessionValid(FreshSession, site) && Quiet(FreshSession)
  {
  }

  // ----- One more operation -----

  lemma OneMore(ops: set<Operation>, op: Operation)
    requires Functional(ops + {op})
    ensures Functional(ops)
    ensures Extends(Meaning(ops + {op}), Meaning(ops))
    ensures forall n | n in Meaning(ops).elements ::
              Meaning(ops + {op}).Deleted(n) <==> Meaning(ops).Deleted(n) || op == Remove(n)
  {
    var t, u := Meaning(ops), Meaning(ops + {op});
    MoreOperationsExtend(t, ops, u, ops + {op});
    forall n | n in t.elements ensures u.Deleted(n) <==> t.Deleted(n) || op == Remove(n) {
      assert t.Deleted(n) <==> Remove(n) in ops;
      assert u.Deleted(n) <==> Remove(n) in ops + {op};
    }
  }

  lemma PredecessorIsAnchored(t: Tree, n: ElementID)
    requires Shape(t) && n in t.elements
    ensures Anchored(t, VisiblePredecessor(t, n)) && VisiblePredecessor(t, n) in t.elements
    ensures Gap(t, VisiblePredecessor(t, n)) == GapBefore(t, n)
  {
    hide Shape;
    GapOfElement(t, n);
    AnchorsAreGaps(t, GapBefore(t, n));
    AnchoredIsPresent(t, VisiblePredecessor(t, n));
  }

  // The local anchor survives any operation of someone else, and any removal.
  lemma AnchorSurvives(ops: set<Operation>, cur: CursorState, op: Operation, local: bool)
    requires Functional(ops + {op}) && Anchored(Meaning(ops), cur.anchor) && (local ==> op.Remove?)
    ensures Anchored(Meaning(ops + {op}), CursorAfter(Meaning(ops + {op}), cur, op, local).anchor)
  {
    OneMore(ops, op);
    var t, u := Meaning(ops), Meaning(ops + {op});
    AnchoredIsPresent(t, cur.anchor);
    hide Shape;
    hide VisiblePredecessor;
    if op == Remove(cur.anchor) {
      PredecessorIsAnchored(u, cur.anchor);
    }
  }

  lemma SelectionSurvives(ops: set<Operation>, cur: CursorState, op: Operation, local: bool)
    requires Functional(ops + {op}) && SelectionPresent(Meaning(ops), cur)
    ensures SelectionPresent(Meaning(ops + {op}), CursorAfter(Meaning(ops + {op}), cur, op, local))
  {
    OneMore(ops, op);
    hide Shape;
    hide VisiblePredecessor;
  }

  lemma RemotesSurvive(ops: set<Operation>, remote: map<string, ElementID>, op: Operation)
    requires Functional(ops + {op}) && RemotesPresent(Meaning(ops), remote)
    ensures RemotesPresent(Meaning(ops + {op}), RemoteAfter(Meaning(ops + {op}), remote, op))
  {
    OneMore(ops, op);
    var t, u := Meaning(ops), Meaning(ops + {op});
    hide Shape;
    hide VisiblePredecessor;
    if op.Remove? && op.target in t.elements {
      PredecessorIsAnchored(u, op.target);
    }
  }

  // A cursor that leaves a removed element goes where it was drawn: to the visible element its old
  // anchor resolves to. Every other cursor stays.
  lemma RemovalKeepsPlace(
    ops: set<Operation>, cur: CursorState, remote: map<string, ElementID>, target: ElementID, local: bool)
    requires Functional(ops + {Remove(target)}) && target in Meaning(ops).elements
    ensures var u := Meaning(ops + {Remove(target)});
            && Resolved(u, cur.anchor) == Resolved(u, CursorAfter(u, cur, Remove(target), local).anchor)
            && (cur.anchor == target != ROOT_ID ==> CursorAfter(u, cur, Remove(target), local).anchor != target)
            && RemoteAfter(u, remote, Remove(target)).Keys == remote.Keys
            && forall k | k in remote ::
                 && Resolved(u, remote[k]) == Resolved(u, RemoteAfter(u, remote, Remove(target))[k])
                 && (target != ROOT_ID ==> RemoteAfter(u, remote, Remove(target))[k] != target)
  {
    hide *;
    OneMore(ops, Remove(target));
    var t, u := Meaning(ops), Meaning(ops + {Remove(target)});
    TargetStays(t, u, target);
    StepsBackInPlace(u, target);
    CursorsStepBack(u, cur, remote, target, local);
  }

  lemma TargetStays(t: Tree, u: Tree, target: ElementID)
    requires Extends(u, t) && target in t.elements
    ensures target in u.elements
  {
  }

  lemma StepsBackInPlace(u: Tree, target: ElementID)
    requires Shape(u) && u.Deleted(target)
    ensures Resolved(u, target) == Resolved(u, VisiblePredecessor(u, target))
    ensures target != ROOT_ID ==> VisiblePredecessor(u, target) != target
  {
    hide Shape;
    hide VisiblePredecessor;
    PredecessorIsAnchored(u, target);
    RootStepsNowhere(u);
  }

  lemma CursorsStepBack(u: Tree, cur: CursorState, remote: map<string, ElementID>, target: ElementID, local: bool)
    requires Resolved(u, target) == Resolved(u, VisiblePredecessor(u, target))
    requires target != ROOT_ID ==> VisiblePredecessor(u, target) != target
    ensures Resolved(u, cur.anchor) == Resolved(u, CursorAfter(u, cur, Remove(target), local).anchor)
    ensures cur.anchor == target != ROOT_ID ==> CursorAfter(u, cur, Remove(target), local).anchor != target
    ensures RemoteAfter(u, remote, Remove(target)).Keys == remote.Keys
    ensures forall k | k in remote ::
              && Resolved(u, remote[k]) == Resolved(u, RemoteAfter(u, remote, Remove(target))[k])
              && (target != ROOT_ID ==> RemoteAfter(u, remote, Remove(target))[k] != target)
  {
    hide Resolved;
    hide VisiblePredecessor;
  }

  lemma RootStepsNowhere(t: Tree)
    requires Shape(t)
    ensures VisiblePredecessor(t, ROOT_ID) == ROOT_ID
  {
    RootIsOwnParent(t);
    hide Shape;
    hide GapBefore;
    GapOfElement(t, ROOT_ID);
  }

  lemma BoundsExtend(ops: set<Operation>, op: Operation, site: string, clock: nat)
    requires ClockBounds(ops, clock) && AllIssuedHere(ops, site, clock)
    requires AllIssuedHere({op}, site, clock) && (op.Insert? ==> op.id.lamport <= clock)
    ensures ClockBounds(ops + {op}, clock) && AllIssuedHere(ops + {op}, site, clock)
  {
    assert op in {op};
  }

  lemma BoundsLater(s: Session, site: string, clock: nat)
    requires SessionValid(s, site) && s.clock <= clock
    ensures SessionValid(s.(clock := clock), site)
  {
    hide Functional;
    hide Anchored;
    hide RemotesPresent;
    hide Meaning;
  }

  lemma AbsorbKeeps(s: Session, site: string, op: Operation, local: bool)
    requires SessionValid(s, site) && Functional(s.received + {op})
    requires AllIssuedHere({op}, site, s.clock) && (op.Insert? ==> op.id.lamport <= s.clock)
    requires local ==> op.Remove?
    ensures SessionValid(Absorb(s, op, local), site)
    ensures Absorb(s, op, local).received == s.received + {op}
  {
    hide Functional;
    hide Anchored;
    hide SelectionPresent;
    hide RemotesPresent;
    hide ClockBounds;
    hide AllIssuedHere;
    hide PendingIssuedHere;
    hide Meaning;
    hide CursorAfter;
    hide RemoteAfter;
    if op in s.received {
      assert s.received + {op} == s.received;
    } else {
      AnchorSurvives(s.received, s.cursor, op, local);
      SelectionSurvives(s.received, s.cursor, op, local);
      RemotesSurvive(s.received, s.remote, op);
      BoundsExtend(s.received, op, site, s.clock);
    }
  }

  lemma AbsorbFrame(s: Session, op: Operation, local: bool)
    ensures Absorb(s, op, local).clock == s.clock && Absorb(s, op, local).pending == s.pending
    ensures Absorb(s, op, local).outgoing == s.outgoing
  {
    hide Meaning;
  }

  lemma AbsorbRemoteKeeps(s: Session, site: string, op: Operation)
    requires SessionValid(s, site) && Functional(s.received + {op}) && AllIssuedHere({op}, site, s.clock)
    ensures SessionValid(AbsorbRemote(s, op), site)
    ensures AbsorbRemote(s, op).received == s.received + {op} && s.clock <= AbsorbRemote(s, op).clock
    ensures AbsorbRemote(s, op).pending == s.pending
  {
    hide SessionValid;
    hide Functional;
    hide Absorb;
    var r := s.(clock := ClockAfter(s.clock, op));
    BoundsLater(s, site, r.clock);
    AbsorbFrame(r, op, false);
    assert AllIssuedHere({op}, site, r.clock);
    AbsorbKeeps(r, site, op, false);
  }

  lemma {:induction false} AbsorbHistoryKeeps(s: Session, site: string, history: seq<Operation>)
    requires SessionValid(s, site) && Functional(s.received + Elements(history))
    requires AllIssuedHere(Elements(history), site, s.clock)
    ensures SessionValid(AbsorbHistory(s, history), site)
    ensures AbsorbHistory(s, history).received == s.received + Elements(history)
    ensures s.clock <= AbsorbHistory(s, history).clock && AbsorbHistory(s, history).pending == s.pending
  {
    hide SessionValid;
    if history == [] {
      assert s.received + Elements(history) == s.received;
    } else {
      var init, op := history[..|history| - 1], history[|history| - 1];
      ElementsSplit(history);
      FewerOperations(s.received + Elements(init), s.received + Elements(history));
      AbsorbHistoryKeeps(s, site, init);
      assert s.received + Elements(init) + {op} == s.received + Elements(history);
      AbsorbRemoteKeeps(AbsorbHistory(s, init), site, op);
    }
  }

  lemma ElementsSplit<T>(xs: seq<T>)
    requires xs != []
    ensures Elements(xs) == Elements(xs[..|xs| - 1]) + {xs[|xs| - 1]}
  {
    assert xs == xs[..|xs| - 1] + [xs[|xs| - 1]];
  }

  lemma SettleKeeps(s: Session, site: string)
    requires SessionValid(s, site)
    ensures SessionValid(Settle(s), site) && Quiet(Settle(s))
  {
    var t := Meaning(s.received);
    hide Shape;
    hide Anchored;
    hide Functional;
    forall k | k in s.pending ensures Resolved(t, s.pending[k]).Some? <==> s.pending[k] in t.elements {
      ResolvedIsAnchored(t, s.pending[k]);
    }
    hide Resolved;
  }

  // ----- Typing -----

  ghost predicate Fresh(s: Session, site: string, op: Operation)
  {
    op.Insert? && op.parent == s.cursor.anchor && op.id == ElementID(s.clock + 1, site)
  }

  lemma FreshIsUnheard(s: Session, site: string, op: Operation)
    requires SessionValid(s, site) && Fresh(s, site, op)
    ensures Unheard(s.received, op.id) && op.id != ROOT_ID && Functional(s.received + {op}) && op !in s.received
  {
    hide Anchored;
    forall o | o in s.received ensures op.id !in Mentioned(o) {
      assert op.id in Mentioned(o) ==> IssuedHere(op.id, site, s.clock);
    }
    assert op.id in Mentioned(op);
    forall o | o in s.received && o.Insert? ensures o.id != op.id {
      assert o.id in Mentioned(o);
    }
  }

  // Every present element other than the root was issued at a clock value already seen.
  lemma PresentIsOld(s: Session, site: string, n: ElementID)
    requires SessionValid(s, site) && n in Meaning(s.received).elements
    ensures n.lamport <= s.clock
    ensures n != ROOT_ID ==> exists op :: op in s.received && op.Insert? && op.id == n
  {
    var t := Meaning(s.received);
    hide Anchored;
    if n != ROOT_ID {
      assert Insert(t.Parent(n), n, t.Char(n)) in s.received;
    }
  }

  // The typed operation's identifier exceeds its parent's and every sibling's.
  lemma FreshIsGreatest(s: Session, site: string, op: Operation)
    requires SessionValid(s, site) && Fresh(s, site, op)
    ensures op.parent in Meaning(s.received).elements && op.parent.lamport < op.id.lamport
    ensures forall x | x in Meaning(s.received).Kids(op.parent) :: Less(x, op.id)
  {
    var t := Meaning(s.received);
    AnchoredIsPresent(t, op.parent);
    PresentIsOld(s, site, op.parent);
    KidsPresent(t, op.parent);
    hide SessionValid;
    forall x | x in t.Kids(op.parent) ensures Less(x, op.id) {
      PresentIsOld(s, site, x);
    }
  }

  lemma FreshMeaning(s: Session, site: string, op: Operation)
    requires SessionValid(s, site) && Fresh(s, site, op)
    ensures op.parent in Meaning(s.received).children
    ensures Meaning(s.received + {op}) == AddLeaf(Meaning(s.received), op.parent, op.id, Character(op.ch, false))
    ensures Unheard(s.received, op.id) && op.id !in Meaning(s.received).elements
  {
    FreshIsUnheard(s, site, op);
    FreshIsGreatest(s, site, op);
    var t := Meaning(s.received);
    FreshInsertAddsLeaf(t, s.received, op);
    hide Represents;
    RepresentationIsUnique(AddLeaf(t, op.parent, op.id, Character(op.ch, false)), Meaning(s.received + {op}),
      s.received + {op});
  }

  // Typed text lands at the cursor: the visible text gains the character right after the
  // anchor, nothing else moves, and the cursor stands after the new character.
  lemma TypingLandsAtCursor(s: Session, site: string, op: Operation)
    requires SessionValid(s, site) && Fresh(s, site, op)
    ensures var t, u, g := Meaning(s.received), Meaning(s.received + {op}), Gap(Meaning(s.received), op.parent);
            && g <= |Visible(t)|
            && Visible(u) == Visible(t)[..g] + [op.id] + Visible(t)[g..]
            && Text(u) == Text(t)[..g] + [op.ch] + Text(t)[g..]
            && Anchored(u, op.id) && Gap(u, op.id) == g + 1
  {
    FreshMeaning(s, site, op);
    FreshIsGreatest(s, site, op);
    FreshIsUnheard(s, site, op);
    hide Represents;
    TypedCharacterLands(Meaning(s.received), op.parent, op.id, op.ch);
  }

  lemma FreshElements(s: Session, site: string, op: Operation)
    requires SessionValid(s, site) && Fresh(s, site, op)
    ensures Meaning(s.received + {op}).elements.Keys == Meaning(s.received).elements.Keys + {op.id}
  {
    FreshMeaning(s, site, op);
    var t := Meaning(s.received);
    AddLeafLookups(t, op.parent, op.id, Character(op.ch, false));
  }

  // The session after typing one character.
  ghost function AfterTyping(s: Session, site: string, c: char): Session
  {
    var effect := Typed(s.cursor, s.clock, site, c);
    PerformAll(s.(cursor := effect.cursor, clock := effect.clock), site, effect.ops)
  }

  lemma TypingStep(s: Session, site: string, c: char)
    requires SessionValid(s, site)
    ensures var op := Insert(s.cursor.anchor, ElementID(s.clock + 1, site), c);
            && Fresh(s, site, op)
            && AfterTyping(s, site, c) ==
               s.(received := s.received + {op}, clock := s.clock + 1,
                  cursor := s.cursor.(selection := None, anchor := op.id),
                  outgoing := s.outgoing + [OperationMessage(site, op)])
  {
    hide SessionValid;
    hide Meaning;
    hide Shape;
    hide Functional;
    hide Unheard;
    var op := Insert(s.cursor.anchor, ElementID(s.clock + 1, site), c);
    FreshIsUnheard(s, site, op);
    FreshIsGreatest(s, site, op);
    var effect := Typed(s.cursor, s.clock, site, c);
    var s0 := s.(cursor := effect.cursor, clock := effect.clock);
    assert effect.ops[..0] == [];
    assert PerformAll(s0, site, []) == s0;
    assert PerformAll(s0, site, effect.ops) == Perform(s0, site, op);
  }

  lemma TypingKeeps(s: Session, site: string, c: char)
    requires SessionValid(s, site)
    ensures SessionValid(AfterTyping(s, site, c), site)
    ensures Quiet(s) ==> Quiet(AfterTyping(s, site, c))
  {
    hide Anchored;
    hide Meaning;
    hide Functional;
    hide ClockBounds;
    hide AllIssuedHere;
    hide AfterTyping;
    hide Unheard;
    hide Visible;
    hide Text;
    hide Gap;
    TypingStep(s, site, c);
    var op := Insert(s.cursor.anchor, ElementID(s.clock + 1, site), c);
    FreshIsUnheard(s, site, op);
    TypingLandsAtCursor(s, site, op);
    FreshElements(s, site, op);
    TypingBounds(s, site, op);
    var t, u := Meaning(s.received), Meaning(s.received + {op});
    assert forall k | k in s.pending :: s.pending[k] != op.id;
    assert RemotesPresent(u, s.remote);
    assert Quiet(s) ==> NoneReady(u, s.pending);
  }

  lemma TypingBounds(s: Session, site: string, op: Operation)
    requires SessionValid(s, site) && Fresh(s, site, op)
    ensures ClockBounds(s.received + {op}, s.clock + 1) && AllIssuedHere(s.received + {op}, site, s.clock + 1)
  {
    FreshIsGreatest(s, site, op);
    BoundsLater(s, site, s.clock + 1);
    hide Meaning;
    hide Anchored;
    BoundsExtend(s.received, op, site, s.clock + 1);
  }

  // ----- Receiving -----

  // Operations and positions of an honest system: every identifier of this site was issued here.
  ghost predicate Trusted(s: Session, site: string, m: Message)
  {
    && Functional(s.received + Carried(m))
    && AllIssuedHere(Carried(m), site, s.clock)
    && (m.CursorUpdate? ==> IssuedHere(m.position, site, s.clock))
  }

  lemma ReceiveCursorKeeps(s: Session, site: string, sender: string, position: ElementID)
    requires SessionValid(s, site) && IssuedHere(position, site, s.clock)
    ensures SessionValid(ReceiveCursor(s, sender, position), site)
    ensures Quiet(s) ==> Quiet(ReceiveCursor(s, sender, position))
  {
    hide Functional;
    hide Anchored;
    ResolvedIsAnchored(Meaning(s.received), position);
    hide Resolved;
    hide Meaning;
  }

  // Every message keeps the session valid: the anchor survives, the clock bounds what came in,
  // every remote cursor is at a present element, and no waiting cursor is left that could be shown.
  lemma ReceiveKeeps(s: Session, site: string, m: Message)
    requires SessionValid(s, site) && Quiet(s) && Trusted(s, site, m)
    ensures SessionValid(Receive(s, site, m), site) && Quiet(Receive(s, site, m))
    ensures Receive(s, site, m).received == s.received + Carried(m) && s.clock <= Receive(s, site, m).clock
  {
    hide SessionValid;
    hide Settle;
    hide Quiet;
    match m {
      case OperationMessage(_, op) =>
        AbsorbRemoteKeeps(s, site, op);
        SettleKeeps(AbsorbRemote(s, op), site);
        SettleFrame(AbsorbRemote(s, op));
      case SyncResponse(_, history) =>
        assert Carried(m) == Elements(history);
        AbsorbHistoryKeeps(s, site, history);
        SettleKeeps(AbsorbHistory(s, history), site);
        SettleFrame(AbsorbHistory(s, history));
        OutgoingIsFree(Settle(AbsorbHistory(s, history)), site, Receive(s, site, m).outgoing);
      case CursorUpdate(sender, position) =>
        ReceiveCursorKeeps(s, site, sender, position);
        ReceiveCursorFrame(s, sender, position);
      case _ =>
        assert s.received + Carried(m) == s.received;
    }
  }

  // Nothing but the clock values it carries moves a session's clock.
  lemma ReceiveClockBound(s: Session, site: string, m: Message, bound: nat)
    requires s.clock < bound && forall op | op in Carried(m) && op.Insert? :: op.id.lamport < bound
    ensures Receive(s, site, m).clock < bound
  {
    hide Settle;
    hide Absorb;
    match m {
      case OperationMessage(_, op) =>
        assert op in Carried(m);
        AbsorbFrame(s.(clock := ClockAfter(s.clock, op)), op, false);
        SettleFrame(AbsorbRemote(s, op));
      case SyncResponse(_, history) =>
        assert forall op | op in history :: op in Carried(m);
        HistoryClockBound(s, history, bound);
        SettleFrame(AbsorbHistory(s, history));
      case CursorUpdate(sender, position) =>
        ReceiveCursorFrame(s, sender, position);
      case _ =>
    }
  }

  lemma {:induction false} HistoryClockBound(s: Session, history: seq<Operation>, bound: nat)
    requires s.clock < bound && forall op | op in history && op.Insert? :: op.id.lamport < bound
    ensures AbsorbHistory(s, history).clock < bound
  {
    hide Absorb;
    if history != [] {
      var init, op := history[..|history| - 1], history[|history| - 1];
      HistoryClockBound(s, init, bound);
      var r := AbsorbHistory(s, init);
      assert op in history;
      AbsorbFrame(r.(clock := ClockAfter(r.clock, op)), op, false);
    }
  }

  lemma RemoteFrame(s: Session, op: Operation)
    ensures AbsorbRemote(s, op).outgoing == s.outgoing
  {
    hide Meaning;
  }

  lemma {:induction false} HistoryFrame(s: Session, history: seq<Operation>)
    ensures AbsorbHistory(s, history).outgoing == s.outgoing
  {
    if history != [] {
      HistoryFrame(s, history[..|history| - 1]);
      RemoteFrame(AbsorbHistory(s, history[..|history| - 1]), history[|history| - 1]);
    }
  }

  lemma SettleFrame(s: Session)
    ensures Settle(s).received == s.received && Settle(s).clock == s.clock && Settle(s).outgoing == s.outgoing
    ensures Settle(s).cursor == s.cursor
  {
    hide Meaning;
    hide Resolved;
  }

  lemma ReceiveCursorFrame(s: Session, sender: string, position: ElementID)
    ensures var r := ReceiveCursor(s, sender, position);
            r.received == s.received && r.clock == s.clock && r.outgoing == s.outgoing && r.cursor == s.cursor
    ensures s.received + Carried(CursorUpdate(sender, position)) == s.received
  {
    hide Meaning;
    hide Resolved;
  }

  lemma OutgoingIsFree(s: Session, site: string, outgoing: seq<Message>)
    ensures SessionValid(s, site) ==> SessionValid(s.(outgoing := outgoing), site)
    ensures Quiet(s) ==> Quiet(s.(outgoing := outgoing))
  {
    hide Functional;
    hide Anchored;
    hide Meaning;
  }

  // ----- What a message leaves alone -----

  // An operation moves no cursor but those at an element it removes, and only the first time it comes.
  lemma AbsorbLeaves(s: Session, op: Operation)
    ensures var r := Absorb(s, op, false);
            && r == s.(received := s.received + {op}, cursor := s.cursor.(anchor := r.cursor.anchor),
               remote := r.remote)
            && r.remote.Keys == s.remote.Keys
            && (op in s.received || op != Remove(s.cursor.anchor) ==> r.cursor == s.cursor)
            && forall k | k in s.remote :: op in s.received || op != Remove(s.remote[k]) ==> r.remote[k] == s.remote[k]
  {
    hide Meaning;
    hide VisiblePredecessor;
    if op in s.received {
      assert s.received + {op} == s.received;
    }
  }

  // The operations a message brings for the first time.
  ghost function News(s: Session, m: Message): set<Operation>
  {
    Carried(m) - s.received
  }

  ghost predicate Leaves(s: Session, r: Session, news: set<Operation>)
  {
    && r.cursor == s.cursor.(anchor := r.cursor.anchor) && r.remote.Keys == s.remote.Keys && r.pending == s.pending
    && (Remove(s.cursor.anchor) !in news ==> r.cursor == s.cursor)
    && forall k | k in s.remote && Remove(s.remote[k]) !in news :: r.remote[k] == s.remote[k]
  }

  lemma RemoteLeaves(s: Session, op: Operation)
    ensures Leaves(s, AbsorbRemote(s, op), {op} - s.received)
    ensures AbsorbRemote(s, op).received == s.received + {op}
  {
    hide Absorb;
    AbsorbLeaves(s.(clock := ClockAfter(s.clock, op)), op);
  }

  lemma {:induction false} HistoryLeaves(s: Session, history: seq<Operation>)
    ensures Leaves(s, AbsorbHistory(s, history), Elements(history) - s.received)
  {
    hide AbsorbRemote;
    if history != [] {
      var init, op := history[..|history| - 1], history[|history| - 1];
      ElementsSplit(history);
      HistoryLeaves(s, init);
      HistoryIsReceived(s, init);
      RemoteLeaves(AbsorbHistory(s, init), op);
    }
  }

  // A message changes no selection and no desired column; it moves the local cursor only if it
  // brings the first removal of its anchor, and a remote cursor only if it brings the first removal
  // of that one's anchor, its client's own update, or what its waiting update waited for.
  lemma ReceiveLeaves(s: Session, site: string, m: Message)
    ensures var r := Receive(s, site, m);
            && r.cursor == s.cursor.(anchor := r.cursor.anchor)
            && (Remove(s.cursor.anchor) !in News(s, m) ==> r.cursor == s.cursor)
            && s.remote.Keys <= r.remote.Keys
            && forall k | k in s.remote && Remove(s.remote[k]) !in News(s, m) && !(m.CursorUpdate? && m.sender == k)
                          && !(k in s.pending && k !in r.pending) :: r.remote[k] == s.remote[k]
  {
    hide Meaning;
    hide Resolved;
    hide AbsorbRemote;
    match m {
      case OperationMessage(_, op) => RemoteLeaves(s, op);
      case SyncResponse(_, history) =>
        HistoryLeaves(s, history);
        assert Carried(m) == Elements(history);
      case _ =>
    }
    hide AbsorbHistory;
  }

  // ----- Starting again -----

  // A history is received completely, whatever the session is called.
  lemma {:induction false} HistoryIsReceived(s: Session, history: seq<Operation>)
    ensures AbsorbHistory(s, history).received == s.received + Elements(history)
  {
    hide Meaning;
    if history == [] {
      assert s.received + Elements(history) == s.received;
    } else {
      ElementsSplit(history);
      HistoryIsReceived(s, history[..|history| - 1]);
    }
  }

  // Loading a history takes the clock to every insert in it.
  lemma {:induction false} HistoryAdvancesClock(s: Session, history: seq<Operation>)
    ensures s.clock <= AbsorbHistory(s, history).clock
    ensures ClockBounds(Elements(history), AbsorbHistory(s, history).clock)
  {
    hide Absorb;
    if history != [] {
      var init, op := history[..|history| - 1], history[|history| - 1];
      ElementsSplit(history);
      HistoryAdvancesClock(s, init);
      var r := AbsorbHistory(s, init);
      AbsorbFrame(r.(clock := ClockAfter(r.clock, op)), op, false);
    }
  }

  // A name no identifier of the history carries: one longer than all of them.
  lemma {:induction false} UnusedName(ops: set<Operation>) returns (name: string)
    ensures forall op, x {:trigger x in Mentioned(op)} | op in ops && x in Mentioned(op) :: |x.siteId| < |name|
  {
    if ops == {} {
      name := "";
    } else {
      var op :| op in ops;
      var rest := UnusedName(ops - {op});
      var named := match op case Insert(parent, id, _) => parent.siteId
        + id.siteId case Remove(target) => target.siteId;
      name := rest + named + ".";
      forall o, x {:trigger x in Mentioned(o)} | o in ops && x in Mentioned(o) ensures |x.siteId| < |name| {
        assert o == op || o in ops - {op};
      }
    }
  }

  // A fresh session that loads a document is sound exactly when every identifier of its own name
  // in the history is one its clock has now reached, whoever used that name before.
  lemma RestartIsExact(site: string, server: string, history: seq<Operation>)
    requires Functional(Elements(history))
    ensures var s := Receive(FreshSession, site, SyncResponse(server, history));
            && s.received == Elements(history) && Quiet(s)
            && (SessionValid(s, site) <==> AllIssuedHere(Elements(history), site, s.clock))
  {
    hide Functional;
    hide Quiet;
    hide SessionValid;
    hide Settle;
    hide Absorb;
    var other := UnusedName(Elements(history));
    var m := SyncResponse(server, history);
    assert FreshSession.received + Elements(history) == Elements(history) == Carried(m);
    assert AllIssuedHere(Elements(history), other, 0);
    FreshSessionValid(other);
    ReceiveKeeps(FreshSession, other, m);
    AbsorbHistoryKeeps(FreshSession, other, history);
    var s := AbsorbHistory(FreshSession, history);
    NothingToSettle(s);
    OutgoingIsFree(Receive(FreshSession, other, m), other, Receive(FreshSession, site, m).outgoing);
    OtherName(Receive(FreshSession, site, m), site, other);
  }

  lemma NothingToSettle(s: Session)
    requires s.pending == map[]
    ensures Settle(s).pending == map[]
  {
    hide Meaning;
    hide Resolved;
  }

  // All that ties a session to its name are the identifiers that carry it.
  lemma OtherName(s: Session, site: string, other: string)
    requires SessionValid(s, other) && s.pending == map[]
    ensures SessionValid(s, site) <==> AllIssuedHere(s.received, site, s.clock)
  {
    hide Functional;
    hide Meaning;
    hide Anchored;
    hide AllIssuedHere;
  }

  // Every identifier the operations name is the root's or one they insert.
  ghost predicate Rooted(ops: set<Operation>)
  {
    forall op, x {:trigger x in Mentioned(op)} | op in ops && x in Mentioned(op) ::
      x == ROOT_ID || x in InsertedIds(ops)
  }

  // A name can be used again: a fresh session under any name that loads a document is sound, and
  // what it issues next is an identifier no operation of the document names.
  lemma RestartIsSound(site: string, server: string, history: seq<Operation>)
    requires Functional(Elements(history)) && Rooted(Elements(history))
    ensures var s := Receive(FreshSession, site, SyncResponse(server, history));
            && s.received == Elements(history) && SessionValid(s, site) && Quiet(s)
            && Unheard(s.received, ElementID(s.clock + 1, site))
  {
    hide Functional;
    RestartIsExact(site, server, history);
    HistoryAdvancesClock(FreshSession, history);
    SettleFrame(AbsorbHistory(FreshSession, history));
    var s := Receive(FreshSession, site, SyncResponse(server, history));
    hide Settle;
    hide AbsorbHistory;
    hide Meaning;
    hide SessionValid;
    hide Quiet;
    forall op, x {:trigger x in Mentioned(op)} | op in Elements(history) && x in Mentioned(op)
      ensures IssuedHere(x, site, s.clock) && x != ElementID(s.clock + 1, site)
    {
      if x != ROOT_ID {
        var o :| o in Elements(history) && o.Insert? && o.id == x;
      }
    }
  }

  // ----- The newest cursor update wins -----

  // latest holds the last position received from each client. A waiting update is the newest, and
  // so is the position a client is shown at, unless its element has been removed since.
  ghost predicate TracksLatest(s: Session, latest: map<string, ElementID>)
  {
    && (forall k | k in s.pending :: k in latest && s.pending[k] == latest[k])
    && (forall k | k in latest && k !in s.pending :: k in s.remote)
    && (forall k | k in s.remote :: k in latest)
    && (forall k | k in latest && k !in s.pending && Remove(latest[k]) !in s.received :: s.remote[k] == latest[k])
  }

  ghost function LatestAfter(latest: map<string, ElementID>, m: Message): map<string, ElementID>
  {
    match m
    case CursorUpdate(sender, position) => latest[sender := position]
    case _ => latest
  }

  // Updates that stop waiting between two states become remote cursors at their client's newest
  // position.
  ghost predicate PromotedNewest(s: Session, r: Session, latest: map<string, ElementID>)
  {
    forall k | k in s.pending && k !in r.pending :: k in latest && k in r.remote && r.remote[k] == latest[k]
  }

  // A received update is shown at once if its anchor is here, in place of whatever was shown of its
  // client before, and waits otherwise; no other cursor is touched.
  lemma CursorUpdateIsShown(s: Session, site: string, k: string, p: ElementID)
    ensures var r := Receive(s, site, CursorUpdate(k, p));
            && r == s.(remote := r.remote, pending := r.pending)
            && if p in Meaning(s.received).elements then r.remote == s.remote[k := p] && r.pending == s.pending - {k}
               else r.remote == s.remote && r.pending == s.pending[k := p]
  {
    ResolvedIsAnchored(Meaning(s.received), p);
    hide Meaning;
    hide Resolved;
    hide Shape;
  }

  lemma ReceiveTracks(s: Session, site: string, m: Message, latest: map<string, ElementID>)
    requires TracksLatest(s, latest)
    ensures TracksLatest(Receive(s, site, m), LatestAfter(latest, m))
    ensures PromotedNewest(s, Receive(s, site, m), LatestAfter(latest, m))
  {
    hide Settle;
    hide Absorb;
    hide ReceiveCursor;
    match m {
      case OperationMessage(_, op) =>
        var advanced := s.(clock := ClockAfter(s.clock, op));
        AbsorbTracks(advanced, op, false, latest);
        AbsorbFrame(advanced, op, false);
        SettleTracks(AbsorbRemote(s, op), latest);
      case SyncResponse(_, history) =>
        AbsorbHistoryTracks(s, history, latest);
        SettleTracks(AbsorbHistory(s, history), latest);
      case CursorUpdate(sender, position) =>
        CursorTracks(s, site, sender, position, latest);
      case _ =>
    }
    hide AbsorbHistory;
  }

  lemma CursorTracks(s: Session, site: string, k: string, p: ElementID, latest: map<string, ElementID>)
    requires TracksLatest(s, latest)
    ensures TracksLatest(Receive(s, site, CursorUpdate(k, p)), latest[k := p])
    ensures PromotedNewest(s, Receive(s, site, CursorUpdate(k, p)), latest[k := p])
  {
    hide Receive;
    hide Meaning;
    CursorUpdateIsShown(s, site, k, p);
  }

  lemma AbsorbTracks(s: Session, op: Operation, local: bool, latest: map<string, ElementID>)
    requires TracksLatest(s, latest)
    ensures TracksLatest(Absorb(s, op, local), latest)
  {
    hide Meaning;
    hide VisiblePredecessor;
  }

  lemma {:induction false} AbsorbHistoryTracks(s: Session, history: seq<Operation>, latest: map<string, ElementID>)
    requires TracksLatest(s, latest)
    ensures TracksLatest(AbsorbHistory(s, history), latest) && AbsorbHistory(s, history).pending == s.pending
  {
    hide Meaning;
    if history != [] {
      var init, op := history[..|history| - 1], history[|history| - 1];
      AbsorbHistoryTracks(s, init, latest);
      var r := AbsorbHistory(s, init);
      AbsorbTracks(r.(clock := ClockAfter(r.clock, op)), op, false, latest);
      AbsorbFrame(r.(clock := ClockAfter(r.clock, op)), op, false);
    }
  }

  lemma SettleTracks(s: Session, latest: map<string, ElementID>)
    requires TracksLatest(s, latest)
    ensures TracksLatest(Settle(s), latest)
    ensures forall k | k in s.pending && k !in Settle(s).pending :: Settle(s).remote[k] == latest[k]
  {
    hide Meaning;
    hide Resolved;
  }
}
