// What moving with and without shift selects, and what deleting a selection takes away, also
// when its fixed end is no longer visible.
module Selections {
  import opened Wrappers
  import opened ElementIds
  import opened Operations
  import opened Trees
  import opened Preorder
  import opened Places
  import opened VisibleText
  import opened Messages
  import opened Editing
  import opened SessionFacts
  import opened Commands

  // ----- Selecting by moving -----

  predicate IsMove(cmd: Command)
  {
    !Types(cmd) && !cmd.Backspace? && !cmd.DeleteForward?
  }

  predicate IsPlainMove(cmd: Command)
  {
    cmd.MoveLeft? || cmd.MoveRight? || cmd.MoveUp? || cmd.MoveDown?
  }

  predicate IsDeletion(cmd: Command)
  {
    cmd.Backspace? || cmd.DeleteForward?
  }

  lemma Kinds(cmd: Command)
    ensures IsPlainMove(cmd) ==> IsMove(cmd)
    ensures IsPlainMove(MoveLeft) && IsDeletion(Backspace)
  {
  }

  // Where the fixed end of a selection is, or would be put.
  ghost function FixedEnd(cur: CursorState): ElementID
  {
    if cur.HasSelection() then cur.selection.value else cur.anchor
  }

  lemma MoveCommand(s: Session, site: string, move: Command)
    requires SessionValid(s, site) && IsMove(move)
    ensures HandleCommand(s, site, move).Ok?
    ensures var r := HandleCommand(s, site, move).value;
            && SessionValid(r, site) && r.received == s.received && (Quiet(s) ==> Quiet(r))
            && r.cursor.selection == if IsPlainMove(move) then None else Some(FixedEnd(s.cursor))
  {
    var t := Meaning(s.received);
    ValidIsFunctional(s, site);
    Movement(t, s.cursor, s.clock, site, move);
    CommandKeeps(s, site, move);
    MovesKeepSelection(t, s.cursor.(selection := None), move);
    MovesKeepSelection(t, StartSelection(s.cursor), move);
    hide SessionValid;
    hide Quiet;
    hide Shape;
    hide Meaning;
    hide Moved;
    hide CursorPosition;
    hide Anchored;
  }

  // Deleting right after a move with shift takes away exactly the text between the fixed end,
  // which stays where the selection was begun, and the place the move led to.
  lemma ShiftMoveSelects(s: Session, site: string, move: Command, deletion: Command)
    requires SessionValid(s, site) && IsMove(move) && !IsPlainMove(move) && IsDeletion(deletion)
    requires Anchored(Meaning(s.received), FixedEnd(s.cursor))
    ensures HandleCommand(s, site, move).Ok?
    ensures var r := HandleCommand(s, site, move).value;
            var t := Meaning(s.received);
            var a, c := Gap(t, r.cursor.anchor), Gap(t, FixedEnd(s.cursor));
            var from, to := Least(a, c), if a < c then c else a;
            && from <= to <= |Visible(t)| && (r.cursor.HasSelection() <==> from < to)
            && (from < to ==>
                  HandleCommand(r, site, deletion).Ok?
                  && Visible(Meaning(HandleCommand(r, site, deletion).value.received)) ==
                     Visible(t)[..from] + Visible(t)[to..])
  {
    var t := Meaning(s.received);
    MoveCommand(s, site, move);
    var r := HandleCommand(s, site, move).value;
    ValidIsFunctional(r, site);
    hide SessionValid;
    hide Meaning;
    hide HandleCommand;
    hide Shape;
    hide Gap;
    hide Visible;
    hide Anchored;
    AnchoredIsPresent(t, FixedEnd(s.cursor));
    AnchoredIsPresent(t, r.cursor.anchor);
    GapOfElement(t, FixedEnd(s.cursor));
    GapOfElement(t, r.cursor.anchor);
    if r.cursor.HasSelection() {
      SelectionIsDeleted(r, site, deletion);
    }
  }

  // After a plain move nothing is selected: deleting takes away the one character next to the place
  // the move led to.
  lemma PlainMoveDeselects(s: Session, site: string, move: Command)
    requires SessionValid(s, site) && IsPlainMove(move)
    ensures HandleCommand(s, site, move).Ok?
    ensures var r := HandleCommand(s, site, move).value;
            var t := Meaning(s.received);
            var g := Gap(t, r.cursor.anchor);
            && !r.cursor.HasSelection() && g <= |Visible(t)|
            && HandleCommand(r, site, Backspace).Ok? && HandleCommand(r, site, DeleteForward).Ok?
            && Visible(Meaning(HandleCommand(r, site, Backspace).value.received)) ==
               (if g == 0 then Visible(t) else Visible(t)[..g - 1] + Visible(t)[g..])
            && Visible(Meaning(HandleCommand(r, site, DeleteForward).value.received)) ==
               (if g == |Visible(t)| then Visible(t) else Visible(t)[..g] + Visible(t)[g + 1..])
  {
    hide *;
    Kinds(move);
    MoveCommand(s, site, move);
    var r := HandleCommand(s, site, move).value;
    NothingSelected(r.cursor);
    BackspaceRemovesBefore(r, site);
    DeleteForwardRemovesAfter(r, site);
    RememberSees(PerformAll(r.(cursor := r.cursor.(anchor := VisiblePredecessor(Meaning(r.received), r.cursor.anchor))),
                            site, [Remove(r.cursor.anchor)]));
  }

  lemma NothingSelected(cur: CursorState)
    ensures cur.selection.None? ==> !cur.HasSelection()
  {
  }

  lemma RememberSees(s: Session)
    ensures Remember(s).received == s.received
  {
  }

  // ----- A fixed end that is no longer visible -----

  // The visible place of the fixed end, and the text between it and the cursor.
  ghost function EndGap(t: Tree, cur: CursorState): nat
    requires cur.HasSelection()
  {
    match Resolved(t, cur.selection.value)
    case Some(end) => Gap(t, end)
    case None => 0
  }

  ghost function SpanFrom(t: Tree, cur: CursorState): nat
    requires cur.HasSelection()
  {
    Least(Gap(t, cur.anchor), EndGap(t, cur))
  }

  ghost function SpanTo(t: Tree, cur: CursorState): nat
    requires cur.HasSelection()
  {
    if Gap(t, cur.anchor) < EndGap(t, cur) then EndGap(t, cur) else Gap(t, cur.anchor)
  }

  // The fixed end is still visible, or stands for the end of the document.
  ghost predicate EndInPlace(t: Tree, cur: CursorState)
    requires cur.HasSelection()
  {
    Anchored(t, cur.selection.value) || EndGap(t, cur) == |Visible(t)|
  }

  lemma SpanInText(t: Tree, cur: CursorState)
    requires Shape(t) && cur.HasSelection() && Anchored(t, cur.anchor) && SelectionPresent(t, cur)
    ensures SpanFrom(t, cur) <= SpanTo(t, cur) <= |Visible(t)|
    ensures Gap(t, cur.anchor) <= |Visible(t)| && EndGap(t, cur) <= |Visible(t)|
  {
    AnchoredIsPresent(t, cur.anchor);
    ResolvedIsAnchored(t, cur.selection.value);
    hide Shape;
    hide Gap;
    hide Resolved;
    hide Visible;
    GapOfElement(t, cur.anchor);
    GapOfElement(t, Resolved(t, cur.selection.value).value);
  }

  // Running to the end instead of to r is right only if r is the end.
  lemma RunsToEnd<T>(v: seq<T>, g: nat, r: nat)
    requires g <= |v| && r <= |v| && NoDuplicates(v)
    ensures var from, to := Least(g, r), if g < r then r else g;
            && (v[g..] == v[from..to] <==> r == |v|)
            && (v[..g] == v[..from] + v[to..] <==> r == |v|)
  {
    var from, to := Least(g, r), if g < r then r else g;
    if r == |v| {
      assert v[..g] + v[|v|..] == v[..g];
    } else if r < g < |v| {
      assert v[g..][0] == v[g] != v[r] == v[from..to][0];
      assert v[..g][r] == v[r] && (v[..r] + v[g..])[r] == v[g];
    } else {
      assert |v[from..to]| == to - from && |v[..from] + v[to..]| == from + |v| - to;
    }
  }

  lemma StaleRange(t: Tree, cur: CursorState)
    requires Shape(t) && cur.HasSelection() && Anchored(t, cur.anchor) && !Anchored(t, cur.selection.value)
    ensures Gap(t, cur.anchor) <= |Visible(t)|
    ensures DeletedIds(t, cur) == Visible(t)[Gap(t, cur.anchor)..]
  {
    hide Shape;
    hide Gap;
    hide VisiblePredecessor;
    VisibleMembers(t, cur.selection.value);
    VisibleMembers(t, cur.anchor);
    RangeToMissingEnd(t, cur.anchor, cur.selection.value);
  }

  lemma InPlaceRange(t: Tree, cur: CursorState)
    requires Shape(t) && cur.HasSelection() && Anchored(t, cur.anchor) && Anchored(t, cur.selection.value)
    ensures SpanFrom(t, cur) < SpanTo(t, cur) <= |Visible(t)|
    ensures DeletedIds(t, cur) == Visible(t)[SpanFrom(t, cur)..SpanTo(t, cur)]
    ensures EndGap(t, cur) == Gap(t, cur.selection.value)
  {
    AnchoredIsPresent(t, cur.selection.value);
    SelectionInOrder(t, cur);
    hide Shape;
    hide NormalizedRange;
    hide VisibleRange;
    hide Visible;
    hide Gap;
    hide VisiblePredecessor;
    var (start, end) := NormalizedRange(t, cur).value;
    RangeBetweenAnchors(t, start, end);
  }

  // The elements a deletion removes are those between the cursor and the place of the fixed end
  // exactly when that end is in place.
  lemma DeletedSpan(t: Tree, cur: CursorState)
    requires Shape(t) && cur.HasSelection() && Anchored(t, cur.anchor) && SelectionPresent(t, cur)
    ensures SpanFrom(t, cur) <= SpanTo(t, cur) <= |Visible(t)|
    ensures DeletedIds(t, cur) == Visible(t)[SpanFrom(t, cur)..SpanTo(t, cur)] <==> EndInPlace(t, cur)
  {
    SpanInText(t, cur);
    VisibleMembers(t, cur.anchor);
    hide Shape;
    hide DeletedIds;
    hide Visible;
    hide Gap;
    hide EndGap;
    hide Anchored;
    if Anchored(t, cur.selection.value) {
      InPlaceRange(t, cur);
    } else {
      StaleRange(t, cur);
      RunsToEnd(Visible(t), Gap(t, cur.anchor), EndGap(t, cur));
    }
  }

  // A deletion with a stale end empties the document from the cursor on.
  lemma StaleDeletion(s: Session, site: string, cmd: Command)
    requires SessionValid(s, site) && IsDeletion(cmd)
    requires s.cursor.HasSelection() && !Anchored(Meaning(s.received), s.cursor.selection.value)
    ensures var t, g := Meaning(s.received), Gap(Meaning(s.received), s.cursor.anchor);
            && g <= |Visible(t)|
            && HandleCommand(s, site, cmd).Ok?
            && var r := HandleCommand(s, site, cmd).value;
               && Visible(Meaning(r.received)) == Visible(t)[..g]
               && r.cursor.anchor == s.cursor.anchor && r.cursor.selection == None
  {
    var t := Meaning(s.received);
    ValidIsFunctional(s, site);
    StaleEffect(t, s.cursor, s.clock);
    DeletionCommand(s, site, cmd);
    hide *;
    StalePerformed(s, site, s.cursor.(selection := None));
    assert s.(cursor := s.cursor.(selection := None), clock := s.clock) == s.(cursor := s.cursor.(selection := None));
  }

  lemma StalePerformed(s: Session, site: string, cur: CursorState)
    requires SessionValid(s, site) && cur.selection.None? && cur.anchor == s.cursor.anchor
    requires Gap(Meaning(s.received), cur.anchor) <= |Visible(Meaning(s.received))|
    ensures var t, g := Meaning(s.received), Gap(Meaning(s.received), cur.anchor);
            var r := Remember(PerformAll(s.(cursor := cur), site, RemoveEach(Visible(t)[g..])));
            && Visible(Meaning(r.received)) == Visible(t)[..g]
            && r.cursor.anchor == cur.anchor && r.cursor.selection == None
  {
    hide *;
    var t, g := Meaning(s.received), Gap(Meaning(s.received), cur.anchor);
    ValidIsFunctional(s, site);
    AnchoredIsPresent(t, cur.anchor);
    GapOfElement(t, cur.anchor);
    NoneSelected(t, cur);
    if g < |Visible(t)| {
      SliceIsRemoved(s, site, cur, g, |Visible(t)|);
      assert Visible(t)[g..|Visible(t)|] == Visible(t)[g..];
      assert Visible(t)[..g] + Visible(t)[|Visible(t)|..] == Visible(t)[..g];
    } else {
      NothingPerformed(s.(cursor := cur), site);
      assert Visible(t)[..g] == Visible(t) && Visible(t)[g..] == [];
    }
  }

  lemma NoneSelected(t: Tree, cur: CursorState)
    ensures cur.selection.None? ==> SelectionPresent(t, cur)
  {
  }

  lemma NothingPerformed(s: Session, site: string)
    ensures var r := Remember(PerformAll(s, site, RemoveEach([])));
            r.received == s.received && r.cursor.anchor == s.cursor.anchor && r.cursor.selection == s.cursor.selection
  {
    hide Meaning;
    hide CursorPosition;
  }

  lemma StaleEffect(t: Tree, cur: CursorState, clock: nat)
    requires Shape(t) && cur.HasSelection() && Anchored(t, cur.anchor) && !Anchored(t, cur.selection.value)
    ensures Gap(t, cur.anchor) <= |Visible(t)|
    ensures DeleteSelection(t, cur, clock) ==
            Effect(cur.(selection := None), clock, RemoveEach(Visible(t)[Gap(t, cur.anchor)..]))
  {
    hide Shape;
    hide Gap;
    hide VisiblePredecessor;
    AnchoredIsPresent(t, cur.anchor);
    GapOfElement(t, cur.anchor);
    VisibleMembers(t, cur.selection.value);
    VisibleMembers(t, cur.anchor);
    RangeToMissingEnd(t, cur.anchor, cur.selection.value);
    if Gap(t, cur.anchor) < |Visible(t)| {
      FirstSelected(t, Gap(t, cur.anchor));
    }
  }

  // Deleting a selection takes away exactly the text between the cursor and the place of its fixed
  // end if and only if that end is still visible or stands for the end of the document; otherwise
  // everything from the cursor on is lost.
  lemma SelectionDeletionIsExact(s: Session, site: string, cmd: Command)
    requires SessionValid(s, site) && IsDeletion(cmd) && s.cursor.HasSelection()
    ensures HandleCommand(s, site, cmd).Ok?
    ensures var t := Meaning(s.received);
            var u := Meaning(HandleCommand(s, site, cmd).value.received);
            var from, to := SpanFrom(t, s.cursor), SpanTo(t, s.cursor);
            && from <= to <= |Visible(t)| && Gap(t, s.cursor.anchor) <= |Visible(t)|
            && (Visible(u) == Visible(t)[..from] + Visible(t)[to..] <==> EndInPlace(t, s.cursor))
            && (!EndInPlace(t, s.cursor) ==> Visible(u) == Visible(t)[..Gap(t, s.cursor.anchor)])
  {
    var t := Meaning(s.received);
    ValidIsFunctional(s, site);
    SpanInText(t, s.cursor);
    VisibleMembers(t, s.cursor.anchor);
    if Anchored(t, s.cursor.selection.value) {
      InPlaceRange(t, s.cursor);
      hide *;
      InPlaceIsDeleted(s, site, cmd);
      InPlaceHolds(t, s.cursor);
    } else {
      hide *;
      StaleDeletion(s, site, cmd);
      RunsToEnd(Visible(t), Gap(t, s.cursor.anchor), EndGap(t, s.cursor));
      StaleHolds(t, s.cursor);
    }
  }

  lemma InPlaceIsDeleted(s: Session, site: string, cmd: Command)
    requires SessionValid(s, site) && IsDeletion(cmd) && s.cursor.HasSelection()
    requires Anchored(Meaning(s.received), s.cursor.selection.value)
    requires EndGap(Meaning(s.received), s.cursor) == Gap(Meaning(s.received), s.cursor.selection.value)
    requires var t := Meaning(s.received); SpanFrom(t, s.cursor) < SpanTo(t, s.cursor) <= |Visible(t)|
    ensures var t := Meaning(s.received);
            && HandleCommand(s, site, cmd).Ok?
            && Visible(Meaning(HandleCommand(s, site, cmd).value.received)) ==
               Visible(t)[..SpanFrom(t, s.cursor)] + Visible(t)[SpanTo(t, s.cursor)..]
  {
    hide SessionValid;
    hide Meaning;
    hide HandleCommand;
    hide Shape;
    hide Gap;
    hide EndGap;
    hide Visible;
    hide Anchored;
    SelectionIsDeleted(s, site, cmd);
  }

  lemma InPlaceHolds(t: Tree, cur: CursorState)
    requires cur.HasSelection() && Anchored(t, cur.selection.value)
    ensures EndInPlace(t, cur)
  {
  }

  lemma StaleHolds(t: Tree, cur: CursorState)
    requires cur.HasSelection() && !Anchored(t, cur.selection.value)
    ensures EndInPlace(t, cur) <==> EndGap(t, cur) == |Visible(t)|
    ensures SpanFrom(t, cur) == Least(Gap(t, cur.anchor), EndGap(t, cur))
    ensures SpanTo(t, cur) == if Gap(t, cur.anchor) < EndGap(t, cur) then EndGap(t, cur) else Gap(t, cur.anchor)
  {
    hide Gap;
    hide EndGap;
    hide Visible;
  }

  // ----- A session in which it happens -----

  // The receipt of someone else's removal of an element away from the cursor.
  lemma RemovalReceived(s: Session, site: string, sender: string, x: ElementID)
    requires SessionValid(s, site) && Quiet(s) && x in Meaning(s.received).elements && s.cursor.anchor != x
    ensures var m := OperationMessage(sender, Remove(x));
            var r := Receive(s, site, m);
            && Trusted(s, site, m) && SessionValid(r, site) && Quiet(r)
            && r.cursor == s.cursor && Meaning(r.received) == Bury(Meaning(s.received), x)
  {
    hide SessionValid;
    hide Quiet;
    hide Meaning;
    hide Functional;
    hide Shape;
    hide Settle;
    var m := OperationMessage(sender, Remove(x));
    ValidIsFunctional(s, site);
    BuriedMeaning(s.received, x);
    PresentIssuedHere(s, site, x);
    assert Trusted(s, site, m);
    ReceiveKeeps(s, site, m);
    SettleFrame(AbsorbRemote(s, Remove(x)));
  }

  lemma ShiftLeftCommand(s: Session, site: string)
    requires SessionValid(s, site) && !s.cursor.HasSelection()
    ensures HandleCommand(s, site, ShiftLeft).Ok?
    ensures var r := HandleCommand(s, site, ShiftLeft).value;
            && SessionValid(r, site) && r.received == s.received && (Quiet(s) ==> Quiet(r))
            && r.cursor.selection == Some(s.cursor.anchor)
            && r.cursor.anchor == VisiblePredecessor(Meaning(s.received), s.cursor.anchor)
  {
    MoveCommand(s, site, ShiftLeft);
    hide SessionValid;
    hide Quiet;
    hide Meaning;
    hide VisiblePredecessor;
    hide CursorPosition;
  }

  // Take any session with nothing selected and the cursor inside the text. It selects the
  // character before the cursor, and another client's removal of that character arrives. The
  // selection is not given up: its fixed end is stale, and Backspace now deletes everything after
  // the cursor, none of which was ever selected.
  lemma StaleEndDeletesTheRest(s: Session, site: string, sender: string)
    requires SessionValid(s, site) && Quiet(s) && !s.cursor.HasSelection()
    requires var t := Meaning(s.received); 0 < Gap(t, s.cursor.anchor) < |Visible(t)|
    ensures var t, g := Meaning(s.received), Gap(Meaning(s.received), s.cursor.anchor);
            var m := OperationMessage(sender, Remove(s.cursor.anchor));
            && HandleCommand(s, site, ShiftLeft).Ok?
            && var s1 := HandleCommand(s, site, ShiftLeft).value;
               && Trusted(s1, site, m)
               && var s2 := Receive(s1, site, m);
                  && s2.cursor.HasSelection() && !EndInPlace(Meaning(s2.received), s2.cursor)
                  && Visible(Meaning(s2.received)) == Visible(t)[..g - 1] + Visible(t)[g..]
                  && HandleCommand(s2, site, Backspace).Ok?
                  && Visible(Meaning(HandleCommand(s2, site, Backspace).value.received)) == Visible(t)[..g - 1]
  {
    hide *;
    Kinds(Backspace);
    var t, x := Meaning(s.received), s.cursor.anchor;
    ValidIsFunctional(s, site);
    AnchoredIsPresent(t, x);
    BackspaceGap(t, x);
    BackspaceText(t, x);
    ShiftLeftCommand(s, site);
    var s1 := HandleCommand(s, site, ShiftLeft).value;
    RemovalReceived(s1, site, sender, x);
    var s2 := Receive(s1, site, OperationMessage(sender, Remove(x)));
    StaleAfterRemoval(t, s2.cursor, x, Gap(t, x));
    SelectionDeletionIsExact(s2, site, Backspace);
    assert Visible(Bury(t, x))[..Gap(t, x) - 1] == Visible(t)[..Gap(t, x) - 1];
  }

  lemma StaleAfterRemoval(t: Tree, cur: CursorState, x: ElementID, g: nat)
    requires Shape(t) && Shown(t, x) && 0 < g == Gap(t, x) < |Visible(t)|
    requires Visible(Bury(t, x)) == Visible(t)[..g - 1] + Visible(t)[g..]
    requires cur.selection == Some(x) && cur.anchor == AnchorAtGap(t, g - 1)
    ensures cur.HasSelection() && Gap(Bury(t, x), cur.anchor) == g - 1 && !EndInPlace(Bury(t, x), cur)
  {
    hide Shape;
    hide Gap;
    hide GapBefore;
    hide Visible;
    hide Bury;
    var u := Bury(t, x);
    BuryShape(t, x);
    BuryLookups(t, x);
    PlaceOfBuried(t, x);
    GapOfElement(t, x);
    AnchorsAreGaps(u, g - 1);
    PredecessorIsAnchored(u, x);
  }

  // A tombstone does not move the place before it.
  lemma PlaceOfBuried(t: Tree, x: ElementID)
    requires Shape(t) && x in t.elements
    ensures GapBefore(Bury(t, x), x) == GapBefore(t, x)
  {
    PlaceOf(t, x);
    TraversalIsDistinct(t);
    BuriedElementDisappears(t, x);
    hide Shape;
    hide Traversal;
    hide ShownSet;
    hide Bury;
    KeepAgrees(Traversal(t)[..At(t, x)], ShownSet(t), ShownSet(t) - {x});
  }

  // Such a session exists: a client that typed two characters and stepped back between them.
  lemma StaleEndHappens(site: string)
    ensures exists s ::
              && SessionValid(s, site) && Quiet(s) && !s.cursor.HasSelection() && Leads(FreshSession, site, s)
              && 0 < Gap(Meaning(s.received), s.cursor.anchor) < |Visible(Meaning(s.received))|
  {
    hide *;
    Kinds(MoveLeft);
    FreshSessionValid(site);
    FreshText();
    TypedCommand(FreshSession, site, 'a');
    var a := HandleCommand(FreshSession, site, InsertCharacter('a')).value;
    TypedCommand(a, site, 'b');
    var b := HandleCommand(a, site, InsertCharacter('b')).value;
    MoveCommand(b, site, MoveLeft);
    StepLeft(b, site);
    var s := HandleCommand(b, site, MoveLeft).value;
    NothingSelected(s.cursor);
    LeadsByCommands(site, a, b, s);
  }

  // The session after some commands.
  ghost predicate Leads(s: Session, site: string, r: Session)
  {
    exists cmds :: CommandsLead(s, site, cmds, r)
  }

  ghost predicate CommandsLead(s: Session, site: string, cmds: seq<Command>, r: Session)
    decreases |cmds|
  {
    if cmds == [] then s == r
    else HandleCommand(s, site, cmds[0]).Ok? && CommandsLead(HandleCommand(s, site, cmds[0]).value, site, cmds[1..], r)
  }

  lemma LeadsByCommands(site: string, a: Session, b: Session, r: Session)
    requires HandleCommand(FreshSession, site, InsertCharacter('a')) == Ok(a)
    requires HandleCommand(a, site, InsertCharacter('b')) == Ok(b) && HandleCommand(b, site, MoveLeft) == Ok(r)
    ensures Leads(FreshSession, site, r)
  {
    hide HandleCommand;
    var cmds := [InsertCharacter('a'), InsertCharacter('b'), MoveLeft];
    assert cmds[1..] == [InsertCharacter('b'), MoveLeft] && cmds[1..][1..] == [MoveLeft];
    assert [MoveLeft][1..] == [];
    assert CommandsLead(r, site, [], r);
    assert CommandsLead(b, site, [MoveLeft], r);
    assert CommandsLead(a, site, cmds[1..], r);
    assert CommandsLead(FreshSession, site, cmds, r);
  }

  lemma FreshText()
    ensures var t := Meaning(FreshSession.received);
            Visible(t) == [] && Gap(t, FreshSession.cursor.anchor) == 0 && !FreshSession.cursor.HasSelection()
  {
    hide Represents;
    hide Gap;
    var none: set<Operation> := {};
    assert Functional(none);
    EmptyMeaning(Meaning(none));
    hide Shape;
    var t := Meaning(none);
    GapOfElement(t, ROOT_ID);
    if Visible(t) != [] {
      VisibleMembers(t, Visible(t)[0]);
    }
  }

  lemma EmptyMeaning(t: Tree)
    requires Represents(t, {})
    ensures t.elements == map[ROOT_ID := Character('\0', false)]
  {
    RootTreeShape(false);
    assert Represents(RootTree(false), {});
    RepresentationIsUnique(t, RootTree(false), {});
  }

  lemma TypedCommand(s: Session, site: string, c: char)
    requires SessionValid(s, site) && Quiet(s) && c != '\0'
    ensures HandleCommand(s, site, InsertCharacter(c)).Ok?
    ensures var t, g := Meaning(s.received), Gap(Meaning(s.received), s.cursor.anchor);
            var r := HandleCommand(s, site, InsertCharacter(c)).value;
            && SessionValid(r, site) && Quiet(r) && r.cursor.selection == None
            && |Visible(Meaning(r.received))| == |Visible(t)| + 1
            && Gap(Meaning(r.received), r.cursor.anchor) == g + 1
  {
    hide SessionValid;
    hide Quiet;
    hide Meaning;
    hide Gap;
    hide Visible;
    hide Text;
    hide Shape;
    hide CursorPosition;
    hide PerformAll;
    hide CommandKept;
    CommandKeeps(s, site, InsertCharacter(c));
    KeptValid(s, HandleCommand(s, site, InsertCharacter(c)).value, site, CommandOps(s, site, InsertCharacter(c)));
    TypingStep(s, site, c);
    TypingLandsAtCursor(s, site, Insert(s.cursor.anchor, ElementID(s.clock + 1, site), c));
  }

  lemma KeptValid(s: Session, r: Session, site: string, ops: seq<Operation>)
    requires CommandKept(s, r, site, ops) && Quiet(s)
    ensures SessionValid(r, site) && Quiet(r)
  {
    hide SessionValid;
    hide Quiet;
  }

  lemma StepLeft(s: Session, site: string)
    requires SessionValid(s, site)
    ensures var r := HandleCommand(s, site, MoveLeft);
            var t, g := Meaning(s.received), Gap(Meaning(s.received), s.cursor.anchor);
            r.Ok? && Gap(t, r.value.cursor.anchor) == if g == 0 then 0 else g - 1
  {
    ValidIsFunctional(s, site);
    hide SessionValid;
    hide Shape;
    hide Meaning;
    hide Gap;
    hide Visible;
    hide CursorPosition;
    hide VisiblePredecessor;
    hide VisibleSuccessor;
    hide Anchored;
    SidewaysMoves(Meaning(s.received), s.cursor);
  }
}
