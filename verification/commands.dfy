// Commands: movement, deletion, and what a whole command keeps.
module Commands {
  import opened Wrappers
  import opened ElementIds
  import opened Operations
  import opened Trees
  import opened Preorder
  import opened Growth
  import opened Lines
  import opened VisibleText
  import opened Messages
  import opened Editing
  import opened SessionFacts

  // ----- Movement -----

  lemma MovesStayAnchored(t: Tree, cur: CursorState, cmd: Command)
    requires Shape(t) && Anchored(t, cur.anchor)
    ensures Anchored(t, Moved(t, cur, cmd).anchor)
  {
    hide Shape;
    hide Anchored;
    hide VisiblePredecessor;
    hide VisibleSuccessor;
    hide CursorPosition;
    hide AnchorOfPosition;
    hide ToLine;
    hide Gap;
    hide Visible;
    StepsMoveOneGap(t, cur.anchor);
    AnchoredAtStep(t, cur.anchor);
    var line := CursorPosition(t, cur.anchor).0;
    LineMoveIsAnchored(t, cur, line + 1);
    if line > 0 {
      LineMoveIsAnchored(t, cur, line - 1);
    }
  }

  lemma MovesKeepSelection(t: Tree, cur: CursorState, cmd: Command)
    ensures Moved(t, cur, cmd).selection == cur.selection
  {
    hide VisiblePredecessor;
    hide VisibleSuccessor;
    hide CursorPosition;
    hide AnchorOfPosition;
    hide LinesOf;
    hide Text;
  }

  // A sideways move crosses exactly one visible character, and stops at the ends.
  lemma SidewaysMoves(t: Tree, cur: CursorState)
    requires Shape(t) && Anchored(t, cur.anchor)
    ensures var g := Gap(t, cur.anchor);
            && g <= |Visible(t)|
            && Gap(t, Moved(t, cur, MoveLeft).anchor) == (if g == 0 then 0 else g - 1)
            && Gap(t, Moved(t, cur, MoveRight).anchor) == (if g == |Visible(t)| then g else g + 1)
  {
    AnchoredIsPresent(t, cur.anchor);
    hide Shape;
    hide Gap;
    hide Visible;
    hide VisiblePredecessor;
    hide VisibleSuccessor;
    GapOfElement(t, cur.anchor);
    StepsMoveOneGap(t, cur.anchor);
    if Gap(t, cur.anchor) == 0 && cur.anchor != ROOT_ID {
      GapZeroIsRoot(t, cur.anchor);
    }
  }

  lemma GapZeroIsRoot(t: Tree, n: ElementID)
    requires Shape(t) && Anchored(t, n) && Gap(t, n) == 0
    ensures n == ROOT_ID
  {
    AnchoredIsPresent(t, n);
    hide Shape;
    hide Gap;
    GapOfElement(t, n);
  }

  lemma AnchoredAtStep(t: Tree, n: ElementID)
    requires Shape(t) && Anchored(t, n)
    ensures VisibleSuccessor(t, n).Some? ==> Anchored(t, VisibleSuccessor(t, n).value)
  {
    hide Shape;
    hide VisibleSuccessor;
    StepsMoveOneGap(t, n);
  }

  lemma LineMoveIsAnchored(t: Tree, cur: CursorState, line: nat)
    requires Shape(t) && Anchored(t, cur.anchor)
    ensures Anchored(t, ToLine(t, cur, line).anchor)
  {
    hide Shape;
    hide Anchored;
    hide AnchorOfPosition;
    hide CursorPosition;
    var ls := LinesOf(Text(t));
    if line < |ls| {
      var wanted := if cur.desiredColumn.Some? then cur.desiredColumn.value else CursorPosition(t, cur.anchor).1;
      PositionsAreAnchors(t, cur.anchor, line, Least(wanted, |ls[line]|));
    }
  }

  // A vertical move lands on the asked line at the desired column, or at the line's end; the
  // desired column is remembered, and is the cursor's own when there was none.
  lemma LineMoveLands(t: Tree, cur: CursorState, line: nat)
    requires Shape(t) && line < |LinesOf(Text(t))|
    ensures var moved := ToLine(t, cur, line);
            var wanted := if cur.desiredColumn.Some? then cur.desiredColumn.value else CursorPosition(t, cur.anchor).1;
            && moved.desiredColumn == Some(wanted) && moved.selection == cur.selection
            && Anchored(t, moved.anchor)
            && CursorPosition(t, moved.anchor) == (line, Least(wanted, |LinesOf(Text(t))[line]|))
  {
    hide Shape;
    hide Anchored;
    hide AnchorOfPosition;
    hide CursorPosition;
    var wanted := if cur.desiredColumn.Some? then cur.desiredColumn.value else CursorPosition(t, cur.anchor).1;
    PositionsAreAnchors(t, cur.anchor, line, Least(wanted, |LinesOf(Text(t))[line]|));
    assert InGrid(LinesOf(Text(t)), line, Least(wanted, |LinesOf(Text(t))[line]|));
  }

  // The column a vertical move aims at.
  ghost function Wanted(t: Tree, cur: CursorState): nat
  {
    if cur.desiredColumn.Some? then cur.desiredColumn.value else CursorPosition(t, cur.anchor).1
  }

  // Coming back to the line of an anchor with some desired column.
  lemma BackOnLine(t: Tree, n: ElementID, away: CursorState)
    requires Shape(t) && Anchored(t, n)
    ensures var (home, column) := CursorPosition(t, n);
            && home < |LinesOf(Text(t))| && column <= |LinesOf(Text(t))[home]|
            && (ToLine(t, away, home).anchor == n <==> Least(Wanted(t, away), |LinesOf(Text(t))[home]|) == column)
  {
    hide Shape;
    hide Anchored;
    hide AnchorOfPosition;
    hide CursorPosition;
    hide ToLine;
    var (home, column) := CursorPosition(t, n);
    PositionsAreAnchors(t, n, home, column);
    LineMoveLands(t, away, home);
    PositionsAreAnchors(t, ToLine(t, away, home).anchor, home, column);
  }

  // Where a vertical command leads from this line.
  ghost function LineAfter(line: nat, up: bool): int
  {
    if up then line - 1 else line + 1
  }

  function Vertical(up: bool, shift: bool): Command
  {
    if shift then (if up then ShiftUp else ShiftDown) else if up then MoveUp else MoveDown
  }

  // The cursor a vertical command starts from and leaves behind; with shift the session overwrites
  // the desired column by the cursor's own.
  ghost function Departing(cur: CursorState, shift: bool): CursorState
  {
    if shift then StartSelection(cur) else cur.(selection := None)
  }

  ghost function Arriving(t: Tree, cur: CursorState, line: nat, shift: bool): CursorState
  {
    var moved := ToLine(t, Departing(cur, shift), line);
    if shift then moved.(desiredColumn := Some(CursorPosition(t, moved.anchor).1)) else moved
  }

  lemma VerticalCommand(s: Session, site: string, up: bool, shift: bool)
    requires 0 <= LineAfter(CursorPosition(Meaning(s.received), s.cursor.anchor).0, up)
    ensures var t := Meaning(s.received);
            HandleCommand(s, site, Vertical(up, shift)) ==
            Ok(s.(cursor := Arriving(t, s.cursor, LineAfter(CursorPosition(t, s.cursor.anchor).0, up), shift)))
  {
    hide Shape;
    hide Meaning;
    hide ToLine;
    hide CursorPosition;
    VerticalEffect(Meaning(s.received), s.cursor, s.clock, site, up, shift);
    hide Process;
    hide Departing;
    assert s.(clock := s.clock) == s;
  }

  lemma VerticalEffect(t: Tree, cur: CursorState, clock: nat, site: string, up: bool, shift: bool)
    requires 0 <= LineAfter(CursorPosition(t, cur.anchor).0, up)
    ensures Process(t, cur, clock, site, Vertical(up, shift)) ==
            Ok(Effect(ToLine(t, Departing(cur, shift), LineAfter(CursorPosition(t, cur.anchor).0, up)), clock, []))
  {
    hide ToLine;
    hide CursorPosition;
  }

  lemma ThereAndBack(t: Tree, cur: CursorState, other: nat, shift: bool)
    requires Shape(t) && Anchored(t, cur.anchor) && other < |LinesOf(Text(t))|
    ensures var ls := LinesOf(Text(t));
            var (home, column) := CursorPosition(t, cur.anchor);
            var away := Arriving(t, cur, other, shift);
            && home < |ls| && column <= |ls[home]| && Anchored(t, away.anchor)
               && CursorPosition(t, away.anchor).0 == other
            && (Arriving(t, away, home, shift).anchor == cur.anchor <==>
                  Least(if shift then Least(Wanted(t, cur), |ls[other]|) else Wanted(t, cur), |ls[home]|) == column)
  {
    hide Shape;
    hide ToLine;
    hide CursorPosition;
    hide LinesOf;
    hide Text;
    hide Anchored;
    LineMoveLands(t, Departing(cur, shift), other);
    BackOnLine(t, cur.anchor, Departing(Arriving(t, cur, other, shift), shift));
  }

  lemma TwoVerticals(s: Session, site: string, up: bool, shift: bool)
    requires var t := Meaning(s.received);
             var home := CursorPosition(t, s.cursor.anchor).0;
             0 <= LineAfter(home, up)
             && CursorPosition(t, Arriving(t, s.cursor, LineAfter(home, up), shift).anchor).0 == LineAfter(home, up)
    ensures var t := Meaning(s.received);
            var home := CursorPosition(t, s.cursor.anchor).0;
            var away := Arriving(t, s.cursor, LineAfter(home, up), shift);
            && HandleCommand(s, site, Vertical(up, shift)) == Ok(s.(cursor := away))
            && HandleCommand(s.(cursor := away), site, Vertical(!up, shift)) ==
               Ok(s.(cursor := Arriving(t, away, home, shift)))
  {
    hide Shape;
    hide Meaning;
    hide CursorPosition;
    hide Arriving;
    hide HandleCommand;
    var t := Meaning(s.received);
    var away := Arriving(t, s.cursor, LineAfter(CursorPosition(t, s.cursor.anchor).0, up), shift);
    VerticalCommand(s, site, up, shift);
    VerticalCommand(s.(cursor := away), site, !up, shift);
  }

  // Going up or down a line and back returns to the same place exactly when the column aimed at,
  // cut to the lines passed, is the column left. With shift the cut made by the other line is
  // kept, because the session then remembers the shorter column; so a cursor that aims at its own
  // column always returns without shift, and with shift exactly when the other line is long enough.
  lemma LineMovesReturn(s: Session, site: string, up: bool, shift: bool)
    requires SessionValid(s, site)
    requires var t := Meaning(s.received);
             0 <= LineAfter(CursorPosition(t, s.cursor.anchor).0, up) < |LinesOf(Text(t))|
    ensures var t := Meaning(s.received);
            var ls := LinesOf(Text(t));
            var (home, column) := CursorPosition(t, s.cursor.anchor);
            var other := LineAfter(home, up);
            var away := HandleCommand(s, site, Vertical(up, shift));
            && home < |ls| && column <= |ls[home]| && away.Ok?
            && var back := HandleCommand(away.value, site, Vertical(!up, shift));
               && back.Ok?
               && (back.value.cursor.anchor == s.cursor.anchor <==>
                     var reached := if shift then Least(Wanted(t, s.cursor), |ls[other]|) else Wanted(t, s.cursor);
                     Least(reached, |ls[home]|) == column)
               && (Wanted(t, s.cursor) == column ==>
                     (back.value.cursor.anchor == s.cursor.anchor <==> !shift || column <= |ls[other]|))
  {
    ValidIsFunctional(s, site);
    var t := Meaning(s.received);
    var other := LineAfter(CursorPosition(t, s.cursor.anchor).0, up);
    hide *;
    ThereAndBack(t, s.cursor, other, shift);
    TwoVerticals(s, site, up, shift);
    CutTwice(Wanted(t, s.cursor), |LinesOf(Text(t))[other]|, |LinesOf(Text(t))[CursorPosition(t, s.cursor.anchor).0]|);
  }

  lemma CutTwice(wanted: nat, other: nat, home: nat)
    ensures wanted <= home ==> Least(wanted, home) == wanted
    ensures wanted <= home ==> (Least(Least(wanted, other), home) == wanted <==> wanted <= other)
  {
  }

  // ----- Removals -----

  lemma BuriedMeaning(ops: set<Operation>, x: ElementID)
    requires Functional(ops)
    ensures Functional(ops + {Remove(x)})
    ensures Meaning(ops + {Remove(x)}) == Bury(Meaning(ops), x)
  {
    assert Functional(ops + {Remove(x)});
    BuryRepresents(Meaning(ops), ops, x);
    hide Represents;
    RepresentationIsUnique(Meaning(ops + {Remove(x)}), Bury(Meaning(ops), x), ops + {Remove(x)});
  }

  function Sent(site: string, ops: seq<Operation>): seq<Message>
  {
    if ops == [] then [] else Sent(site, ops[..|ops| - 1]) + [OperationMessage(site, ops[|ops| - 1])]
  }

  lemma {:induction false} PerformAllReceives(s: Session, site: string, ops: seq<Operation>)
    ensures PerformAll(s, site, ops).received == s.received + Elements(ops)
    ensures PerformAll(s, site, ops).outgoing == s.outgoing + Sent(site, ops)
    ensures PerformAll(s, site, ops).clock == s.clock && PerformAll(s, site, ops).pending == s.pending
  {
    hide Meaning;
    if ops == [] {
      assert s.received + Elements(ops) == s.received;
    } else {
      PerformAllReceives(s, site, ops[..|ops| - 1]);
      ElementsSplit(ops);
      var op := ops[|ops| - 1];
      var r := PerformAll(s, site, ops[..|ops| - 1]);
      assert Absorb(r, op, true).received == r.received + {op};
    }
  }

  // What a run of removals does to the document.
  ghost predicate Cleared(t: Tree, u: Tree, ids: seq<ElementID>)
  {
    && Shape(u) && u.elements.Keys == t.elements.Keys
    && ShownSet(u) == ShownSet(t) - Elements(ids)
    && Visible(u) == Keep(Visible(t), ShownSet(t) - Elements(ids))
  }

  lemma ClearedByNone(t: Tree)
    requires Shape(t)
    ensures Cleared(t, t, [])
  {
    hide Shape;
    assert ShownSet(t) - Elements<ElementID>([]) == ShownSet(t);
    KeepTwice(Traversal(t), ShownSet(t), ShownSet(t));
  }

  lemma ClearedByOneMore(t: Tree, u: Tree, ids: seq<ElementID>, x: ElementID)
    requires Cleared(t, u, ids)
    ensures Cleared(t, Bury(u, x), ids + [x])
  {
    BuryShape(u, x);
    hide Shape;
    hide Visible;
    hide ShownSet;
    assert Bury(u, x).elements.Keys == u.elements.Keys;
    BuriedElementDisappears(u, x);
    assert Elements(ids + [x]) == Elements(ids) + {x};
    assert ShownSet(t) - Elements(ids) - {x} == ShownSet(t) - Elements(ids + [x]);
    KeepTwice(Visible(t), ShownSet(t) - Elements(ids), ShownSet(t) - Elements(ids + [x]));
  }

  lemma {:induction false} Removals(s: Session, site: string, ids: seq<ElementID>)
    requires SessionValid(s, site) && forall x | x in ids :: x in Meaning(s.received).elements
    ensures var r := PerformAll(s, site, RemoveEach(ids));
            && SessionValid(r, site)
            && Cleared(Meaning(s.received), Meaning(r.received), ids)
            && (s.cursor.anchor !in ids ==> r.cursor == s.cursor)
  {
    hide SessionValid;
    hide Meaning;
    hide Cleared;
    hide Perform;
    hide Shape;
    var t := Meaning(s.received);
    if ids == [] {
      ClearedByNone(t);
    } else {
      var init, x := ids[..|ids| - 1], ids[|ids| - 1];
      assert ids == init + [x];
      assert forall y | y in init :: y in ids;
      assert x in ids;
      Removals(s, site, init);
      var r := PerformAll(s, site, RemoveEach(init));
      assert RemoveEach(ids)[..|ids| - 1] == RemoveEach(init);
      PerformAllReceives(s, site, RemoveEach(init));
      LastRemoval(s, site, r, t, init, x);
      PerformedLast(r, site, x);
    }
  }

  lemma PerformedLast(r: Session, site: string, x: ElementID)
    ensures Perform(r, site, Remove(x)).received == r.received + {Remove(x)}
    ensures r.cursor.anchor != x ==> Perform(r, site, Remove(x)).cursor == r.cursor
  {
    hide Meaning;
    hide VisiblePredecessor;
    if Remove(x) in r.received {
      assert r.received + {Remove(x)} == r.received;
    }
  }

  lemma LastRemoval(s: Session, site: string, r: Session, t: Tree, init: seq<ElementID>, x: ElementID)
    requires SessionValid(s, site) && SessionValid(r, site) && Cleared(t, Meaning(r.received), init)
    requires x in t.elements && t == Meaning(s.received) && r.clock == s.clock
    ensures SessionValid(Perform(r, site, Remove(x)), site)
    ensures Cleared(t, Meaning(r.received + {Remove(x)}), init + [x])
  {
    hide Cleared;
    hide SessionValid;
    hide Meaning;
    ValidIsFunctional(r, site);
    BuriedMeaning(r.received, x);
    ClearedByOneMore(t, Meaning(r.received), init, x);
    PresentIssuedHere(s, site, x);
    RemovalKeeps(r, site, x);
  }

  lemma ValidIsFunctional(s: Session, site: string)
    requires SessionValid(s, site)
    ensures Functional(s.received) && Anchored(Meaning(s.received), s.cursor.anchor)
    ensures SelectionPresent(Meaning(s.received), s.cursor)
  {
  }

  lemma RemovalKeeps(r: Session, site: string, x: ElementID)
    requires SessionValid(r, site) && IssuedHere(x, site, r.clock) && Functional(r.received + {Remove(x)})
    ensures SessionValid(Perform(r, site, Remove(x)), site)
  {
    hide SessionValid;
    hide Absorb;
    assert AllIssuedHere({Remove(x)}, site, r.clock);
    AbsorbKeeps(r, site, Remove(x), true);
    QueueKeeps(Absorb(r, Remove(x), true), site, OperationMessage(site, Remove(x)));
  }

  lemma QueueKeeps(s: Session, site: string, m: Message)
    requires SessionValid(s, site)
    ensures SessionValid(s.(outgoing := s.outgoing + [m]), site)
  {
    hide Functional;
    hide Anchored;
    hide Meaning;
  }

  lemma PresentIssuedHere(s: Session, site: string, x: ElementID)
    requires SessionValid(s, site) && x in Meaning(s.received).elements
    ensures IssuedHere(x, site, s.clock)
  {
    hide Anchored;
    PresentIsOld(s, site, x);
  }

  // ----- Deleting a selection -----

  lemma AnchorFromGap(t: Tree, n: ElementID, m: ElementID)
    requires Shape(t) && Anchored(t, n) && Anchored(t, m) && Gap(t, n) == Gap(t, m)
    ensures n == m
  {
    AnchoredIsPresent(t, n);
    AnchoredIsPresent(t, m);
    hide Shape;
    hide Gap;
    GapOfElement(t, n);
    GapOfElement(t, m);
  }

  // The range of a selection runs from its earlier end to its later end.
  lemma SelectionInOrder(t: Tree, cur: CursorState)
    requires Shape(t) && cur.HasSelection() && Anchored(t, cur.anchor) && Anchored(t, cur.selection.value)
    ensures Gap(t, cur.anchor) != Gap(t, cur.selection.value)
    ensures NormalizedRange(t, cur) ==
            Some(if Gap(t, cur.selection.value) < Gap(t, cur.anchor) then (cur.selection.value, cur.anchor)
                 else (cur.anchor, cur.selection.value))
  {
    var a, c := cur.selection.value, cur.anchor;
    RootIsOwnParent(t);
    hide Shape;
    hide Gap;
    if Gap(t, a) == Gap(t, c) {
      AnchorFromGap(t, a, c);
    }
    GapOfElement(t, ROOT_ID);
    if a != ROOT_ID {
      IndexIsGap(t, a);
    }
    if c != ROOT_ID {
      IndexIsGap(t, c);
    }
  }

  lemma KeepWithoutSlice<T>(xs: seq<T>, s: set<T>, i: nat, j: nat)
    requires NoDuplicates(xs) && i <= j <= |xs| && forall x | x in xs :: x in s
    ensures Keep(xs, s - Elements(xs[i..j])) == xs[..i] + xs[j..]
  {
    hide Keep;
    var gone := Elements(xs[i..j]);
    assert xs == xs[..i] + xs[i..j] + xs[j..];
    KeepConcat(xs[..i] + xs[i..j], xs[j..], s - gone);
    KeepConcat(xs[..i], xs[i..j], s - gone);
    forall x | x in xs[..i] ensures x in s - gone {
      assert x in xs;
    }
    forall x | x in xs[j..] ensures x in s - gone {
      assert x in xs;
    }
    KeepAll(xs[..i], s - gone);
    KeepAll(xs[j..], s - gone);
    KeepNothing(xs[i..j], s - gone);
  }

  lemma {:induction false} KeepNothing<T>(xs: seq<T>, s: set<T>)
    requires forall x | x in xs :: x !in s
    ensures Keep(xs, s) == []
  {
    if xs != [] {
      assert xs[0] in xs;
      assert forall x | x in xs[1..] :: x in xs;
      KeepNothing(xs[1..], s);
    }
  }

  // Before the removals: the selected elements, and the cursor already on the earlier end.
  lemma SelectionEffect(t: Tree, cur: CursorState, clock: nat)
    requires Shape(t) && cur.HasSelection() && Anchored(t, cur.anchor) && Anchored(t, cur.selection.value)
    ensures var a, c := Gap(t, cur.anchor), Gap(t, cur.selection.value);
            var from, to := Least(a, c), if a < c then c else a;
            && from < to <= |Visible(t)|
            && DeleteSelection(t, cur, clock) ==
               Effect(cur.(selection := None, anchor := AnchorAtGap(t, from)), clock, RemoveEach(Visible(t)[from..to]))
  {
    SelectionInOrder(t, cur);
    hide Shape;
    hide NormalizedRange;
    hide Gap;
    hide Anchored;
    var sel := cur.selection.value;
    var (start, end) := NormalizedRange(t, cur).value;
    RangeBetweenAnchors(t, start, end);
    GapOfVisible(t, Gap(t, start));
    FirstSelected(t, Gap(t, start));
  }

  lemma FirstSelected(t: Tree, g: nat)
    requires Shape(t) && g < |Visible(t)|
    ensures VisiblePredecessor(t, Visible(t)[g]) == AnchorAtGap(t, g)
  {
    GapOfVisible(t, g);
    AnchoredIsPresent(t, Visible(t)[g]);
    hide Shape;
    hide Gap;
    GapOfElement(t, Visible(t)[g]);
  }

  // Deleting a selection with both ends in place removes exactly the text between them,
  // whichever end the cursor is at, and leaves the cursor on the earlier end.
  lemma SelectionIsDeleted(s: Session, site: string, cmd: Command)
    requires SessionValid(s, site) && (cmd.Backspace? || cmd.DeleteForward?)
    requires s.cursor.HasSelection() && Anchored(Meaning(s.received), s.cursor.selection.value)
    ensures var t := Meaning(s.received);
            var a, c := Gap(t, s.cursor.anchor), Gap(t, s.cursor.selection.value);
            var from, to := Least(a, c), if a < c then c else a;
            && from < to <= |Visible(t)|
            && HandleCommand(s, site, cmd).Ok?
            && var r := HandleCommand(s, site, cmd).value;
               && Visible(Meaning(r.received)) == Visible(t)[..from] + Visible(t)[to..]
               && r.cursor.anchor == AnchorAtGap(t, from) && r.cursor.selection == None
  {
    var t := Meaning(s.received);
    ValidIsFunctional(s, site);
    hide SessionValid;
    hide Anchored;
    SelectionEffect(t, s.cursor, s.clock);
    hide DeleteSelection;
    hide Remember;
    hide PerformAll;
    var a, c := Gap(t, s.cursor.anchor), Gap(t, s.cursor.selection.value);
    var from, to := Least(a, c), if a < c then c else a;
    DeletionCommand(s, site, cmd);
    hide *;
    SliceIsRemoved(s, site, s.cursor.(selection := None, anchor := AnchorAtGap(t, from)), from, to);
  }

  lemma DeletionCommand(s: Session, site: string, cmd: Command)
    requires s.cursor.HasSelection() && (cmd.Backspace? || cmd.DeleteForward?)
    ensures var effect := DeleteSelection(Meaning(s.received), s.cursor, s.clock);
            HandleCommand(s, site, cmd) ==
            Ok(Remember(PerformAll(s.(cursor := effect.cursor, clock := effect.clock), site, effect.ops)))
  {
    hide Meaning;
    hide DeleteSelection;
    hide PerformAll;
    hide Remember;
  }

  // Removing a slice of the text from a cursor at its start leaves the cursor there.
  lemma SliceIsRemoved(s: Session, site: string, cur: CursorState, from: nat, to: nat)
    requires SessionValid(s, site) && from < to <= |Visible(Meaning(s.received))|
    requires cur.anchor == AnchorAtGap(Meaning(s.received), from) && SelectionPresent(Meaning(s.received), cur)
    ensures var t := Meaning(s.received);
            var r := Remember(PerformAll(s.(cursor := cur), site, RemoveEach(Visible(t)[from..to])));
            && Visible(Meaning(r.received)) == Visible(t)[..from] + Visible(t)[to..]
            && r.cursor.anchor == cur.anchor && r.cursor.selection == cur.selection
  {
    var t := Meaning(s.received);
    hide SessionValid;
    SliceIsAhead(t, from, to);
    CursorElsewhere(s, site, cur);
    Removals(s.(cursor := cur), site, Visible(t)[from..to]);
    hide PerformAll;
    hide CursorPosition;
    hide AnchorAtGap;
    VisibleMembers(t, ROOT_ID);
    forall x | x in Visible(t) ensures x in ShownSet(t) {
      VisibleMembers(t, x);
    }
    KeepWithoutSlice(Visible(t), ShownSet(t), from, to);
  }

  lemma SliceIsAhead(t: Tree, from: nat, to: nat)
    requires Shape(t) && from < to <= |Visible(t)|
    ensures Anchored(t, AnchorAtGap(t, from)) && AnchorAtGap(t, from) !in Visible(t)[from..to]
    ensures forall x | x in Visible(t)[from..to] :: x in t.elements
  {
    hide Shape;
    AnchorsAreGaps(t, from);
    hide Gap;
    forall x | x in Visible(t)[from..to] ensures x in t.elements && x != AnchorAtGap(t, from) {
      var i :| 0 <= i < to - from && Visible(t)[from..to][i] == x;
      GapOfVisible(t, from + i);
    }
  }

  // ----- Whole commands -----

  ghost function CommandOps(s: Session, site: string, cmd: Command): seq<Operation>
  {
    match Process(Meaning(s.received), s.cursor, s.clock, site, cmd)
    case Throws(_) => []
    case Ok(effect) => effect.ops
  }

  // A command issues at most one insert, with the next identifier under the anchor, and
  // removals of present elements.
  ghost predicate OwnOperation(s: Session, site: string, op: Operation)
  {
    if op.Insert? then Fresh(s, site, op) else op.target in Meaning(s.received).elements
  }

  // What a session may rely on after a command.
  ghost predicate CommandKept(s: Session, r: Session, site: string, ops: seq<Operation>)
  {
    && SessionValid(r, site)
    && (Quiet(s) ==> Quiet(r))
    && r.received == s.received + Elements(ops)
    && r.outgoing == s.outgoing + Sent(site, ops)
    && s.clock <= r.clock <= s.clock + 1
    && (forall op | op in ops :: OwnOperation(s, site, op))
    && (forall op | op in ops && op.Insert? :: op.id.lamport <= r.clock)
  }

  lemma RememberKeeps(s: Session, r: Session, site: string, ops: seq<Operation>)
    requires CommandKept(s, r, site, ops)
    ensures CommandKept(s, Remember(r), site, ops)
  {
    hide Meaning;
    hide Functional;
    hide Anchored;
    hide CursorPosition;
    hide OwnOperation;
  }

  // Commands that only move the cursor, or remove present elements after moving it.
  lemma RemovalCommandKept(s: Session, site: string, cur: CursorState, ids: seq<ElementID>)
    requires SessionValid(s, site) && Anchored(Meaning(s.received), cur.anchor)
             && SelectionPresent(Meaning(s.received), cur)
    requires forall x | x in ids :: x in Meaning(s.received).elements
    ensures var r := PerformAll(s.(cursor := cur), site, RemoveEach(ids));
            CommandKept(s, r, site, RemoveEach(ids)) && (cur.anchor !in ids ==> r.cursor == cur)
  {
    hide SessionValid;
    hide Meaning;
    hide Anchored;
    hide PerformAll;
    hide Visible;
    hide ShownSet;
    hide RemoveEach;
    hide Shape;
    hide Sent;
    var s0 := s.(cursor := cur);
    CursorElsewhere(s, site, cur);
    Removals(s0, site, ids);
    PerformAllReceives(s0, site, RemoveEach(ids));
    RemoveEachTargets(ids);
    var r := PerformAll(s0, site, RemoveEach(ids));
    assert Meaning(r.received).elements.Keys == Meaning(s.received).elements.Keys;
  }

  lemma CursorElsewhere(s: Session, site: string, cur: CursorState)
    requires SessionValid(s, site) && Anchored(Meaning(s.received), cur.anchor)
             && SelectionPresent(Meaning(s.received), cur)
    ensures SessionValid(s.(cursor := cur), site)
  {
    hide Anchored;
    hide Functional;
    hide Meaning;
  }

  lemma RemoveEachTargets(ids: seq<ElementID>)
    ensures forall op | op in RemoveEach(ids) :: op.Remove? && op.target in ids
  {
    forall op | op in RemoveEach(ids) ensures op.Remove? && op.target in ids {
      var i :| 0 <= i < |ids| && RemoveEach(ids)[i] == op;
      assert ids[i] in ids;
    }
  }

  lemma TypingCommandKept(s: Session, site: string, c: char)
    requires SessionValid(s, site)
    ensures CommandKept(s, AfterTyping(s, site, c), site, Typed(s.cursor, s.clock, site, c).ops)
  {
    hide SessionValid;
    hide Meaning;
    hide AfterTyping;
    hide Quiet;
    TypingKeeps(s, site, c);
    TypingStep(s, site, c);
    var op := Insert(s.cursor.anchor, ElementID(s.clock + 1, site), c);
    assert Typed(s.cursor, s.clock, site, c).ops == [op];
    assert Elements([op]) == {op};
    assert [op][..0] == [];
    assert Sent(site, [op]) == [OperationMessage(site, op)];
  }

  ghost function DeletedIds(t: Tree, cur: CursorState): seq<ElementID>
  {
    match NormalizedRange(t, cur)
    case None => []
    case Some((start, end)) => VisibleRange(t, start, end)
  }

  lemma SelectionStaysPresent(t: Tree, cur: CursorState, clock: nat)
    requires Shape(t) && Anchored(t, cur.anchor)
    ensures var effect := DeleteSelection(t, cur, clock);
            && effect.ops == RemoveEach(DeletedIds(t, cur)) && effect.clock == clock
            && Anchored(t, effect.cursor.anchor) && (SelectionPresent(t, cur) ==> SelectionPresent(t, effect.cursor))
            && forall x | x in DeletedIds(t, cur) :: x in t.elements
  {
    var ids := DeletedIds(t, cur);
    hide Shape;
    hide NormalizedRange;
    forall x | x in ids ensures Shown(t, x) {
      RangeIsVisible(t, cur, x);
      VisibleMembers(t, x);
    }
    hide VisibleRange;
    hide VisiblePredecessor;
    if ids != [] {
      assert ids[0] in ids;
      PredecessorIsAnchored(t, ids[0]);
    }
  }

  lemma RangeIsVisible(t: Tree, cur: CursorState, x: ElementID)
    requires x in DeletedIds(t, cur)
    ensures x in Visible(t)
  {
    hide Visible;
    hide NormalizedRange;
  }

  // What a command that types nothing removes.
  ghost function RemovedIds(t: Tree, cur: CursorState, cmd: Command): seq<ElementID>
  {
    match cmd
    case Backspace => if cur.HasSelection() then DeletedIds(t, cur) else [cur.anchor]
    case DeleteForward =>
      if cur.HasSelection() then DeletedIds(t, cur)
      else if VisibleSuccessor(t, cur.anchor).Some? then [VisibleSuccessor(t, cur.anchor).value] else []
    case _ => []
  }

  predicate Types(cmd: Command)
  {
    cmd.InsertCharacter? || cmd.Enter?
  }

  // A command that types nothing removes present elements and leaves the cursor anchored.
  lemma NonTypingCommand(t: Tree, cur: CursorState, clock: nat, site: string, cmd: Command)
    requires Shape(t) && Anchored(t, cur.anchor) && !Types(cmd) && SelectionPresent(t, cur)
    ensures var effect := Process(t, cur, clock, site, cmd);
            && effect.Ok? && effect.value.clock == clock
            && effect.value.ops == RemoveEach(RemovedIds(t, cur, cmd))
            && Anchored(t, effect.value.cursor.anchor) && SelectionPresent(t, effect.value.cursor)
    ensures forall x | x in RemovedIds(t, cur, cmd) :: x in t.elements
  {
    if cmd.Backspace? || cmd.DeleteForward? {
      if cur.HasSelection() {
        SelectionStaysPresent(t, cur, clock);
        hide DeleteSelection;
        hide DeletedIds;
        hide Shape;
      } else {
        SingleDeletion(t, cur, clock, site);
        hide *;
        assert cmd == Backspace || cmd == DeleteForward;
      }
    } else {
      Movement(t, cur, clock, site, cmd);
    }
  }

  lemma SingleDeletion(t: Tree, cur: CursorState, clock: nat, site: string)
    requires Shape(t) && Anchored(t, cur.anchor) && !cur.HasSelection()
    ensures var effect := Process(t, cur, clock, site, Backspace);
            && effect.Ok? && effect.value.clock == clock
            && effect.value.ops == RemoveEach(RemovedIds(t, cur, Backspace))
            && Anchored(t, effect.value.cursor.anchor) && SelectionPresent(t, effect.value.cursor)
    ensures var effect := Process(t, cur, clock, site, DeleteForward);
            && effect.Ok? && effect.value.clock == clock
            && effect.value.ops == RemoveEach(RemovedIds(t, cur, DeleteForward))
            && Anchored(t, effect.value.cursor.anchor) && SelectionPresent(t, effect.value.cursor)
    ensures forall x | x in RemovedIds(t, cur, Backspace) :: x in t.elements
    ensures forall x | x in RemovedIds(t, cur, DeleteForward) :: x in t.elements
  {
    AnchoredIsPresent(t, cur.anchor);
    hide Shape;
    hide VisiblePredecessor;
    hide VisibleSuccessor;
    PredecessorIsAnchored(t, cur.anchor);
    StepsMoveOneGap(t, cur.anchor);
    hide Anchored;
    assert RemoveEach([cur.anchor]) == [Remove(cur.anchor)];
    var next := VisibleSuccessor(t, cur.anchor);
    if next.Some? {
      assert RemoveEach([next.value]) == [Remove(next.value)];
    }
  }

  lemma Movement(t: Tree, cur: CursorState, clock: nat, site: string, cmd: Command)
    requires Shape(t) && Anchored(t, cur.anchor) && !Types(cmd) && !cmd.Backspace? && !cmd.DeleteForward?
             && SelectionPresent(t, cur)
    ensures var effect := Process(t, cur, clock, site, cmd);
            && effect.Ok? && effect.value.clock == clock && effect.value.ops == []
            && Anchored(t, effect.value.cursor.anchor) && SelectionPresent(t, effect.value.cursor)
    ensures RemovedIds(t, cur, cmd) == []
  {
    hide Shape;
    AnchoredIsPresent(t, cur.anchor);
    MovesStayAnchored(t, cur.(selection := None), cmd);
    MovesStayAnchored(t, StartSelection(cur), cmd);
    MovesKeepSelection(t, cur.(selection := None), cmd);
    MovesKeepSelection(t, StartSelection(cur), cmd);
    hide Anchored;
    hide Moved;
  }

  lemma CommandCases(s: Session, site: string, cmd: Command)
    requires SessionValid(s, site) && cmd != InsertCharacter('\0')
    ensures var effect := Process(Meaning(s.received), s.cursor, s.clock, site, cmd);
            effect.Ok? &&
            CommandKept(s,
              PerformAll(s.(cursor := effect.value.cursor, clock := effect.value.clock), site, effect.value.ops),
                        site, CommandOps(s, site, cmd))
  {
    if Types(cmd) {
      TypingCommandKept(s, site, if cmd.Enter? then '\n' else cmd.c);
    } else {
      var t := Meaning(s.received);
      ValidIsFunctional(s, site);
      NonTypingCommand(t, s.cursor, s.clock, site, cmd);
      hide *;
      var effect := Process(t, s.cursor, s.clock, site, cmd).value;
      RemovalCommandKept(s, site, effect.cursor, RemovedIds(t, s.cursor, cmd));
      SameOps(s, site, cmd);
      assert s.(cursor := effect.cursor, clock := effect.clock) == s.(cursor := effect.cursor);
    }
  }

  lemma SameOps(s: Session, site: string, cmd: Command)
    ensures var effect := Process(Meaning(s.received), s.cursor, s.clock, site, cmd);
            effect.Ok? ==> CommandOps(s, site, cmd) == effect.value.ops
  {
    hide Process;
    hide Meaning;
  }

  // An inserted character is the one typed.
  lemma TypedCharacters(s: Session, site: string, cmd: Command)
    requires SessionValid(s, site)
    ensures forall op | op in CommandOps(s, site, cmd) && op.Insert? ::
              Types(cmd) && op.ch == if cmd.Enter? then '\n' else cmd.c
  {
    if !Types(cmd) {
      var t := Meaning(s.received);
      ValidIsFunctional(s, site);
      NonTypingCommand(t, s.cursor, s.clock, site, cmd);
      hide *;
      SameOps(s, site, cmd);
      RemoveEachTargets(RemovedIds(t, s.cursor, cmd));
    } else {
      hide Meaning;
    }
  }

  // Every command keeps the session valid: the cursor stays at the root or on a visible
  // element, and the clock keeps bounding everything seen. Only a command without a character
  // is refused.
  lemma CommandKeeps(s: Session, site: string, cmd: Command)
    requires SessionValid(s, site)
    ensures HandleCommand(s, site, cmd).Throws? <==> cmd == InsertCharacter('\0')
    ensures HandleCommand(s, site, cmd).Ok? ==>
              CommandKept(s, HandleCommand(s, site, cmd).value, site, CommandOps(s, site, cmd))
  {
    hide SessionValid;
    hide Meaning;
    hide CommandKept;
    hide Remember;
    hide PerformAll;
    if cmd != InsertCharacter('\0') {
      CommandCases(s, site, cmd);
      hide Process;
      var effect := Process(Meaning(s.received), s.cursor, s.clock, site, cmd).value;
      var r := PerformAll(s.(cursor := effect.cursor, clock := effect.clock), site, effect.ops);
      RememberKeeps(s, r, site, CommandOps(s, site, cmd));
    }
  }

  // Backspace without a selection removes the visible character before the cursor, which steps
  // back by one; at the start of the document it changes no text.
  lemma BackspaceRemovesBefore(s: Session, site: string)
    requires SessionValid(s, site) && !s.cursor.HasSelection()
    ensures var t, g := Meaning(s.received), Gap(Meaning(s.received), s.cursor.anchor);
            var r := PerformAll(s.(cursor := s.cursor.(anchor := VisiblePredecessor(t, s.cursor.anchor))),
                                site, [Remove(s.cursor.anchor)]);
            && g <= |Visible(t)|
            && HandleCommand(s, site, Backspace) == Ok(Remember(r))
            && Visible(Meaning(r.received)) == (if g == 0 then Visible(t) else Visible(t)[..g - 1] + Visible(t)[g..])
            && r.cursor.anchor == AnchorAtGap(t, if g == 0 then 0 else g - 1)
  {
    BackspaceCommand(s, site);
    hide *;
    BackspaceEffect(s, site, s.cursor.(anchor := VisiblePredecessor(Meaning(s.received), s.cursor.anchor)));
  }

  // Delete without a selection removes the visible character after the cursor, which stays; at
  // the end of the document it changes nothing.
  lemma DeleteForwardRemovesAfter(s: Session, site: string)
    requires SessionValid(s, site) && !s.cursor.HasSelection()
    ensures HandleCommand(s, site, DeleteForward).Ok?
    ensures var t, g := Meaning(s.received), Gap(Meaning(s.received), s.cursor.anchor);
            var r := HandleCommand(s, site, DeleteForward).value;
            && g <= |Visible(t)|
            && Visible(Meaning(r.received)) == (if g == |Visible(t)|
               then Visible(t) else Visible(t)[..g] + Visible(t)[g + 1..])
            && r.cursor.anchor == s.cursor.anchor && r.cursor.selection == s.cursor.selection
  {
    hide *;
    var t, n := Meaning(s.received), s.cursor.anchor;
    var g := Gap(t, n);
    ValidIsFunctional(s, site);
    AnchoredIsPresent(t, n);
    GapOfElement(t, n);
    DeleteForwardCommand(s, site);
    if g < |Visible(t)| {
      NextIsRemoved(s, site, g);
    }
  }

  lemma NextIsRemoved(s: Session, site: string, g: nat)
    requires SessionValid(s, site) && g < |Visible(Meaning(s.received))|
    requires s.cursor.anchor == AnchorAtGap(Meaning(s.received), g)
    ensures var v := Visible(Meaning(s.received));
            var r := Remember(PerformAll(s, site, [Remove(v[g])]));
            && Visible(Meaning(r.received)) == v[..g] + v[g + 1..]
            && r.cursor.anchor == s.cursor.anchor && r.cursor.selection == s.cursor.selection
  {
    OneRemoval(Visible(Meaning(s.received)), g);
    hide *;
    SliceIsRemoved(s, site, s.cursor, g, g + 1);
    assert s.(cursor := s.cursor) == s;
  }

  lemma OneRemoval(v: seq<ElementID>, g: nat)
    requires g < |v|
    ensures RemoveEach(v[g..g + 1]) == [Remove(v[g])]
  {
    assert v[g..g + 1] == [v[g]];
    assert [v[g]][..0] == [];
  }

  lemma DeleteForwardCommand(s: Session, site: string)
    requires !s.cursor.HasSelection()
    ensures var t := Meaning(s.received);
            var g, v := Gap(t, s.cursor.anchor), Visible(t);
            && HandleCommand(s, site, DeleteForward) ==
               Ok(Remember(PerformAll(s, site, if g < |v| then [Remove(v[g])] else [])))
            && Remember(PerformAll(s, site, [])).received == s.received
            && Remember(PerformAll(s, site, [])).cursor.anchor == s.cursor.anchor
            && Remember(PerformAll(s, site, [])).cursor.selection == s.cursor.selection
  {
    hide Meaning;
    hide Gap;
    hide Visible;
    hide Perform;
    hide CursorPosition;
    assert s.(cursor := s.cursor, clock := s.clock) == s;
  }

  lemma BackspaceCommand(s: Session, site: string)
    requires !s.cursor.HasSelection()
    ensures var cur := s.cursor.(anchor := VisiblePredecessor(Meaning(s.received), s.cursor.anchor));
            HandleCommand(s, site, Backspace) ==
              Ok(Remember(PerformAll(s.(cursor := cur), site, [Remove(s.cursor.anchor)])))
  {
    hide Meaning;
    hide VisiblePredecessor;
    hide PerformAll;
    hide Remember;
    assert s.clock == s.(clock := s.clock).clock;
  }

  lemma BackspaceEffect(s: Session, site: string, cur: CursorState)
    requires SessionValid(s, site)
             && cur == s.cursor.(anchor := VisiblePredecessor(Meaning(s.received), s.cursor.anchor))
    ensures var t, g := Meaning(s.received), Gap(Meaning(s.received), s.cursor.anchor);
            var r := PerformAll(s.(cursor := cur), site, [Remove(s.cursor.anchor)]);
            && g <= |Visible(t)|
            && Visible(Meaning(r.received)) == (if g == 0 then Visible(t) else Visible(t)[..g - 1] + Visible(t)[g..])
            && r.cursor.anchor == AnchorAtGap(t, if g == 0 then 0 else g - 1)
  {
    var t, n := Meaning(s.received), s.cursor.anchor;
    ValidIsFunctional(s, site);
    BackspaceGap(t, n);
    RemovedCursor(s, site, cur);
    BuriedMeaning(s.received, n);
    hide *;
    BackspaceText(t, n);
  }

  lemma BackspaceText(t: Tree, n: ElementID)
    requires Shape(t) && Anchored(t, n)
    ensures var g := Gap(t, n);
            && g <= |Visible(t)|
            && Visible(Bury(t, n)) == (if g == 0 then Visible(t) else Visible(t)[..g - 1] + Visible(t)[g..])
  {
    hide *;
    BackspaceGap(t, n);
    BuriedElementDisappears(t, n);
    VisibleWithout(t, n, Gap(t, n));
  }

  lemma BackspaceGap(t: Tree, n: ElementID)
    requires Shape(t) && Anchored(t, n)
    ensures n in t.elements && Gap(t, n) <= |Visible(t)| && (Gap(t, n) == 0 <==> n == ROOT_ID)
    ensures VisiblePredecessor(t, n) == AnchorAtGap(t, if n == ROOT_ID then 0 else Gap(t, n) - 1)
    ensures n != ROOT_ID ==> Visible(t)[Gap(t, n) - 1] == n && VisiblePredecessor(t, n) != n
  {
    AnchoredIsPresent(t, n);
    hide Shape;
    hide Gap;
    GapOfElement(t, n);
    PredecessorIsAnchored(t, n);
  }

  lemma VisibleWithout(t: Tree, n: ElementID, g: nat)
    requires Shape(t) && g <= |Visible(t)| && (g == 0 ==> n == ROOT_ID) && (g > 0 ==> Visible(t)[g - 1] == n)
    ensures Keep(Visible(t), ShownSet(t) - {n}) == if g == 0 then Visible(t) else Visible(t)[..g - 1] + Visible(t)[g..]
  {
    hide Shape;
    forall x | x in Visible(t) ensures x in ShownSet(t) && x != ROOT_ID {
      VisibleMembers(t, x);
    }
    VisibleMembers(t, n);
    if g == 0 {
      KeepAll(Visible(t), ShownSet(t) - {n});
    } else {
      KeepAllButOne(Visible(t), ShownSet(t) - {n}, g - 1);
    }
  }

  lemma RemovedCursor(s: Session, site: string, cur: CursorState)
    requires SessionValid(s, site)
             && cur == s.cursor.(anchor := VisiblePredecessor(Meaning(s.received), s.cursor.anchor))
    ensures var r := PerformAll(s.(cursor := cur), site, [Remove(s.cursor.anchor)]);
            r.received == s.received + {Remove(s.cursor.anchor)} && r.cursor.anchor == cur.anchor
  {
    var t, n := Meaning(s.received), s.cursor.anchor;
    ValidIsFunctional(s, site);
    BackspaceGap(t, n);
    var s0 := s.(cursor := cur);
    assert [Remove(n)][..0] == [];
    assert PerformAll(s0, site, []) == s0;
    assert PerformAll(s0, site, [Remove(n)]) == Perform(s0, site, Remove(n));
    hide SessionValid;
    hide PerformAll;
    if Remove(n) in s.received {
      assert s.received + {Remove(n)} == s.received;
    }
    if n == ROOT_ID {
      RootStepsNowhere(Meaning(s.received + {Remove(n)}));
      RootStepsNowhere(t);
    }
  }
}
