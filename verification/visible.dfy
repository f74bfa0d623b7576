// The visible text: the traversal without the root and the tombstones, and the gaps
// between its characters where a cursor can stand.
module VisibleText {
  import opened Wrappers
  import opened ElementIds
  import opened Trees
  import opened Preorder
  import opened Places
  import opened Growth
  import opened Lines

  ghost predicate Shown(t: Tree, n: ElementID)
  {
    n in t.elements && n != ROOT_ID && !t.Deleted(n)
  }

  ghost function ShownSet(t: Tree): set<ElementID>
  {
    set n | n in t.elements && Shown(t, n)
  }

  ghost function Visible(t: Tree): seq<ElementID>
  {
    Keep(Traversal(t), ShownSet(t))
  }

  ghost function CharsOf(t: Tree, ids: seq<ElementID>): (s: string)
    ensures |s| == |ids|
    ensures forall i | 0 <= i < |ids| :: s[i] == t.Char(ids[i])
  {
    if ids == [] then "" else CharsOf(t, ids[..|ids| - 1]) + [t.Char(ids[|ids| - 1])]
  }

  ghost function Text(t: Tree): string
  {
    CharsOf(t, Visible(t))
  }

  // A cursor anchored at the root or at a visible element.
  ghost predicate Anchored(t: Tree, n: ElementID)
  {
    n == ROOT_ID || Shown(t, n)
  }

  // Visible elements up to and including a node, and strictly before it.
  ghost function Gap(t: Tree, n: ElementID): nat
  {
    var k := At(t, n) + 1;
    |Keep(if k <= |Traversal(t)| then Traversal(t)[..k] else Traversal(t), ShownSet(t))|
  }

  ghost function GapBefore(t: Tree, n: ElementID): nat
  {
    |Keep(Traversal(t)[..At(t, n)], ShownSet(t))|
  }

  // The anchor of the cursor that stands after the first g visible characters.
  ghost function AnchorAtGap(t: Tree, g: nat): ElementID
  {
    if 0 < g <= |Visible(t)| then Visible(t)[g - 1] else ROOT_ID
  }

  // The nearest visible element before a node, or the root; the next visible element after it.
  ghost function VisiblePredecessor(t: Tree, n: ElementID): ElementID
  {
    AnchorAtGap(t, GapBefore(t, n))
  }

  ghost function VisibleSuccessor(t: Tree, n: ElementID): Option<ElementID>
  {
    if Gap(t, n) < |Visible(t)| then Some(Visible(t)[Gap(t, n)]) else None
  }

  // ----- The recursive visit -----

  lemma VisitNode(t: Tree, n: ElementID)
    requires Shape(t) && n in t.elements
    ensures Keep(Subtree(t, n), ShownSet(t)) ==
            (if Shown(t, n) then [n] else []) + Keep(Forest(t, t.Kids(n)), ShownSet(t))
  {
    hide Shape;
    SubtreeUnfolds(t, n);
  }

  lemma VisitChild(t: Tree, list: seq<ElementID>, i: nat)
    requires i < |list|
    ensures Keep(Forest(t, list[..i + 1]), ShownSet(t)) ==
            Keep(Forest(t, list[..i]), ShownSet(t)) + Keep(Subtree(t, list[i]), ShownSet(t))
  {
    assert list[..i + 1] == list[..i] + [list[i]];
    ForestConcat(t, |t.elements|, list[..i], [list[i]]);
    KeepConcat(Forest(t, list[..i]), Subtree(t, list[i]), ShownSet(t));
  }

  lemma VisitNone(t: Tree)
    ensures Keep(Forest(t, []), ShownSet(t)) == []
  {
  }

  // ----- Gaps -----

  lemma KeepSplits<T>(xs: seq<T>, i: nat, s: set<T>)
    requires i < |xs|
    ensures Keep(xs[..i + 1], s) == Keep(xs[..i], s) + (if xs[i] in s then [xs[i]] else [])
    ensures Keep(xs, s) == Keep(xs[..i + 1], s) + Keep(xs[i + 1..], s)
  {
    assert xs[..i + 1] == xs[..i] + [xs[i]];
    KeepConcat(xs[..i], [xs[i]], s);
    assert Keep([xs[i]], s) == if xs[i] in s then [xs[i]] else [];
    assert xs == xs[..i + 1] + xs[i + 1..];
    KeepConcat(xs[..i + 1], xs[i + 1..], s);
  }

  lemma {:induction false} KeepIsDistinct<T>(xs: seq<T>, s: set<T>)
    requires NoDuplicates(xs)
    ensures NoDuplicates(Keep(xs, s))
  {
    if xs != [] {
      KeepIsDistinct(xs[1..], s);
      KeepMembers(xs[1..], s);
    }
  }

  lemma VisibleMembers(t: Tree, x: ElementID)
    requires Shape(t)
    ensures x in Visible(t) <==> Shown(t, x)
    ensures NoDuplicates(Visible(t))
  {
    hide Shape;
    KeepMembers(Traversal(t), ShownSet(t));
    TraversalVisitsAll(t, x);
    TraversalIsDistinct(t);
    KeepIsDistinct(Traversal(t), ShownSet(t));
  }

  // A node's gap counts it exactly when it is visible; it then stands just before its gap.
  lemma GapOfElement(t: Tree, n: ElementID)
    requires Shape(t) && n in t.elements
    ensures Gap(t, n) == GapBefore(t, n) + (if Shown(t, n) then 1 else 0)
    ensures Gap(t, n) <= |Visible(t)| && At(t, n) < |Traversal(t)|
    ensures Shown(t, n) ==> Visible(t)[Gap(t, n) - 1] == n
    ensures Anchored(t, n) ==> AnchorAtGap(t, Gap(t, n)) == n
    ensures n == ROOT_ID ==> Gap(t, n) == 0
  {
    hide Shape;
    hide Keep;
    PlaceOf(t, n);
    KeepSplits(Traversal(t), At(t, n), ShownSet(t));
    if n == ROOT_ID {
      RootBlock(t);
      NothingKept(Traversal(t)[..At(t, n)], ShownSet(t));
    }
  }

  lemma NothingKept<T>(xs: seq<T>, s: set<T>)
    requires xs == []
    ensures Keep(xs, s) == []
  {
  }

  // The gaps of the visible elements, in order.
  lemma GapOfVisible(t: Tree, g: nat)
    requires Shape(t) && g < |Visible(t)|
    ensures Shown(t, Visible(t)[g]) && Gap(t, Visible(t)[g]) == g + 1
  {
    hide Shape;
    hide Gap;
    var n := Visible(t)[g];
    assert n in Visible(t);
    VisibleMembers(t, n);
    GapOfElement(t, n);
  }

  // Anchors and gaps are the same thing.
  lemma AnchorsAreGaps(t: Tree, g: nat)
    requires Shape(t) && g <= |Visible(t)|
    ensures Anchored(t, AnchorAtGap(t, g)) && Gap(t, AnchorAtGap(t, g)) == g
  {
    hide Shape;
    hide Gap;
    if g > 0 {
      GapOfVisible(t, g - 1);
    } else {
      RootIsOwnParent(t);
      GapOfElement(t, ROOT_ID);
    }
  }

  lemma AnchoredIsPresent(t: Tree, n: ElementID)
    requires Shape(t) && Anchored(t, n)
    ensures n in t.elements
  {
  }

  // Stepping to the visible predecessor or successor moves the cursor by one gap.
  lemma StepsMoveOneGap(t: Tree, n: ElementID)
    requires Shape(t) && Anchored(t, n)
    ensures Anchored(t, VisiblePredecessor(t, n))
    ensures Gap(t, VisiblePredecessor(t, n)) == if n == ROOT_ID then 0 else Gap(t, n) - 1
    ensures match VisibleSuccessor(t, n)
            case None => Gap(t, n) == |Visible(t)|
            case Some(m) => Shown(t, m) && Gap(t, m) == Gap(t, n) + 1 && VisiblePredecessor(t, m) == n
  {
    AnchoredIsPresent(t, n);
    hide Shape;
    hide Shown;
    hide Visible;
    hide Gap;
    hide GapBefore;
    hide Keep;
    hide At;
    GapOfElement(t, n);
    AnchorsAreGaps(t, GapBefore(t, n));
    if Gap(t, n) < |Visible(t)| {
      GapOfVisible(t, Gap(t, n));
      GapOfElement(t, Visible(t)[Gap(t, n)]);
    }
  }

  // ----- Skipping tombstones -----

  lemma GapAfterNext(t: Tree, n: ElementID)
    requires Shape(t) && n in t.elements
    ensures match Next(t, n)
            case None => Gap(t, n) == |Visible(t)|
            case Some(m) => m in t.elements && m != ROOT_ID && At(t, m) == At(t, n) + 1 && GapBefore(t, m) == Gap(t, n)
  {
    hide Shape;
    hide Keep;
    PlaceOf(t, n);
    var i := At(t, n) + 1;
    if i < |Traversal(t)| {
      PlaceIsUnique(t, Traversal(t)[i], i);
      RootBlock(t);
    } else {
      assert Traversal(t)[..i] == Traversal(t);
    }
  }

  lemma GapBeforePrevious(t: Tree, n: ElementID)
    requires Shape(t) && n in t.elements && n != ROOT_ID
    ensures var m := Previous(t, n);
            m in t.elements && At(t, m) == At(t, n) - 1 && Gap(t, m) == GapBefore(t, n)
  {
    hide Shape;
    hide Keep;
    PlaceOf(t, n);
    RootBlock(t);
    RootIsOwnParent(t);
    PlaceOf(t, ROOT_ID);
    assert At(t, n) != 0;
    PlaceIsUnique(t, Traversal(t)[At(t, n) - 1], At(t, n) - 1);
  }

  // ----- Positions -----

  // Line and column after the first g visible characters.
  ghost function PositionAtGap(t: Tree, g: nat): (nat, nat)
  {
    PositionAfter(if g <= |Text(t)| then Text(t)[..g] else Text(t))
  }

  // Line and column of the cursor at an anchor.
  ghost function CursorPosition(t: Tree, n: ElementID): (nat, nat)
  {
    PositionAtGap(t, Gap(t, n))
  }

  // The anchor of the cursor at a line and column, if there is such a position.
  ghost function AnchorOfPosition(t: Tree, line: nat, column: nat): Option<ElementID>
  {
    match PlaceOfPosition(Text(t), line, column)
    case None => None
    case Some(g) => Some(AnchorAtGap(t, g))
  }

  // Anchors and positions correspond one to one: the anchors are the root and the visible
  // elements, the positions the places within the lines of the rendered text.
  lemma PositionsAreAnchors(t: Tree, n: ElementID, line: nat, column: nat)
    requires Shape(t)
    ensures Anchored(t, n) ==>
              var p := CursorPosition(t, n);
              InGrid(LinesOf(Text(t)), p.0, p.1) && AnchorOfPosition(t, p.0, p.1) == Some(n)
    ensures match AnchorOfPosition(t, line, column)
            case None => !InGrid(LinesOf(Text(t)), line, column)
            case Some(m) => Anchored(t, m) && CursorPosition(t, m) == (line, column)
  {
    if Anchored(t, n) {
      AnchoredIsPresent(t, n);
      hide Shape;
      hide Gap;
      GapOfElement(t, n);
      var p := CursorPosition(t, n);
      PlaceToPosition(Text(t), Gap(t, n));
      PlaceFound(Text(t), Gap(t, n), p.0, p.1);
    }
    hide Shape;
    hide Gap;
    hide PositionAfter;
    if AnchorOfPosition(t, line, column).Some? {
      PlaceInText(Text(t), line, column);
      var g := PlaceOfPosition(Text(t), line, column).value;
      PlaceFound(Text(t), g, line, column);
      AnchorsAreGaps(t, g);
    }
  }

  // ----- Steps of the counting visitors -----

  lemma NoText(t: Tree)
    ensures PositionAtGap(t, 0) == (0, 0) && AnchorAtGap(t, 0) == ROOT_ID
  {
  }

  lemma NoLines()
    ensures LinesOf("") == [""]
  {
  }

  lemma EmptyRange(t: Tree, n: ElementID)
    ensures VisibleRange(t, n, n) == []
  {
  }

  lemma AdvanceCases(line: nat, column: nat, c: char)
    ensures Advance((line, column), c) == if c == '\n' then (line + 1, 0) else (line, column + 1)
  {
  }

  lemma SameLength(t: Tree)
    ensures |Text(t)| == |Visible(t)|
  {
  }

  lemma GapPosition(t: Tree, g: nat)
    ensures g <= |Text(t)| ==> PositionAtGap(t, g) == PositionAfter(Text(t)[..g])
  {
  }

  lemma AnchorStep(t: Tree, g: nat)
    requires g < |Visible(t)|
    ensures AnchorAtGap(t, g + 1) == Visible(t)[g]
  {
  }

  lemma AnchorOfPlace(t: Tree, line: nat, column: nat)
    ensures AnchorOfPosition(t, line, column) ==
            match PlaceOfPosition(Text(t), line, column) case None => None case Some(g) => Some(AnchorAtGap(t, g))
  {
  }

  lemma ShownIsElement(t: Tree, n: ElementID)
    requires Shown(t, n)
    ensures n in t.elements && n != ROOT_ID
  {
  }

  // The i-th visible element: the text and the counters before and after it.
  lemma VisitedAt(t: Tree, vs: seq<ElementID>, i: nat)
    requires Shape(t) && vs == Visible(t) && i < |vs|
    ensures Shown(t, vs[i]) && t.Char(vs[i]) == Text(t)[i] && |Text(t)| == |vs|
    ensures CharsOf(t, vs[..i + 1]) == CharsOf(t, vs[..i]) + [t.Char(vs[i])] && CharsOf(t, vs[..i]) == Text(t)[..i]
    ensures Text(t)[..i + 1] == Text(t)[..i] + [t.Char(vs[i])]
    ensures PositionAtGap(t, i + 1) == Advance(PositionAtGap(t, i), t.Char(vs[i]))
    ensures GapBefore(t, vs[i]) == i && forall j | 0 <= j < |vs| && j != i :: vs[j] != vs[i]
  {
    hide Shape;
    hide Visible;
    hide Gap;
    hide GapBefore;
    assert vs[i] in vs;
    VisibleMembers(t, vs[i]);
    assert vs[..i + 1] == vs[..i] + [vs[i]];
    GapOfVisible(t, i);
    GapOfElement(t, vs[i]);
    assert Text(t)[..i + 1] == Text(t)[..i] + [t.Char(vs[i])];
    LinesStep(Text(t)[..i], t.Char(vs[i]));
  }

  // ----- Resolving an anchor -----

  ghost function Resolved(t: Tree, n: ElementID): Option<ElementID>
  {
    if n == ROOT_ID then Some(ROOT_ID)
    else if n !in t.elements then None
    else if !t.Deleted(n) then Some(n)
    else Some(VisiblePredecessor(t, n))
  }

  // A present anchor resolves to the root or to a visible element, and only an absent one
  // does not resolve.
  lemma ResolvedIsAnchored(t: Tree, n: ElementID)
    requires Shape(t)
    ensures Resolved(t, n).Some? <==> n in t.elements
    ensures Resolved(t, n).Some? ==> Anchored(t, Resolved(t, n).value) && Resolved(t, n).value in t.elements
  {
    RootIsOwnParent(t);
    hide Shape;
    hide GapBefore;
    if n in t.elements {
      GapOfElement(t, n);
      AnchorsAreGaps(t, GapBefore(t, n));
    }
  }

  // ----- Ranges -----

  // The visible elements after one end of a range through the other: what deleting a
  // selection removes. A start that is not visible selects nothing; an end that is not
  // visible after the start is never met.
  ghost function RangeStart(t: Tree, start: ElementID): nat
  {
    if start == ROOT_ID then 0
    else if start in Visible(t) then IndexOf(Visible(t), start) + 1 else |Visible(t)|
  }

  ghost function RangeEnd(t: Tree, start: ElementID, end: ElementID): nat
  {
    var k := IndexOf(Visible(t), end);
    if end in Visible(t) && RangeStart(t, start) <= k then k + 1 else |Visible(t)|
  }

  ghost function VisibleRange(t: Tree, start: ElementID, end: ElementID): seq<ElementID>
  {
    if start == end || RangeStart(t, start) > RangeEnd(t, start, end) then []
    else Visible(t)[RangeStart(t, start)..RangeEnd(t, start, end)]
  }

  // The part of a range met after i visible elements, and one more step of the visit.
  ghost function RangeSoFar(t: Tree, start: ElementID, end: ElementID, i: nat): seq<ElementID>
  {
    var from, to := RangeStart(t, start), RangeEnd(t, start, end);
    var upto := if i < to then i else to;
    if from <= upto <= |Visible(t)| then Visible(t)[from..upto] else []
  }

  ghost predicate Collecting(t: Tree, start: ElementID, end: ElementID, i: nat)
  {
    RangeStart(t, start) <= i < RangeEnd(t, start, end)
  }

  lemma RangeStep(t: Tree, start: ElementID, end: ElementID, i: nat)
    requires Shape(t) && i < |Visible(t)| && start != end
    ensures i + 1 < |Visible(t)| ==>
              var v := Visible(t)[i];
              (Collecting(t, start, end, i + 1) <==> v != end && (v == start || Collecting(t, start, end, i)))
    ensures Collecting(t, start, end, i) ==> Visible(t)[i] != start
    ensures RangeSoFar(t, start, end, i + 1) ==
            RangeSoFar(t, start, end, i) + (if Collecting(t, start, end, i) then [Visible(t)[i]] else [])
  {
    hide Shape;
    hide Visible;
    hide Collecting;
    hide RangeSoFar;
    VisibleMembers(t, ROOT_ID);
    RangeStepOf(t, Visible(t), start, end, i);
  }

  lemma RangeStepOf(t: Tree, vs: seq<ElementID>, start: ElementID, end: ElementID, i: nat)
    requires vs == Visible(t) && NoDuplicates(vs) && ROOT_ID !in vs && i < |vs| && start != end
    ensures i + 1 < |vs| ==>
            (Collecting(t, start, end, i + 1) <==> vs[i] != end && (vs[i] == start || Collecting(t, start, end, i)))
    ensures Collecting(t, start, end, i) ==> vs[i] != start
    ensures RangeSoFar(t, start, end, i + 1) ==
            RangeSoFar(t, start, end, i) + (if Collecting(t, start, end, i) then [vs[i]] else [])
  {
    hide Visible;
    hide IndexOf;
    hide NoDuplicates;
    PlaceOfMember(vs, start, i);
    PlaceOfMember(vs, end, i);
    assert vs[i] in vs;
    if Collecting(t, start, end, i) {
      SliceStep(vs, RangeStart(t, start), i);
    }
  }

  lemma SliceStep<T>(xs: seq<T>, from: nat, i: nat)
    requires from <= i < |xs|
    ensures xs[from..i + 1] == xs[from..i] + [xs[i]]
  {
  }

  // A member is found at the one index that holds it.
  lemma PlaceOfMember<T>(xs: seq<T>, x: T, i: nat)
    requires NoDuplicates(xs) && i < |xs|
    ensures x in xs ==> IndexOf(xs, x) < |xs| && (xs[i] == x <==> IndexOf(xs, x) == i)
    ensures x !in xs ==> xs[i] != x
  {
    if x in xs {
      IndexOfAt(xs, i);
      IndexOfAt(xs, IndexOf(xs, x));
    }
  }

  lemma IndexOfAt<T>(xs: seq<T>, i: nat)
    requires NoDuplicates(xs) && i < |xs|
    ensures xs[i] in xs && IndexOf(xs, xs[i]) == i
  {
    assert xs[IndexOf(xs, xs[i])] == xs[i];
  }

  lemma RangeEnds(t: Tree, start: ElementID, end: ElementID)
    requires start != end
    ensures RangeSoFar(t, start, end, 0) == []
            && (Collecting(t, start, end, 0) <==> start == ROOT_ID && Visible(t) != [])
    ensures RangeSoFar(t, start, end, |Visible(t)|) == VisibleRange(t, start, end)
  {
    hide Visible;
  }

  lemma IndexIsGap(t: Tree, n: ElementID)
    requires Shape(t) && Shown(t, n)
    ensures n in Visible(t) && IndexOf(Visible(t), n) + 1 == Gap(t, n)
  {
    AnchoredIsPresent(t, n);
    hide Shape;
    hide Gap;
    GapOfElement(t, n);
    VisibleMembers(t, n);
    GapOfVisible(t, IndexOf(Visible(t), n));
  }

  // Between two cursors in order, the range is the text between them.
  lemma RangeBetweenAnchors(t: Tree, start: ElementID, end: ElementID)
    requires Shape(t) && Anchored(t, start) && Anchored(t, end) && Gap(t, start) < Gap(t, end)
    ensures Gap(t, end) <= |Visible(t)|
    ensures VisibleRange(t, start, end) == Visible(t)[Gap(t, start)..Gap(t, end)]
  {
    hide Shape;
    hide Gap;
    hide Visible;
    RootIsOwnParent(t);
    AnchoredIsPresent(t, end);
    GapOfElement(t, ROOT_ID);
    GapOfElement(t, end);
    assert end != ROOT_ID;
    IndexIsGap(t, end);
    if start != ROOT_ID {
      IndexIsGap(t, start);
    }
  }

  // With an end that is no longer visible, the range runs to the end of the document.
  lemma RangeToMissingEnd(t: Tree, start: ElementID, end: ElementID)
    requires Shape(t) && Anchored(t, start) && !Anchored(t, end)
    ensures Gap(t, start) <= |Visible(t)|
    ensures VisibleRange(t, start, end) == Visible(t)[Gap(t, start)..]
  {
    hide Shape;
    hide Gap;
    hide Visible;
    RootIsOwnParent(t);
    AnchoredIsPresent(t, start);
    GapOfElement(t, ROOT_ID);
    GapOfElement(t, start);
    VisibleMembers(t, end);
    if start != ROOT_ID {
      IndexIsGap(t, start);
    }
  }

  // Every other range: from a start that is not in the text nothing is met, and an end that stands
  // before the start is met too early, so that the range runs to the end of the document.
  lemma OtherRanges(t: Tree, start: ElementID, end: ElementID)
    requires Shape(t)
    ensures !Anchored(t, start) || start == end ==> VisibleRange(t, start, end) == []
    ensures Anchored(t, start) && Anchored(t, end) && Gap(t, end) < Gap(t, start) ==>
              Gap(t, start) <= |Visible(t)| && VisibleRange(t, start, end) == Visible(t)[Gap(t, start)..]
  {
    RootIsOwnParent(t);
    VisibleMembers(t, start);
    VisibleMembers(t, end);
    if Anchored(t, start) && Anchored(t, end) && Gap(t, end) < Gap(t, start) {
      AnchoredIsPresent(t, start);
      GapOfElement(t, start);
      GapOfElement(t, ROOT_ID);
      IndexIsGap(t, start);
      if end != ROOT_ID {
        IndexIsGap(t, end);
      }
    }
    hide Shape;
    hide Gap;
    hide Visible;
  }

  // What stands before an element: the visible predecessor is the last visible element before it in
  // the traversal, or the root if there is none.
  lemma PredecessorIsNearest(t: Tree, n: ElementID, x: ElementID)
    requires Shape(t) && n in t.elements && n != ROOT_ID && Shown(t, x)
    ensures var m := VisiblePredecessor(t, n);
            && m in t.elements && Anchored(t, m) && At(t, m) < At(t, n)
            && (At(t, x) < At(t, n) <==> At(t, x) <= At(t, m))
  {
    var m := VisiblePredecessor(t, n);
    RootIsOwnParent(t);
    hide Shape;
    GapOfElement(t, n);
    AnchorsAreGaps(t, GapBefore(t, n));
    AnchoredIsPresent(t, m);
    AnchoredIsPresent(t, x);
    GapOfElement(t, x);
    GapOfElement(t, m);
    PlacesAndGaps(t, x, n);
    PlacesAndGaps(t, n, m);
    PlacesAndGaps(t, x, m);
    PlacesAndGaps(t, m, x);
    FirstIsRoot(t, n);
    FirstIsRoot(t, x);
    PlaceOf(t, x);
    PlaceOf(t, m);
    hide Gap;
    hide GapBefore;
    hide At;
    hide Visible;
  }

  // Whatever stands before counts no more visible elements before it.
  lemma PlacesAndGaps(t: Tree, x: ElementID, y: ElementID)
    requires Shape(t) && x in t.elements && y in t.elements
    ensures At(t, x) < At(t, y) ==> Gap(t, x) <= GapBefore(t, y)
    ensures At(t, x) == At(t, y) ==> x == y
  {
    PlaceOf(t, x);
    PlaceOf(t, y);
    hide Shape;
    hide Keep;
    if At(t, x) < At(t, y) {
      var xs, k := Traversal(t)[..At(t, y)], At(t, x) + 1;
      assert xs == xs[..k] + xs[k..] && xs[..k] == Traversal(t)[..k];
      KeepConcat(xs[..k], xs[k..], ShownSet(t));
    }
  }

  lemma FirstIsRoot(t: Tree, n: ElementID)
    requires Shape(t) && n in t.elements && n != ROOT_ID
    ensures At(t, ROOT_ID) < At(t, n)
  {
    RootIsOwnParent(t);
    hide Shape;
    RootBlock(t);
    PlacesAndGaps(t, ROOT_ID, n);
  }

  // A deleted anchor resolves to the last visible element before it in the traversal.
  lemma ResolvedIsNearest(t: Tree, n: ElementID, x: ElementID)
    requires Shape(t) && n in t.elements && Shown(t, x)
    ensures Anchored(t, n) ==> Resolved(t, n) == Some(n)
    ensures !Anchored(t, n) ==>
              && Resolved(t, n).Some? && At(t, Resolved(t, n).value) < At(t, n)
              && (At(t, x) < At(t, n) <==> At(t, x) <= At(t, Resolved(t, n).value))
  {
    if !Anchored(t, n) {
      PredecessorIsNearest(t, n, x);
    }
    hide Shape;
    hide At;
    hide VisiblePredecessor;
  }

  // ----- Edits -----

  lemma {:induction false} KeepAgrees<T>(xs: seq<T>, s: set<T>, s': set<T>)
    requires forall x | x in xs :: x in s <==> x in s'
    ensures Keep(xs, s) == Keep(xs, s')
  {
    if xs != [] {
      assert xs[0] in xs;
      forall x | x in xs[1..] ensures x in s <==> x in s' {
        assert x in xs;
      }
      KeepAgrees(xs[1..], s, s');
    }
  }

  // Typing at an anchor: the old visible sequence with one new element right after the anchor,
  // and the new element is where the cursor goes.
  lemma TypedCharacterLands(t: Tree, p: ElementID, id: ElementID, ch: char)
    requires Shape(t) && Anchored(t, p) && id !in t.elements
    requires forall x | x in t.Kids(p) :: Less(x, id)
    ensures p in t.children && Gap(t, p) <= |Visible(t)|
    ensures var u := AddLeaf(t, p, id, Character(ch, false));
            && Visible(u) == Visible(t)[..Gap(t, p)] + [id] + Visible(t)[Gap(t, p)..]
            && Text(u) == Text(t)[..Gap(t, p)] + [ch] + Text(t)[Gap(t, p)..]
            && Anchored(u, id) && Gap(u, id) == Gap(t, p) + 1
  {
    AnchoredIsPresent(t, p);
    var c := Character(ch, false);
    LeafFollowsParent(t, p, id, c);
    AddLeafLookups(t, p, id, c);
    AddLeafShape(t, p, id, c);
    var u := AddLeaf(t, p, id, c);
    VisibleWithNew(t, u, p, id);
    TextWithNew(t, u, id, Gap(t, p));
    hide *;
    NewGap(u, id, Gap(t, p));
  }

  lemma NewGap(u: Tree, id: ElementID, g: nat)
    requires Shape(u) && g < |Visible(u)| && Visible(u)[g] == id
    ensures Anchored(u, id) && Gap(u, id) == g + 1
  {
    hide Shape;
    hide Gap;
    GapOfVisible(u, g);
  }

  lemma TextWithNew(t: Tree, u: Tree, id: ElementID, g: nat)
    requires Shape(t) && id !in t.elements && g <= |Visible(t)|
    requires forall x | x != id :: u.Char(x) == t.Char(x)
    requires Visible(u) == Visible(t)[..g] + [id] + Visible(t)[g..]
    ensures Text(u) == Text(t)[..g] + [u.Char(id)] + Text(t)[g..]
  {
    hide Shape;
    hide Visible;
    forall n | n in Visible(t) ensures n != id {
      VisibleMembers(t, n);
    }
    var v := Visible(t);
    assert forall i | 0 <= i < |v| :: v[i] in v;
    assert forall i | 0 <= i < |v| :: Text(t)[i] == u.Char(v[i]);
  }

  lemma VisibleWithNew(t: Tree, u: Tree, p: ElementID, id: ElementID)
    requires Shape(t) && id !in t.elements && id != ROOT_ID
    requires u.elements.Keys == t.elements.Keys + {id} && !u.Deleted(id)
    requires forall x | x != id :: u.Deleted(x) == t.Deleted(x)
    requires At(t, p) < |Traversal(t)|
    requires Traversal(u) == Traversal(t)[..At(t, p) + 1] + [id] + Traversal(t)[At(t, p) + 1..]
    ensures Gap(t, p) <= |Visible(t)|
    ensures Visible(u) == Visible(t)[..Gap(t, p)] + [id] + Visible(t)[Gap(t, p)..]
  {
    hide Shape;
    hide Subtree;
    var k := At(t, p) + 1;
    var P := Traversal(t);
    forall x | x in P ensures x in ShownSet(t) <==> x in ShownSet(u) {
      TraversalVisitsAll(t, x);
    }
    KeepAgrees(P[..k], ShownSet(t), ShownSet(u));
    KeepAgrees(P[k..], ShownSet(t), ShownSet(u));
    KeepConcat(P[..k] + [id], P[k..], ShownSet(u));
    KeepConcat(P[..k], [id], ShownSet(u));
    assert Keep([id], ShownSet(u)) == [id];
    KeepSplits(P, At(t, p), ShownSet(t));
  }

  lemma {:induction false} WalkIgnoresTombstones(t: Tree, u: Tree, fuel: nat, ns: seq<ElementID>)
    requires forall n :: t.Kids(n) == u.Kids(n)
    ensures Walk(t, fuel, ns) == Walk(u, fuel, ns)
    decreases fuel, |ns|
  {
    if fuel > 0 && ns != [] {
      WalkIgnoresTombstones(t, u, fuel - 1, t.Kids(ns[0]));
      WalkIgnoresTombstones(t, u, fuel, ns[1..]);
    }
  }

  // Burying an element hides it and moves nothing else.
  lemma BuriedElementDisappears(t: Tree, x: ElementID)
    ensures var u := Bury(t, x);
            && Traversal(u) == Traversal(t)
            && ShownSet(u) == ShownSet(t) - {x}
            && Visible(u) == Keep(Visible(t), ShownSet(t) - {x})
  {
    var u := Bury(t, x);
    BuryLookups(t, x);
    assert |u.elements.Keys| == |t.elements.Keys|;
    assert |u.elements| == |t.elements|;
    WalkIgnoresTombstones(t, u, |t.elements|, [ROOT_ID]);
    KeepTwice(Traversal(t), ShownSet(t), ShownSet(t) - {x});
  }

  lemma {:induction false} KeepTwice<T>(xs: seq<T>, s: set<T>, less: set<T>)
    requires less <= s
    ensures Keep(Keep(xs, s), less) == Keep(xs, less)
  {
    if xs != [] {
      KeepTwice(xs[1..], s, less);
      var r := Keep(xs[1..], s);
      if xs[0] in s {
        assert Keep(xs, s) == [xs[0]] + r;
        assert ([xs[0]] + r)[1..] == r;
      } else {
        assert Keep(xs, s) == r;
      }
    }
  }
}
