// An ordinary text editor, and the proof that a session is one as far as its own user can tell: the
// identifiers, the tombstones and the tree behind the text never show.
module PlainEditors {
  import opened Wrappers
  import opened ElementIds
  import opened Operations
  import opened Trees
  import opened Growth
  import opened Lines
  import opened VisibleText
  import opened Messages
  import opened Editing
  import opened SessionFacts
  import opened Commands
  import opened Typing
  import opened Selections

  // ----- The plain editor -----

  // The fixed end of a selection is a place in the text. Lost: it stood at a character that is gone.
  datatype Mark = NoMark | MarkAt(place: nat) | LostMark

  // A text, the cursor's place in it, and the column that vertical moves aim at.
  datatype Plain = Plain(text: string, place: nat, mark: Mark, column: Option<nat>)
  {
    predicate Valid() {
      place <= |text| && (mark.MarkAt? ==> mark.place <= |text|)
    }

    predicate Selecting() {
      mark.LostMark? || (mark.MarkAt? && mark.place != place)
    }

    function Column(): nat
      requires Valid()
    {
      PositionAfter(text[..place]).1
    }

    function Line(): nat
      requires Valid()
    {
      PositionAfter(text[..place]).0
    }
  }

  function Erase(e: Plain, from: nat, to: nat): Plain
    requires from <= to <= |e.text|
  {
    e.(text := e.text[..from] + e.text[to..], place := from, mark := NoMark)
  }

  // With a lost end the selection runs from the cursor to the end of the text.
  function EraseSelection(e: Plain): Plain
    requires e.Valid()
  {
    match e.mark
    case NoMark => e
    case MarkAt(m) => if m < e.place then Erase(e, m, e.place) else Erase(e, e.place, m)
    case LostMark => Erase(e, e.place, |e.text|)
  }

  function TypeOne(e: Plain, c: char): Plain
    requires e.Valid()
  {
    e.(text := e.text[..e.place] + [c] + e.text[e.place..], place := e.place + 1, mark := NoMark)
  }

  // A mark at the cursor, which selects nothing, is lost with the character before it.
  function EraseBefore(e: Plain): Plain
    requires e.Valid()
  {
    if e.place == 0 then e
    else Erase(e, e.place - 1, e.place).(mark := if e.mark.NoMark? then NoMark else LostMark)
  }

  function EraseAfter(e: Plain): Plain
    requires e.Valid()
  {
    if e.place == |e.text| then e else Erase(e, e.place, e.place + 1).(mark := e.mark)
  }

  // The column a vertical move aims at.
  function Aim(e: Plain): nat
    requires e.Valid()
  {
    if e.column.Some? then e.column.value else e.Column()
  }

  function LineMove(e: Plain, line: int): Plain
    requires e.Valid()
  {
    var lines := LinesOf(e.text);
    if line < 0 || line >= |lines| then e
    else
      var column := if Aim(e) < |lines[line]| then Aim(e) else |lines[line]|;
      e.(place := Offset(lines, line, column), column := Some(Aim(e)))
  }

  function Step(e: Plain, cmd: Command): Plain
    requires e.Valid()
  {
    match cmd
    case MoveLeft | ShiftLeft => if e.place == 0 then e else e.(place := e.place - 1)
    case MoveRight | ShiftRight => if e.place == |e.text| then e else e.(place := e.place + 1)
    case MoveUp | ShiftUp => LineMove(e, e.Line() - 1)
    case MoveDown | ShiftDown => LineMove(e, e.Line() + 1)
    case _ => e
  }

  function Edit(e: Plain, cmd: Command): Plain
    requires e.Valid()
  {
    match cmd
    case InsertCharacter(c) => TypeOne(e, c)
    case Enter => TypeOne(e, '\n')
    case Backspace => if e.Selecting() then EraseSelection(e) else EraseBefore(e)
    case DeleteForward => if e.Selecting() then EraseSelection(e) else EraseAfter(e)
    case MoveLeft | MoveRight | MoveUp | MoveDown => Step(e.(mark := NoMark), cmd)
    case ShiftLeft | ShiftRight | ShiftUp | ShiftDown =>
      Step(if e.Selecting() then e else e.(mark := MarkAt(e.place)), cmd)
  }

  // Every command but a plain vertical move leaves the cursor aiming at its own column.
  function Press(e: Plain, cmd: Command): Plain
    requires e.Valid()
  {
    var r := Edit(e, cmd);
    if cmd.MoveUp? || cmd.MoveDown? || !r.Valid() then r else r.(column := Some(r.Column()))
  }

  lemma LineMoveStays(e: Plain, line: int)
    requires e.Valid()
    ensures LineMove(e, line).Valid() && LineMove(e, line).text == e.text && LineMove(e, line).mark == e.mark
  {
    var lines := LinesOf(e.text);
    if 0 <= line < |lines| {
      PositionToPlace(e.text, line, if Aim(e) < |lines[line]| then Aim(e) else |lines[line]|);
    }
    hide LinesOf;
    hide Offset;
  }

  lemma PressStaysValid(e: Plain, cmd: Command)
    requires e.Valid()
    ensures Edit(e, cmd).Valid() && Press(e, cmd).Valid()
  {
    var moved, marked := e.(mark := NoMark), if e.Selecting() then e else e.(mark := MarkAt(e.place));
    LineMoveStays(moved, moved.Line() - 1);
    LineMoveStays(moved, moved.Line() + 1);
    LineMoveStays(marked, marked.Line() - 1);
    LineMoveStays(marked, marked.Line() + 1);
    hide LineMove;
  }

  // ----- A session seen as one -----

  ghost function MarkOf(t: Tree, cur: CursorState): Mark
  {
    match cur.selection
    case None => NoMark
    case Some(end) => if Anchored(t, end) then MarkAt(Gap(t, end)) else LostMark
  }

  ghost function PlainOf(s: Session): Plain
  {
    var t := Meaning(s.received);
    Plain(Text(t), Gap(t, s.cursor.anchor), MarkOf(t, s.cursor), s.cursor.desiredColumn)
  }

  lemma PlainIsValid(s: Session, site: string)
    requires SessionValid(s, site)
    ensures PlainOf(s).Valid() && |Text(Meaning(s.received))| == |Visible(Meaning(s.received))|
    ensures PlainOf(s).Selecting() <==> s.cursor.HasSelection()
    ensures Anchored(Meaning(s.received), s.cursor.anchor)
    ensures s.cursor.anchor == AnchorAtGap(Meaning(s.received), PlainOf(s).place)
  {
    ValidIsFunctional(s, site);
    hide SessionValid;
    hide Meaning;
    MarksAndPlaces(Meaning(s.received), s.cursor);
    hide MarkOf;
    hide Anchored;
    hide Gap;
  }

  lemma MarksAndPlaces(t: Tree, cur: CursorState)
    requires Shape(t) && Anchored(t, cur.anchor)
    ensures Gap(t, cur.anchor) <= |Text(t)| == |Visible(t)| && cur.anchor == AnchorAtGap(t, Gap(t, cur.anchor))
    ensures MarkOf(t, cur).MarkAt? ==> MarkOf(t, cur).place <= |Text(t)|
    ensures cur.HasSelection() <==>
              MarkOf(t, cur).LostMark? || (MarkOf(t, cur).MarkAt? && MarkOf(t, cur).place != Gap(t, cur.anchor))
  {
    AnchoredIsPresent(t, cur.anchor);
    hide Shape;
    hide Gap;
    GapOfElement(t, cur.anchor);
    if cur.selection.Some? && Anchored(t, cur.selection.value) {
      GapOfAnchored(t, cur.selection.value);
      if Gap(t, cur.selection.value) == Gap(t, cur.anchor) {
        AnchorFromGap(t, cur.selection.value, cur.anchor);
      }
    }
  }

  lemma GapOfAnchored(t: Tree, n: ElementID)
    requires Shape(t) && Anchored(t, n)
    ensures Gap(t, n) <= |Visible(t)| && AnchorAtGap(t, Gap(t, n)) == n
  {
    AnchoredIsPresent(t, n);
    hide Shape;
    hide Gap;
    GapOfElement(t, n);
  }

  // ----- The desired column -----

  // After every accepted command other than a plain vertical move, the cursor aims at the column it
  // is at.
  lemma AimsAtOwnColumn(s: Session, site: string, cmd: Command)
    requires HandleCommand(s, site, cmd).Ok? && !cmd.MoveUp? && !cmd.MoveDown?
    ensures var r := HandleCommand(s, site, cmd).value;
            r.cursor.desiredColumn == Some(CursorPosition(Meaning(r.received), r.cursor.anchor).1)
  {
    hide Process;
    hide PerformAll;
    hide Meaning;
    hide CursorPosition;
  }

  lemma ColumnOfPlace(t: Tree, n: ElementID)
    requires Gap(t, n) <= |Text(t)|
    ensures CursorPosition(t, n) == PositionAfter(Text(t)[..Gap(t, n)])
  {
    hide Gap;
  }

  // What is left to show once text, place and mark agree.
  lemma SameAsPlain(s: Session, site: string, cmd: Command, e: Plain)
    requires SessionValid(s, site) && e.Valid() && HandleCommand(s, site, cmd).Ok? && !cmd.MoveUp? && !cmd.MoveDown?
    requires var r, q := PlainOf(HandleCommand(s, site, cmd).value), Edit(e, cmd);
             r.text == q.text && r.place == q.place && r.mark == q.mark
    ensures PlainOf(HandleCommand(s, site, cmd).value) == Press(e, cmd)
  {
    PressStaysValid(e, cmd);
    AimsAtOwnColumn(s, site, cmd);
    var r := HandleCommand(s, site, cmd).value;
    hide HandleCommand;
    hide SessionValid;
    hide Edit;
    hide Meaning;
    hide MarkOf;
    ColumnOfPlace(Meaning(r.received), r.cursor.anchor);
    hide CursorPosition;
    hide Gap;
    hide Text;
  }

  // ----- Texts after removals -----

  lemma {:induction false} TextWithout(t: Tree, u: Tree, from: nat, to: nat)
    requires Shape(u) && from <= to <= |Visible(t)| && Visible(u) == Visible(t)[..from] + Visible(t)[to..]
    requires forall x | x in Visible(t) :: u.Char(x) == t.Char(x)
    ensures Text(u) == Text(t)[..from] + Text(t)[to..]
    ensures Gap(u, AnchorAtGap(t, from)) == from && Anchored(u, AnchorAtGap(t, from))
  {
    hide Visible;
    AnchorsAreGaps(u, from);
    hide Shape;
    hide Gap;
    hide Anchored;
    var v, w := Visible(t), Visible(u);
    forall i | 0 <= i < |w| ensures Text(u)[i] == (Text(t)[..from] + Text(t)[to..])[i] {
      assert w[i] == if i < from then v[i] else v[i - from + to];
      assert w[i] in v;
    }
  }

  lemma CharactersStay(s: Session, r: Session, site: string)
    requires SessionValid(s, site) && SessionValid(r, site) && s.received <= r.received
    ensures forall x | x in Visible(Meaning(s.received)) :: Meaning(r.received).Char(x) == Meaning(s.received).Char(x)
  {
    var t, u := Meaning(s.received), Meaning(r.received);
    MoreOperationsExtend(t, s.received, u, r.received);
    hide Represents;
    forall x | x in Visible(t) ensures x in t.elements {
      VisibleMembers(t, x);
    }
    hide Shape;
    hide Visible;
  }

  // ----- The commands -----

  lemma CommandStays(s: Session, site: string, cmd: Command)
    requires SessionValid(s, site) && cmd != InsertCharacter('\0')
    ensures HandleCommand(s, site, cmd).Ok?
    ensures var r := HandleCommand(s, site, cmd).value; SessionValid(r, site) && s.received <= r.received
  {
    hide SessionValid;
    hide HandleCommand;
    hide CommandOps;
    hide Quiet;
    CommandKeeps(s, site, cmd);
  }

  lemma TypingIsPlain(s: Session, site: string, cmd: Command)
    requires SessionValid(s, site) && Types(cmd) && cmd != InsertCharacter('\0')
    ensures PlainOf(s).Valid() && HandleCommand(s, site, cmd).Ok?
    ensures PlainOf(HandleCommand(s, site, cmd).value) == Press(PlainOf(s), cmd)
  {
    hide *;
    TypesNoMove(cmd);
    TypedCommandLands(s, site, cmd);
    TypingDeselects(s, site, cmd);
    PlainIsValid(s, site);
    TypedAgrees(s, site, cmd);
    SameAsPlain(s, site, cmd, PlainOf(s));
  }

  lemma TypesNoMove(cmd: Command)
    ensures Types(cmd) ==> !cmd.MoveUp? && !cmd.MoveDown?
  {
  }

  lemma TypingDeselects(s: Session, site: string, cmd: Command)
    requires SessionValid(s, site) && Types(cmd) && cmd != InsertCharacter('\0')
    ensures HandleCommand(s, site, cmd).Ok? && HandleCommand(s, site, cmd).value.cursor.selection == None
  {
    hide SessionValid;
    hide Meaning;
    hide PerformAll;
    hide CursorPosition;
    TypingStep(s, site, TypedChar(cmd));
  }

  lemma TypedAgrees(s: Session, site: string, cmd: Command)
    requires PlainOf(s).Valid() && Types(cmd) && HandleCommand(s, site, cmd).Ok?
    requires var r := HandleCommand(s, site, cmd).value;
             var t, u, g := Meaning(s.received), Meaning(r.received), Gap(Meaning(s.received), s.cursor.anchor);
             && r.cursor.selection == None && g <= |Visible(t)| && |Text(t)| == |Visible(t)|
             && Text(u) == Text(t)[..g] + [TypedChar(cmd)] + Text(t)[g..] && Gap(u, r.cursor.anchor) == g + 1
    ensures var r, q := PlainOf(HandleCommand(s, site, cmd).value), Edit(PlainOf(s), cmd);
            r.text == q.text && r.place == q.place && r.mark == q.mark
  {
    hide HandleCommand;
    hide Meaning;
    hide Gap;
    hide Text;
    hide Visible;
    hide Anchored;
  }

  // Deleting a selection.
  lemma DeletionIsPlain(s: Session, site: string, cmd: Command)
    requires SessionValid(s, site) && IsDeletion(cmd) && s.cursor.HasSelection()
    ensures PlainOf(s).Valid() && HandleCommand(s, site, cmd).Ok?
    ensures PlainOf(HandleCommand(s, site, cmd).value) == Press(PlainOf(s), cmd)
  {
    hide *;
    NotTyping(cmd);
    CommandStays(s, site, cmd);
    PlainIsValid(s, site);
    var r, t, g := HandleCommand(s, site, cmd).value, Meaning(s.received), PlainOf(s).place;
    CharactersStay(s, r, site);
    PlaceIsGap(s);
    SelectionPlaces(s);
    if Anchored(t, s.cursor.selection.value) {
      var m := Gap(t, s.cursor.selection.value);
      SelectionIsDeleted(s, site, cmd);
      LeastOf(g, m);
      TextWithout(t, Meaning(r.received), if m < g then m else g, if m < g then g else m);
      ErasedAgrees(s, r, cmd, if m < g then m else g, if m < g then g else m);
    } else {
      StaleDeletion(s, site, cmd);
      NothingAfter(Visible(t), g);
      TextWithout(t, Meaning(r.received), g, |Visible(t)|);
      ErasedAgrees(s, r, cmd, g, |Visible(t)|);
    }
    SameAsPlain(s, site, cmd, PlainOf(s));
  }

  lemma NotTyping(cmd: Command)
    ensures IsDeletion(cmd) || IsMove(cmd) ==> cmd != InsertCharacter('\0')
    ensures IsDeletion(cmd) ==> !cmd.MoveUp? && !cmd.MoveDown? && (cmd.Backspace? || cmd.DeleteForward?)
  {
  }

  lemma PlaceIsGap(s: Session)
    ensures PlainOf(s).place == Gap(Meaning(s.received), s.cursor.anchor)
    ensures PlainOf(s).text == Text(Meaning(s.received)) && PlainOf(s).mark == MarkOf(Meaning(s.received), s.cursor)
    ensures PlainOf(s).column == s.cursor.desiredColumn
  {
  }

  lemma SelectionPlaces(s: Session)
    ensures s.cursor.HasSelection() ==>
              && s.cursor.selection.Some?
              && PlainOf(s).mark ==
                 if Anchored(Meaning(s.received), s.cursor.selection.value)
                 then MarkAt(Gap(Meaning(s.received), s.cursor.selection.value)) else LostMark
  {
    hide Gap;
    hide Anchored;
    hide Meaning;
    hide Text;
  }

  lemma LeastOf(a: nat, b: nat)
    ensures Least(a, b) == if b < a then b else a
  {
  }

  lemma NothingAfter<T>(v: seq<T>, g: nat)
    requires g <= |v|
    ensures v[..g] == v[..g] + v[|v|..]
  {
  }

  lemma ErasedAgrees(s: Session, r: Session, cmd: Command, from: nat, to: nat)
    requires PlainOf(s).Valid() && PlainOf(s).Selecting() && IsDeletion(cmd) && from <= to <= |PlainOf(s).text|
    requires match PlainOf(s).mark
             case NoMark => false
             case MarkAt(m) => from == (if m < PlainOf(s).place then m else PlainOf(s).place)
                               && to == (if m < PlainOf(s).place then PlainOf(s).place else m)
             case LostMark => from == PlainOf(s).place && to == |PlainOf(s).text|
    requires Text(Meaning(r.received)) == PlainOf(s).text[..from] + PlainOf(s).text[to..]
    requires Gap(Meaning(r.received), r.cursor.anchor) == from && r.cursor.selection == None
    ensures var p, q := PlainOf(r), Edit(PlainOf(s), cmd); p.text == q.text && p.place == q.place && p.mark == q.mark
  {
    hide Meaning;
    hide Gap;
    hide Text;
    hide Anchored;
    var e := PlainOf(s);
    PlaceIsGap(r);
    assert MarkOf(Meaning(r.received), r.cursor) == NoMark;
    hide PlainOf;
    hide MarkOf;
  }

  // Deleting one character.
  lemma {:induction false} PerformingKeepsSelection(s: Session, site: string, ops: seq<Operation>)
    ensures PerformAll(s, site, ops).cursor.selection == s.cursor.selection
  {
    hide Meaning;
    hide VisiblePredecessor;
    if ops != [] {
      PerformingKeepsSelection(s, site, ops[..|ops| - 1]);
    }
  }

  // A fixed end at the cursor, which selects nothing, when the text loses the characters from one
  // place to another.
  lemma CollapsedMark(t: Tree, u: Tree, cur: CursorState, from: nat, to: nat)
    requires Shape(t) && Shape(u) && Anchored(t, cur.anchor) && !cur.HasSelection()
    requires from <= to <= |Visible(t)| && Visible(u) == Visible(t)[..from] + Visible(t)[to..]
    requires var g := Gap(t, cur.anchor); g == from || g == to
    ensures var g := Gap(t, cur.anchor);
            && MarkOf(t, cur) == (if cur.selection.None? then NoMark else MarkAt(g))
            && MarkOf(u, cur) == if cur.selection.None? then NoMark else if g == from then MarkAt(from) else LostMark
  {
    var n, g, v := cur.anchor, Gap(t, cur.anchor), Visible(t);
    hide Shape;
    hide Visible;
    GapOfAnchored(t, n);
    VisibleMembers(t, n);
    if g == from {
      AnchorsAreGaps(u, from);
    } else {
      VisibleMembers(u, n);
      VisibleMembers(t, ROOT_ID);
      assert v[g - 1] == n && v[g - 1] in v;
      OneCutOut(v, from, to);
    }
    hide Gap;
    hide Anchored;
  }

  lemma OneCutOut<T>(v: seq<T>, from: nat, to: nat)
    requires NoDuplicates(v) && from < to <= |v|
    ensures v[to - 1] !in v[..from] + v[to..]
  {
  }

  lemma OneErasedIsPlain(s: Session, site: string, cmd: Command)
    requires SessionValid(s, site) && IsDeletion(cmd) && !s.cursor.HasSelection()
    ensures PlainOf(s).Valid() && HandleCommand(s, site, cmd).Ok?
    ensures PlainOf(HandleCommand(s, site, cmd).value) == Press(PlainOf(s), cmd)
  {
    hide *;
    NotTyping(cmd);
    CommandStays(s, site, cmd);
    ValidIsFunctional(s, site);
    PlainIsValid(s, site);
    PlaceIsGap(s);
    var r, t, g := HandleCommand(s, site, cmd).value, Meaning(s.received), PlainOf(s).place;
    CharactersStay(s, r, site);
    DeletedOne(s, site, cmd);
    var from, to := ErasedFrom(PlainOf(s), cmd), ErasedTo(PlainOf(s), cmd);
    ErasedInText(PlainOf(s), cmd);
    TextWithout(t, Meaning(r.received), from, to);
    CollapsedMark(t, Meaning(r.received), s.cursor, from, to);
    OneErasedAgrees(s, r, cmd, from, to);
    SameAsPlain(s, site, cmd, PlainOf(s));
  }

  // What is erased when nothing is selected.
  function ErasedFrom(e: Plain, cmd: Command): nat
  {
    if cmd.Backspace? && e.place > 0 then e.place - 1 else e.place
  }

  function ErasedTo(e: Plain, cmd: Command): nat
  {
    if cmd.DeleteForward? && e.place < |e.text| then e.place + 1 else e.place
  }

  lemma ErasedInText(e: Plain, cmd: Command)
    requires e.Valid() && IsDeletion(cmd)
    ensures ErasedFrom(e, cmd) <= ErasedTo(e, cmd) <= |e.text|
    ensures e.place == ErasedFrom(e, cmd) || e.place == ErasedTo(e, cmd)
  {
  }

  lemma DeletedOne(s: Session, site: string, cmd: Command)
    requires SessionValid(s, site) && IsDeletion(cmd) && !s.cursor.HasSelection() && PlainOf(s).Valid()
    requires |Visible(Meaning(s.received))| == |PlainOf(s).text|
    ensures HandleCommand(s, site, cmd).Ok?
    ensures var t, r := Meaning(s.received), HandleCommand(s, site, cmd).value;
            var from, to := ErasedFrom(PlainOf(s), cmd), ErasedTo(PlainOf(s), cmd);
            && from <= to <= |Visible(t)|
            && Visible(Meaning(r.received)) == Visible(t)[..from] + Visible(t)[to..]
            && r.cursor.anchor == AnchorAtGap(t, from) && r.cursor.selection == s.cursor.selection
  {
    PlaceIsGap(s);
    hide SessionValid;
    hide Meaning;
    hide PlainOf;
    hide Gap;
    hide Visible;
    hide AnchorAtGap;
    hide HandleCommand;
    if cmd.Backspace? {
      DeletedBefore(s, site);
    } else {
      DeletedAfter(s, site);
    }
  }

  lemma DeletedBefore(s: Session, site: string)
    requires SessionValid(s, site) && !s.cursor.HasSelection()
    ensures HandleCommand(s, site, Backspace).Ok?
    ensures var t, r := Meaning(s.received), HandleCommand(s, site, Backspace).value;
            var g := Gap(t, s.cursor.anchor);
            var from := if g > 0 then g - 1 else g;
            && g <= |Visible(t)| && Visible(Meaning(r.received)) == Visible(t)[..from] + Visible(t)[g..]
            && r.cursor.anchor == AnchorAtGap(t, from) && r.cursor.selection == s.cursor.selection
  {
    hide SessionValid;
    hide Meaning;
    hide Gap;
    hide Visible;
    hide AnchorAtGap;
    hide HandleCommand;
    hide PerformAll;
    hide VisiblePredecessor;
    hide CursorPosition;
    var v := Visible(Meaning(s.received));
    assert v[..0] + v[0..] == v;
    var cur := s.cursor.(anchor := VisiblePredecessor(Meaning(s.received), s.cursor.anchor));
    BackspaceRemovesBefore(s, site);
    PerformingKeepsSelection(s.(cursor := cur), site, [Remove(s.cursor.anchor)]);
  }

  lemma DeletedAfter(s: Session, site: string)
    requires SessionValid(s, site) && !s.cursor.HasSelection()
    ensures HandleCommand(s, site, DeleteForward).Ok?
    ensures var t, r := Meaning(s.received), HandleCommand(s, site, DeleteForward).value;
            var g := Gap(t, s.cursor.anchor);
            var to := if g < |Visible(t)| then g + 1 else g;
            && g <= |Visible(t)| && Visible(Meaning(r.received)) == Visible(t)[..g] + Visible(t)[to..]
            && r.cursor.anchor == AnchorAtGap(t, g) && r.cursor.selection == s.cursor.selection
  {
    ValidIsFunctional(s, site);
    hide SessionValid;
    hide Meaning;
    hide Shape;
    hide Gap;
    hide Visible;
    hide Anchored;
    hide AnchorAtGap;
    hide HandleCommand;
    GapOfAnchored(Meaning(s.received), s.cursor.anchor);
    var v := Visible(Meaning(s.received));
    assert v[..|v|] + v[|v|..] == v;
    DeleteForwardRemovesAfter(s, site);
  }

  lemma OneErasedAgrees(s: Session, r: Session, cmd: Command, from: nat, to: nat)
    requires PlainOf(s).Valid() && !PlainOf(s).Selecting() && IsDeletion(cmd) && from <= to <= |PlainOf(s).text|
    requires from == ErasedFrom(PlainOf(s), cmd) && to == ErasedTo(PlainOf(s), cmd)
    requires Text(Meaning(r.received)) == PlainOf(s).text[..from] + PlainOf(s).text[to..]
    requires Gap(Meaning(r.received), r.cursor.anchor) == from && r.cursor.selection == s.cursor.selection
    requires PlainOf(s).mark == (if s.cursor.selection.None? then NoMark else MarkAt(PlainOf(s).place))
    requires MarkOf(Meaning(r.received), s.cursor) ==
             if s.cursor.selection.None? then NoMark else if PlainOf(s).place == from then MarkAt(from) else LostMark
    ensures var p, q := PlainOf(r), Edit(PlainOf(s), cmd); p.text == q.text && p.place == q.place && p.mark == q.mark
  {
    hide Meaning;
    hide Gap;
    hide Text;
    hide Anchored;
    var e := PlainOf(s);
    PlaceIsGap(r);
    SameMark(Meaning(r.received), r.cursor, s.cursor);
    hide PlainOf;
    hide MarkOf;
    assert e.text[..e.place] + e.text[e.place..] == e.text;
  }

  lemma SameMark(t: Tree, cur: CursorState, other: CursorState)
    requires cur.selection == other.selection
    ensures MarkOf(t, cur) == MarkOf(t, other)
  {
  }

  // ----- Moving -----

  lemma MoveEffect(s: Session, site: string, cmd: Command)
    requires IsMove(cmd)
    ensures HandleCommand(s, site, cmd).Ok?
    ensures var t, r := Meaning(s.received), HandleCommand(s, site, cmd).value;
            var from := if IsPlainMove(cmd) then s.cursor.(selection := None) else StartSelection(s.cursor);
            && r == s.(cursor := r.cursor) && r.cursor.anchor == Moved(t, from, cmd).anchor
            && r.cursor.selection == from.selection
            && (cmd.MoveUp? || cmd.MoveDown? ==> r.cursor == Moved(t, from, cmd))
  {
    MovesKeepSelection(Meaning(s.received), s.cursor.(selection := None), cmd);
    MovesKeepSelection(Meaning(s.received), StartSelection(s.cursor), cmd);
    hide Meaning;
    hide Moved;
    hide CursorPosition;
  }

  // Where a move leads, seen as places.
  lemma MovedPlace(t: Tree, cur: CursorState, cmd: Command, e: Plain)
    requires Shape(t) && Anchored(t, cur.anchor) && IsMove(cmd) && e.Valid()
    requires e.text == Text(t) && e.place == Gap(t, cur.anchor) && e.column == cur.desiredColumn
    ensures Gap(t, Moved(t, cur, cmd).anchor) == Step(e, cmd).place
    ensures Moved(t, cur, cmd).desiredColumn == Step(e, cmd).column
  {
    hide *;
    MoveKinds(cmd);
    if cmd.MoveLeft? || cmd.ShiftLeft? || cmd.MoveRight? || cmd.ShiftRight? {
      SidewaysPlace(t, cur, cmd, e);
    } else {
      VerticalPlace(t, cur, cmd, e);
    }
  }

  lemma MoveKinds(cmd: Command)
    ensures IsMove(cmd) <==>
              || cmd.MoveLeft? || cmd.ShiftLeft? || cmd.MoveRight? || cmd.ShiftRight?
              || cmd.MoveUp? || cmd.ShiftUp? || cmd.MoveDown? || cmd.ShiftDown?
  {
  }

  lemma VerticalPlace(t: Tree, cur: CursorState, cmd: Command, e: Plain)
    requires Shape(t) && Anchored(t, cur.anchor) && e.Valid()
    requires cmd.MoveUp? || cmd.ShiftUp? || cmd.MoveDown? || cmd.ShiftDown?
    requires e.text == Text(t) && e.place == Gap(t, cur.anchor) && e.column == cur.desiredColumn
    ensures Gap(t, Moved(t, cur, cmd).anchor) == Step(e, cmd).place
    ensures Moved(t, cur, cmd).desiredColumn == Step(e, cmd).column
  {
    hide Shape;
    hide Anchored;
    hide ToLine;
    hide LineMove;
    hide CursorPosition;
    hide Gap;
    hide Text;
    ColumnOfPlace(t, cur.anchor);
    var line := CursorPosition(t, cur.anchor).0;
    NoLineAbove(e);
    LinePlace(t, cur, line + 1, e);
    if line > 0 {
      LinePlace(t, cur, line - 1, e);
    }
  }

  lemma NoLineAbove(e: Plain)
    requires e.Valid()
    ensures LineMove(e, -1) == e
  {
  }

  lemma SidewaysPlace(t: Tree, cur: CursorState, cmd: Command, e: Plain)
    requires Shape(t) && Anchored(t, cur.anchor) && e.Valid()
    requires cmd.MoveLeft? || cmd.ShiftLeft? || cmd.MoveRight? || cmd.ShiftRight?
    requires e.text == Text(t) && e.place == Gap(t, cur.anchor) && e.column == cur.desiredColumn
    ensures Gap(t, Moved(t, cur, cmd).anchor) == Step(e, cmd).place
    ensures Moved(t, cur, cmd).desiredColumn == Step(e, cmd).column
  {
    hide Shape;
    hide Anchored;
    hide Gap;
    hide VisiblePredecessor;
    hide VisibleSuccessor;
    SidewaysMoves(t, cur);
    SameLength(t);
    hide Visible;
    hide Text;
  }

  lemma LinePlace(t: Tree, cur: CursorState, line: nat, e: Plain)
    requires Shape(t) && Anchored(t, cur.anchor) && e.Valid()
    requires e.text == Text(t) && e.place == Gap(t, cur.anchor) && e.column == cur.desiredColumn
    ensures Gap(t, ToLine(t, cur, line).anchor) == LineMove(e, line).place
    ensures ToLine(t, cur, line).desiredColumn == LineMove(e, line).column
  {
    hide *;
    ValidPlace(e);
    ColumnOfPlace(t, cur.anchor);
    LineMoveIs(e, line);
    if line < |LinesOf(Text(t))| {
      LineMoveLands(t, cur, line);
      var n := ToLine(t, cur, line).anchor;
      GapOfAnchored(t, n);
      SameLength(t);
      ColumnOfPlace(t, n);
      PlaceToPosition(Text(t), Gap(t, n));
      LeastOf(Aim(e), |LinesOf(Text(t))[line]|);
    } else {
      NoSuchLine(t, cur, line);
    }
  }

  lemma LineMoveIs(e: Plain, line: nat)
    requires e.Valid()
    ensures Aim(e) == if e.column.Some? then e.column.value else PositionAfter(e.text[..e.place]).1
    ensures var lines := LinesOf(e.text);
            if line >= |lines| then LineMove(e, line) == e
            else
              && LineMove(e, line).column == Some(Aim(e))
              && LineMove(e, line).place ==
                 Offset(lines, line, if Aim(e) < |lines[line]| then Aim(e) else |lines[line]|)
  {
    hide LinesOf;
    hide Offset;
    hide PositionAfter;
  }

  lemma NoSuchLine(t: Tree, cur: CursorState, line: nat)
    requires line >= |LinesOf(Text(t))|
    ensures ToLine(t, cur, line) == cur
  {
    hide LinesOf;
    hide Text;
  }

  lemma MoveIsPlain(s: Session, site: string, cmd: Command)
    requires SessionValid(s, site) && IsMove(cmd)
    ensures PlainOf(s).Valid() && HandleCommand(s, site, cmd).Ok?
    ensures PlainOf(HandleCommand(s, site, cmd).value) == Press(PlainOf(s), cmd)
  {
    hide *;
    NotTyping(cmd);
    PlainIsValid(s, site);
    ValidIsFunctional(s, site);
    MoveEffect(s, site, cmd);
    PlaceIsGap(s);
    var t, r := Meaning(s.received), HandleCommand(s, site, cmd).value;
    var from := if IsPlainMove(cmd) then s.cursor.(selection := None) else StartSelection(s.cursor);
    var e := Departs(PlainOf(s), cmd);
    DepartsPlain(PlainOf(s), cmd);
    DepartingMark(t, s.cursor, PlainOf(s), cmd);
    MovedPlace(t, from, cmd, e);
    PlaceIsGap(r);
    SameMark(t, r.cursor, from);
    StepKeepsMark(e, cmd);
    PressStaysValid(PlainOf(s), cmd);
    if cmd.MoveUp? || cmd.MoveDown? {
      VerticalPress(PlainOf(s), cmd);
      SamePlain(PlainOf(r), Step(e, cmd));
    } else {
      SameAsPlain(s, site, cmd, PlainOf(s));
    }
  }

  // The plain editor just before the step of a move.
  function Departs(e: Plain, cmd: Command): Plain
  {
    if IsPlainMove(cmd) then e.(mark := NoMark) else if e.Selecting() then e else e.(mark := MarkAt(e.place))
  }

  lemma DepartsPlain(e: Plain, cmd: Command)
    requires e.Valid() && IsMove(cmd)
    ensures var d := Departs(e, cmd);
            d.Valid() && d.text == e.text && d.place == e.place && d.column == e.column && Edit(e, cmd) == Step(d, cmd)
  {
    hide LineMove;
  }

  lemma StepKeepsMark(e: Plain, cmd: Command)
    requires e.Valid()
    ensures Step(e, cmd).mark == e.mark && Step(e, cmd).text == e.text
  {
    LineMoveStays(e, e.Line() - 1);
    LineMoveStays(e, e.Line() + 1);
    hide LineMove;
  }

  lemma VerticalPress(e: Plain, cmd: Command)
    requires e.Valid() && (cmd.MoveUp? || cmd.MoveDown?)
    ensures Press(e, cmd) == Edit(e, cmd)
  {
    hide Edit;
  }

  lemma SamePlain(a: Plain, b: Plain)
    requires a.text == b.text && a.place == b.place && a.mark == b.mark && a.column == b.column
    ensures a == b
  {
  }

  lemma DepartingMark(t: Tree, cur: CursorState, e: Plain, cmd: Command)
    requires Shape(t) && Anchored(t, cur.anchor) && e.mark == MarkOf(t, cur) && e.place == Gap(t, cur.anchor)
    requires e.Selecting() <==> cur.HasSelection()
    ensures var from := if IsPlainMove(cmd) then cur.(selection := None) else StartSelection(cur);
            && from.anchor == cur.anchor && from.desiredColumn == cur.desiredColumn
            && MarkOf(t, from) == Departs(e, cmd).mark
  {
    hide Shape;
    hide Gap;
    hide Anchored;
  }

  // ----- The whole -----

  // Pressing a key in a session, whatever its document has been through, is pressing it in a plain
  // editor that shows the same text.
  lemma CommandIsPlain(s: Session, site: string, cmd: Command)
    requires SessionValid(s, site) && cmd != InsertCharacter('\0')
    ensures PlainOf(s).Valid() && HandleCommand(s, site, cmd).Ok?
    ensures PlainOf(HandleCommand(s, site, cmd).value) == Press(PlainOf(s), cmd)
  {
    hide *;
    CommandKinds(cmd);
    if Types(cmd) {
      TypingIsPlain(s, site, cmd);
    } else if IsDeletion(cmd) {
      if s.cursor.HasSelection() {
        DeletionIsPlain(s, site, cmd);
      } else {
        OneErasedIsPlain(s, site, cmd);
      }
    } else {
      MoveIsPlain(s, site, cmd);
    }
  }

  lemma CommandKinds(cmd: Command)
    ensures Types(cmd) || IsDeletion(cmd) || IsMove(cmd)
  {
  }

  function PressAll(e: Plain, cmds: seq<Command>): Plain
    requires e.Valid()
    decreases cmds
  {
    if cmds == [] then e
    else
      PressStaysValid(e, cmds[0]);
      PressAll(Press(e, cmds[0]), cmds[1..])
  }

  // The same for any number of commands.
  lemma {:induction false} CommandsArePlain(s: Session, site: string, cmds: seq<Command>, r: Session)
    requires SessionValid(s, site) && CommandsLead(s, site, cmds, r)
    ensures SessionValid(r, site) && PlainOf(s).Valid() && PlainOf(r) == PressAll(PlainOf(s), cmds)
    decreases cmds
  {
    hide SessionValid;
    hide HandleCommand;
    hide PlainOf;
    hide Press;
    PlainIsValid(s, site);
    if cmds != [] {
      var next := HandleCommand(s, site, cmds[0]).value;
      ZeroIsRefused(s, site);
      CommandIsPlain(s, site, cmds[0]);
      CommandStays(s, site, cmds[0]);
      CommandsArePlain(next, site, cmds[1..], r);
    }
  }

  lemma ZeroIsRefused(s: Session, site: string)
    ensures HandleCommand(s, site, InsertCharacter('\0')).Throws?
  {
    hide Meaning;
    hide PerformAll;
    hide CursorPosition;
  }

  // So the commands a client has entered before it hears of anyone else settle its text, its cursor,
  // what is selected and the column aimed at: they are those of a plain editor that began empty.
  lemma FreshSessionIsPlain(site: string, cmds: seq<Command>, r: Session)
    requires CommandsLead(FreshSession, site, cmds, r)
    ensures PlainOf(r) == PressAll(Plain("", 0, NoMark, None), cmds)
  {
    hide *;
    FreshSessionValid(site);
    FreshText();
    FreshPlain();
    CommandsArePlain(FreshSession, site, cmds, r);
  }

  lemma FreshPlain()
    requires Visible(Meaning(FreshSession.received)) == []
    requires Gap(Meaning(FreshSession.received), FreshSession.cursor.anchor) == 0
    ensures PlainOf(FreshSession) == Plain("", 0, NoMark, None)
  {
    SameLength(Meaning(FreshSession.received));
    hide Meaning;
    hide Visible;
    hide Gap;
    hide Text;
  }

  // ----- A selection that came to nothing -----

  // The fixed end is lost exactly when Backspace takes away the character it stands at, which only
  // happens when it stands at the cursor and so selects nothing; moving on with shift keeps it lost.
  lemma MarkIsLostExactly(e: Plain, cmd: Command)
    requires e.Valid()
    ensures Press(e, cmd).mark.LostMark? <==>
              || (cmd.Backspace? && e.mark == MarkAt(e.place) && e.place > 0)
              || (e.mark.LostMark? && (cmd.ShiftLeft? || cmd.ShiftRight? || cmd.ShiftUp? || cmd.ShiftDown?))
  {
    hide LineMove;
    hide PositionAfter;
    hide Press;
    PressKeepsMark(e, cmd);
    if IsMove(cmd) {
      PressStaysValid(e, cmd);
      DepartsPlain(e, cmd);
      StepKeepsMark(Departs(e, cmd), cmd);
      hide Step;
      hide Edit;
    }
  }

  lemma PressKeepsMark(e: Plain, cmd: Command)
    requires e.Valid()
    ensures Press(e, cmd).mark == Edit(e, cmd).mark
  {
    hide Edit;
  }

  lemma FourPresses(e: Plain, a: Command, b: Command, c: Command, d: Command)
    requires e.Valid()
    ensures Press(e, a).Valid() && Press(Press(e, a), b).Valid() && Press(Press(Press(e, a), b), c).Valid()
    ensures PressAll(e, [a, b, c, d]) == Press(Press(Press(Press(e, a), b), c), d)
  {
    hide Press;
    PressStaysValid(e, a);
    PressStaysValid(Press(e, a), b);
    PressStaysValid(Press(Press(e, a), b), c);
    PressStaysValid(Press(Press(Press(e, a), b), c), d);
    var e1, e2, e3 := Press(e, a), Press(Press(e, a), b), Press(Press(Press(e, a), b), c);
    var cmds := [a, b, c, d];
    assert cmds[1..] == [b, c, d] && [b, c, d][1..] == [c, d] && [c, d][1..] == [d] && [d][1..] == [];
    assert PressAll(e3, [d]) == PressAll(Press(e3, d), []) == Press(e3, d);
    assert PressAll(e2, [c, d]) == PressAll(e3, [d]) && PressAll(e1, [b, c, d]) == PressAll(e2, [c, d]);
  }

  // A step right with shift and one back, with nothing selected before.
  lemma ThereAndBackSelectsNothing(e: Plain)
    requires e.Valid() && !e.Selecting() && e.place < |e.text|
    ensures Press(e, ShiftRight).Valid()
    ensures var back := Press(Press(e, ShiftRight), ShiftLeft);
            back.Valid() && back.text == e.text && back.place == e.place && back.mark == MarkAt(e.place)
  {
    hide PositionAfter;
    hide LineMove;
  }

  lemma BackspaceLosesMark(e: Plain)
    requires e.Valid() && e.mark == MarkAt(e.place) && e.place > 0
    ensures var r := Press(e, Backspace);
            && r.Valid() && r.text == e.text[..e.place - 1] + e.text[e.place..] && r.place == e.place - 1
            && r.mark == LostMark
  {
    hide PositionAfter;
  }

  lemma LostMarkTakesTheRest(e: Plain)
    requires e.Valid() && e.mark == LostMark
    ensures Press(e, Backspace).text == e.text[..e.place]
  {
    hide PositionAfter;
    assert e.text[..e.place] + e.text[|e.text|..] == e.text[..e.place];
  }

  lemma CollapsedPresses(e: Plain)
    requires e.Valid() && !e.Selecting() && 0 < e.place < |e.text|
    ensures PressAll(e, [ShiftRight, ShiftLeft, Backspace, Backspace]).text == e.text[..e.place - 1]
  {
    hide Press;
    hide PressAll;
    FourPresses(e, ShiftRight, ShiftLeft, Backspace, Backspace);
    ThereAndBackSelectsNothing(e);
    var back := Press(Press(e, ShiftRight), ShiftLeft);
    BackspaceLosesMark(back);
    LostMarkTakesTheRest(Press(back, Backspace));
  }

  lemma {:induction false} CommandsCanBeGiven(s: Session, site: string, cmds: seq<Command>) returns (r: Session)
    requires SessionValid(s, site) && InsertCharacter('\0') !in cmds
    ensures CommandsLead(s, site, cmds, r)
    decreases cmds
  {
    hide SessionValid;
    hide HandleCommand;
    if cmds == [] {
      r := s;
    } else {
      assert cmds[0] in cmds && forall c | c in cmds[1..] :: c in cmds;
      CommandStays(s, site, cmds[0]);
      r := CommandsCanBeGiven(HandleCommand(s, site, cmds[0]).value, site, cmds[1..]);
    }
  }

  // In any session with nothing selected and the cursor inside the text: one step right and one left
  // with shift select nothing, Backspace takes away one character, and the next Backspace takes away
  // everything after the cursor. No one else is involved.
  lemma CollapsedSelectionDeletesTheRest(s: Session, site: string) returns (r: Session)
    requires SessionValid(s, site) && !s.cursor.HasSelection()
    requires var t := Meaning(s.received); 0 < Gap(t, s.cursor.anchor) < |Text(t)|
    ensures CommandsLead(s, site, [ShiftRight, ShiftLeft, Backspace, Backspace], r)
    ensures Text(Meaning(r.received)) == Text(Meaning(s.received))[..Gap(Meaning(s.received), s.cursor.anchor) - 1]
  {
    hide *;
    var cmds := [ShiftRight, ShiftLeft, Backspace, Backspace];
    r := CommandsCanBeGiven(s, site, cmds);
    PlainIsValid(s, site);
    PlaceIsGap(s);
    PlaceIsGap(r);
    CommandsArePlain(s, site, cmds, r);
    CollapsedPresses(PlainOf(s));
  }

  // ----- What a command sends -----

  lemma {:induction false} SentInOrder(site: string, ops: seq<Operation>)
    ensures |Sent(site, ops)| == |ops|
    ensures forall i | 0 <= i < |ops| :: Sent(site, ops)[i] == OperationMessage(site, ops[i])
  {
    if ops != [] {
      SentInOrder(site, ops[..|ops| - 1]);
    }
  }

  lemma EffectIsSent(s: Session, site: string, cmd: Command, effect: Effect)
    requires Process(Meaning(s.received), s.cursor, s.clock, site, cmd) == Ok(effect)
    ensures HandleCommand(s, site, cmd).Ok?
    ensures var r := HandleCommand(s, site, cmd).value;
            r.outgoing == s.outgoing + Sent(site, effect.ops) && r.clock == effect.clock && r.pending == s.pending
  {
    hide Meaning;
    hide Process;
    hide CursorPosition;
    PerformAllReceives(s.(cursor := effect.cursor, clock := effect.clock), site, effect.ops);
    hide PerformAll;
  }

  // What is taken from the text by a deletion, as places.
  function TakenFrom(e: Plain, cmd: Command): nat
    requires e.Valid()
  {
    if !e.Selecting() then ErasedFrom(e, cmd) else if e.mark.MarkAt? && e.mark.place < e.place
      then e.mark.place else e.place
  }

  function TakenTo(e: Plain, cmd: Command): nat
    requires e.Valid()
  {
    if !e.Selecting() then ErasedTo(e, cmd)
    else if e.mark.LostMark? then |e.text|
    else if e.mark.MarkAt? && e.mark.place > e.place then e.mark.place else e.place
  }

  // A deletion sends one removal for each character it takes away, in the order of the text; at the
  // start of the document Backspace sends a removal of the root.
  lemma DeletionSends(s: Session, site: string, cmd: Command)
    requires SessionValid(s, site) && IsDeletion(cmd)
    ensures HandleCommand(s, site, cmd).Ok? && PlainOf(s).Valid()
    ensures var t, e, r := Meaning(s.received), PlainOf(s), HandleCommand(s, site, cmd).value;
            var from, to := TakenFrom(e, cmd), TakenTo(e, cmd);
            && from <= to <= |Visible(t)| && r.clock == s.clock && s.outgoing <= r.outgoing
            && var told := r.outgoing[|s.outgoing|..];
               if cmd.Backspace? && !e.Selecting() && e.place == 0
                 then told == [OperationMessage(site, Remove(ROOT_ID))]
               else |told| == to - from &&
                    forall i | 0 <= i < to - from :: told[i] == OperationMessage(site, Remove(Visible(t)[from + i]))
  {
    hide *;
    PlainIsValid(s, site);
    PlaceIsGap(s);
    ValidIsFunctional(s, site);
    DeletionOps(s, site, cmd);
    var ops := TakenOps(Meaning(s.received), PlainOf(s), cmd);
    TakenOpsAre(Meaning(s.received), PlainOf(s), cmd);
    EffectIsSent(s, site, cmd, Process(Meaning(s.received), s.cursor, s.clock, site, cmd).value);
    SentInOrder(site, ops);
    TailOf(s.outgoing, Sent(site, ops));
  }

  lemma TailOf<T>(a: seq<T>, b: seq<T>)
    ensures a <= a + b && (a + b)[|a|..] == b
  {
  }

  // The operations of a deletion, with something selected and without.
  ghost function TakenOps(t: Tree, e: Plain, cmd: Command): seq<Operation>
    requires e.Valid() && |e.text| == |Visible(t)|
  {
    if cmd.Backspace? && !e.Selecting() && e.place == 0 then [Remove(ROOT_ID)]
    else if TakenFrom(e, cmd) <= TakenTo(e, cmd) <= |Visible(t)|
    then RemoveEach(Visible(t)[TakenFrom(e, cmd)..TakenTo(e, cmd)]) else []
  }

  lemma TakenOpsAre(t: Tree, e: Plain, cmd: Command)
    requires e.Valid() && |e.text| == |Visible(t)| && TakenFrom(e, cmd) <= TakenTo(e, cmd) <= |Visible(t)|
    ensures var from, to, ops := TakenFrom(e, cmd), TakenTo(e, cmd), TakenOps(t, e, cmd);
            if cmd.Backspace? && !e.Selecting() && e.place == 0 then ops == [Remove(ROOT_ID)]
            else |ops| == to - from && forall i | 0 <= i < to - from :: ops[i] == Remove(Visible(t)[from + i])
  {
    hide Visible;
  }

  lemma DeletionOps(s: Session, site: string, cmd: Command)
    requires SessionValid(s, site) && IsDeletion(cmd) && PlainOf(s).Valid()
    requires PlainOf(s).Selecting() <==> s.cursor.HasSelection()
    requires |PlainOf(s).text| == |Visible(Meaning(s.received))|
    ensures TakenFrom(PlainOf(s), cmd) <= TakenTo(PlainOf(s), cmd) <= |Visible(Meaning(s.received))|
    ensures var effect := Process(Meaning(s.received), s.cursor, s.clock, site, cmd);
            && effect.Ok? && effect.value.ops == TakenOps(Meaning(s.received), PlainOf(s), cmd)
            && effect.value.clock == s.clock
  {
    ValidIsFunctional(s, site);
    PlaceIsGap(s);
    SelectionPlaces(s);
    hide SessionValid;
    hide PlainOf;
    hide Meaning;
    if s.cursor.HasSelection() {
      SelectedOps(Meaning(s.received), s.cursor, s.clock, site, cmd, PlainOf(s));
    } else {
      SingleOps(Meaning(s.received), s.cursor, s.clock, site, cmd, PlainOf(s));
    }
  }

  lemma SelectedOps(t: Tree, cur: CursorState, clock: nat, site: string, cmd: Command, e: Plain)
    requires Shape(t) && Anchored(t, cur.anchor) && IsDeletion(cmd) && e.Valid() && cur.HasSelection() && e.Selecting()
    requires |e.text| == |Visible(t)| && e.place == Gap(t, cur.anchor)
    requires e.mark == if Anchored(t, cur.selection.value) then MarkAt(Gap(t, cur.selection.value)) else LostMark
    ensures TakenFrom(e, cmd) <= TakenTo(e, cmd) <= |Visible(t)|
    ensures var effect := Process(t, cur, clock, site, cmd);
            effect.Ok? && effect.value.ops == TakenOps(t, e, cmd) && effect.value.clock == clock
  {
    hide *;
    HasEnd(cur);
    ValidPlace(e);
    if Anchored(t, cur.selection.value) {
      SelectionEffect(t, cur, clock);
      LeastOf(Gap(t, cur.anchor), Gap(t, cur.selection.value));
    } else {
      StaleEffect(t, cur, clock);
      NothingAfter(Visible(t), e.place);
      RestIsSlice(Visible(t), e.place);
    }
    DeletionProcess(t, cur, clock, site, cmd);
    TakenWhenSelecting(t, e, cmd);
  }

  lemma HasEnd(cur: CursorState)
    ensures cur.HasSelection() ==> cur.selection.Some?
  {
  }

  lemma ValidPlace(e: Plain)
    ensures e.Valid() ==> e.place <= |e.text|
  {
  }

  lemma RestIsSlice<T>(v: seq<T>, g: nat)
    requires g <= |v|
    ensures v[g..|v|] == v[g..]
  {
  }

  lemma DeletionProcess(t: Tree, cur: CursorState, clock: nat, site: string, cmd: Command)
    requires cur.HasSelection() && IsDeletion(cmd)
    ensures Process(t, cur, clock, site, cmd) == Ok(DeleteSelection(t, cur, clock))
  {
    hide DeleteSelection;
  }

  lemma TakenWhenSelecting(t: Tree, e: Plain, cmd: Command)
    requires e.Valid() && e.Selecting() && |e.text| == |Visible(t)|
    ensures TakenFrom(e, cmd) <= TakenTo(e, cmd) <= |Visible(t)|
    ensures TakenOps(t, e, cmd) == RemoveEach(Visible(t)[TakenFrom(e, cmd)..TakenTo(e, cmd)])
    ensures e.mark.LostMark? ==> TakenFrom(e, cmd) == e.place && TakenTo(e, cmd) == |Visible(t)|
    ensures e.mark.MarkAt? ==>
              && TakenFrom(e, cmd) == (if e.mark.place < e.place then e.mark.place else e.place)
              && TakenTo(e, cmd) == if e.mark.place < e.place then e.place else e.mark.place
  {
    hide Visible;
  }

  lemma SingleOps(t: Tree, cur: CursorState, clock: nat, site: string, cmd: Command, e: Plain)
    requires Shape(t) && Anchored(t, cur.anchor) && IsDeletion(cmd) && e.Valid() && !cur.HasSelection()
             && !e.Selecting()
    requires |e.text| == |Visible(t)| && e.place == Gap(t, cur.anchor)
    ensures TakenFrom(e, cmd) <= TakenTo(e, cmd) <= |Visible(t)|
    ensures var effect := Process(t, cur, clock, site, cmd);
            effect.Ok? && effect.value.ops == TakenOps(t, e, cmd) && effect.value.clock == clock
  {
    hide Shape;
    hide Gap;
    hide Visible;
    BackspaceGap(t, cur.anchor);
    hide Anchored;
    hide VisiblePredecessor;
    if cmd.Backspace? {
      if e.place > 0 {
        OneRemoval(Visible(t), e.place - 1);
      }
    } else if e.place < |Visible(t)| {
      OneRemoval(Visible(t), e.place);
    }
  }
}
