// Editor commands: each turns the cursor and the generator into operations to perform.
module InputHandlers {
  import opened Wrappers
  import opened ElementIds
  import opened Operations
  import opened Trees
  import opened Lines
  import opened VisibleText
  import opened Documents
  import opened Editing
  import opened Cursors
  import opened Commands

  class InputHandler {
    const doc: Document
    const cursor: Cursor
    const gen: IdGenerator

    constructor (d: Document, c: Cursor, g: IdGenerator)
      ensures doc == d && cursor == c && gen == g
    {
      doc, cursor, gen := d, c, g;
    }

    // Between commands the cursor stands at the root or on a visible element.
    ghost predicate Valid()
      reads doc, cursor
    {
      doc.Valid() && Anchored(doc.View(), cursor.anchor)
    }

    // The command's effect happened and these are its operations.
    ghost predicate Did(effect: Effect, ops: seq<Operation>)
      reads cursor, gen
    {
      cursor.State() == effect.cursor && gen.lamportClock == effect.clock && ops == effect.ops
    }

    method InsertTyped(c: char) returns (ops: seq<Operation>)
      requires Valid()
      modifies cursor, gen
      ensures Did(Typed(old(cursor.State()), old(gen.lamportClock), gen.clientId, c), ops)
    {
      cursor.ClearSelection();
      var parent := cursor.anchor;
      var newId := gen.Next();
      cursor.anchor := newId;
      return [Insert(parent, newId, c)];
    }

    // A move ends by locating the cursor, which always succeeds.
    method Done() returns (outcome: Result<seq<Operation>>)
      requires Valid()
      ensures outcome == Ok([])
    {
      hide Document.Valid;
      hide Text;
      hide Shape;
      hide Anchored;
      var position := doc.GetCursorPosition(cursor.anchor);
      outcome := Throws("Element not found");
      if position.Throws? {
        return;
      }
      outcome := Ok([]);
    }

    method MoveLeftImpl() returns (outcome: Result<seq<Operation>>)
      requires Valid()
      modifies cursor
      ensures outcome == Ok([])
      ensures cursor.State() == Moved(doc.View(), old(cursor.State()), MoveLeft)
    {
      hide Document.Valid;
      hide Text;
      hide Shape;
      hide VisiblePredecessor;
      hide VisibleSuccessor;
      doc.IsTree();
      AnchoredIsPresent(doc.View(), cursor.anchor);
      StepsMoveOneGap(doc.View(), cursor.anchor);
      var previous := doc.VisiblePredecessorOf(cursor.anchor);
      cursor.anchor := previous.value;
      outcome := Done();
    }

    method MoveRightImpl() returns (outcome: Result<seq<Operation>>)
      requires Valid()
      modifies cursor
      ensures outcome == Ok([])
      ensures cursor.State() == Moved(doc.View(), old(cursor.State()), MoveRight)
    {
      hide Document.Valid;
      hide Text;
      hide Shape;
      hide VisiblePredecessor;
      hide VisibleSuccessor;
      doc.IsTree();
      AnchoredIsPresent(doc.View(), cursor.anchor);
      AnchoredAtStep(doc.View(), cursor.anchor);
      var next := doc.VisibleSuccessorOf(cursor.anchor);
      if next.value.Some? {
        cursor.anchor := next.value.value;
      }
      outcome := Done();
    }

    // Go to the desired column of a line, or to the line's end.
    method GoToLine(column: nat, targetLine: nat, length: nat) returns (outcome: Result<seq<Operation>>)
      requires Valid() && column == CursorPosition(doc.View(), cursor.anchor).1
      requires LineHasLength(doc.View(), targetLine, length)
      modifies cursor
      ensures outcome == Ok([])
      ensures cursor.State() == ToLine(doc.View(), old(cursor.State()), targetLine)
    {
      hide LineHasLength;
      hide Text;
      hide LinesOf;
      hide ToLine;
      hide Anchored;
      hide CursorPosition;
      hide AnchorOfPosition;
      hide Document.Valid;
      hide Shape;
      doc.IsTree();
      LineMoveIsAnchored(doc.View(), cursor.State(), targetLine);
      ToLineUnfolds(doc.View(), cursor.State(), targetLine, length);
      if cursor.desiredColumn.None? {
        cursor.desiredColumn := Some(column);
      }
      var wanted := cursor.desiredColumn.value;
      var anchor := doc.GetAnchorAt(targetLine, if length < wanted then length else wanted);
      if anchor.Some? {
        cursor.anchor := anchor.value;
      }
      outcome := Done();
    }

    ghost predicate LineHasLength(t: Tree, line: nat, length: nat)
    {
      var ls := LinesOf(Text(t));
      line < |ls| && length == |ls[line]|
    }

    lemma ToLineUnfolds(t: Tree, cur: CursorState, line: nat, length: nat)
      requires LineHasLength(t, line, length)
      ensures var wanted := if cur.desiredColumn.Some?
              then cur.desiredColumn.value else CursorPosition(t, cur.anchor).1;
              var anchor := AnchorOfPosition(t, line, Least(wanted, length));
              ToLine(t, cur, line) ==
              cur.(desiredColumn := Some(wanted), anchor := if anchor.Some? then anchor.value else cur.anchor)
    {
      hide CursorPosition;
      hide AnchorOfPosition;
    }

    method MoveUpImpl() returns (outcome: Result<seq<Operation>>)
      requires Valid()
      modifies cursor
      ensures outcome == Ok([])
      ensures cursor.State() == Moved(doc.View(), old(cursor.State()), MoveUp)
    {
      hide Moved;
      hide Document.Valid;
      hide Text;
      hide Shape;
      hide CursorPosition;
      hide AnchorOfPosition;
      hide ToLine;
      hide Anchored;
      hide LinesOf;
      doc.IsTree();
      UpOrDown(doc.View(), cursor.State());
      LineOfCursor(doc.View(), cursor.anchor);
      var position := doc.GetCursorPosition(cursor.anchor);
      var (line, column) := position.value;
      if line == 0 {
        return Ok([]);
      }
      var length := doc.GetLineLength(line - 1);
      outcome := GoToLine(column, line - 1, length.value);
    }

    method MoveDownImpl() returns (outcome: Result<seq<Operation>>)
      requires Valid()
      modifies cursor
      ensures outcome == Ok([])
      ensures cursor.State() == Moved(doc.View(), old(cursor.State()), MoveDown)
    {
      hide Moved;
      hide Document.Valid;
      hide Text;
      hide Shape;
      hide CursorPosition;
      hide AnchorOfPosition;
      hide ToLine;
      hide Anchored;
      hide LinesOf;
      doc.IsTree();
      UpOrDown(doc.View(), cursor.State());
      LastLineStays(doc.View(), cursor.State());
      var position := doc.GetCursorPosition(cursor.anchor);
      var (line, column) := position.value;
      var length := doc.GetLineLength(line + 1);
      if length.None? {
        return Ok([]);
      }
      outcome := GoToLine(column, line + 1, length.value);
    }

    lemma UpOrDown(t: Tree, cur: CursorState)
      ensures var line := CursorPosition(t, cur.anchor).0;
              && Moved(t, cur, MoveUp) == (if line == 0 then cur else ToLine(t, cur, line - 1))
              && Moved(t, cur, MoveDown) == ToLine(t, cur, line + 1)
    {
      hide CursorPosition;
      hide ToLine;
    }

    lemma LineOfCursor(t: Tree, n: ElementID)
      requires Shape(t) && Anchored(t, n)
      ensures CursorPosition(t, n).0 < |LinesOf(Text(t))|
    {
      hide Shape;
      hide Anchored;
      hide CursorPosition;
      PositionsAreAnchors(t, n, 0, 0);
    }

    lemma LastLineStays(t: Tree, cur: CursorState)
      ensures forall line: nat :: line >= |LinesOf(Text(t))| ==> ToLine(t, cur, line) == cur
    {
    }

    method Removals(selected: seq<ElementID>) returns (ops: seq<Operation>)
      ensures ops == RemoveEach(selected)
    {
      ops := [];
      for i := 0 to |selected|
        invariant ops == RemoveEach(selected[..i])
      {
        assert selected[..i + 1][..i] == selected[..i];
        ops := ops + [Remove(selected[i])];
      }
      assert selected[..|selected|] == selected;
    }

    method DeleteSelection() returns (ops: seq<Operation>)
      requires Valid()
      modifies cursor
      ensures Did(Editing.DeleteSelection(doc.View(), old(cursor.State()), gen.lamportClock), ops)
    {
      hide Document.Valid;
      hide Text;
      hide Shape;
      hide VisibleRange;
      hide VisiblePredecessor;
      hide Editing.NormalizedRange;
      doc.IsTree();
      SelectionStaysPresent(doc.View(), cursor.State(), gen.lamportClock);
      ops := [];
      if !cursor.HasSelection() {
        NoSelectionNoRange(doc.View(), cursor.State());
        return;
      }
      var range := cursor.NormalizedRange(doc);
      if range.None? {
        return;
      }
      var selected := doc.GetVisibleRange(range.value.0, range.value.1);
      if selected == [] {
        cursor.ClearSelection();
        return;
      }
      assert selected[0] in selected;
      var newCursor := doc.VisiblePredecessorOf(selected[0]);
      ops := Removals(selected);
      cursor.ClearSelection();
      cursor.anchor := newCursor.value;
    }

    lemma NoSelectionNoRange(t: Tree, cur: CursorState)
      requires !cur.HasSelection()
      ensures Editing.NormalizedRange(t, cur) == None
    {
    }

    method BackspacePressed() returns (ops: seq<Operation>)
      requires Valid()
      modifies cursor
      ensures Process(doc.View(), old(cursor.State()), gen.lamportClock, gen.clientId, Backspace).Ok?
      ensures Did(Process(doc.View(), old(cursor.State()), gen.lamportClock, gen.clientId, Backspace).value, ops)
    {
      hide Document.Valid;
      hide Text;
      hide Shape;
      hide VisiblePredecessor;
      hide Editing.DeleteSelection;
      doc.IsTree();
      AnchoredIsPresent(doc.View(), cursor.anchor);
      if cursor.HasSelection() {
        ops := DeleteSelection();
        return;
      }
      ops := [Remove(cursor.anchor)];
      var previous := doc.VisiblePredecessorOf(cursor.anchor);
      cursor.anchor := previous.value;
    }

    method DeletePressed() returns (ops: seq<Operation>)
      requires Valid()
      modifies cursor
      ensures Process(doc.View(), old(cursor.State()), gen.lamportClock, gen.clientId, DeleteForward).Ok?
      ensures Did(Process(doc.View(), old(cursor.State()), gen.lamportClock, gen.clientId, DeleteForward).value, ops)
    {
      hide Document.Valid;
      hide Text;
      hide Shape;
      hide VisibleSuccessor;
      hide Editing.DeleteSelection;
      doc.IsTree();
      AnchoredIsPresent(doc.View(), cursor.anchor);
      if cursor.HasSelection() {
        ops := DeleteSelection();
        return;
      }
      var next := doc.VisibleSuccessorOf(cursor.anchor);
      if next.value.Some? {
        return [Remove(next.value.value)];
      }
      return [];
    }

    method Select()
      modifies cursor
      ensures cursor.State() == Editing.StartSelection(old(cursor.State()))
    {
      if !cursor.HasSelection() {
        cursor.StartSelection();
      }
    }

    // Every command does what the value-level semantics says; a refused one changes nothing.
    method ProcessCommand(cmd: Command) returns (outcome: Result<seq<Operation>>)
      requires Valid()
      modifies cursor, gen
      ensures match Process(doc.View(), old(cursor.State()), old(gen.lamportClock), gen.clientId, cmd)
              case Throws(_) =>
                outcome.Throws? && cursor.State() == old(cursor.State()) && gen.lamportClock == old(gen.lamportClock)
              case Ok(effect) => outcome.Ok? && Did(effect, outcome.value)
    {
      hide Document.Valid;
      hide Text;
      hide Shape;
      hide Anchored;
      hide Moved;
      hide Editing.DeleteSelection;
      SameMoves(doc.View(), cursor.State().(selection := None));
      SameMoves(doc.View(), Editing.StartSelection(cursor.State()));
      match cmd {
        case InsertCharacter(c) =>
          if c == '\0' {
            return Throws("No character in this command.");
          }
          var ops := InsertTyped(c);
          outcome := Ok(ops);
        case Enter =>
          var ops := InsertTyped('\n');
          outcome := Ok(ops);
        case Backspace =>
          var ops := BackspacePressed();
          outcome := Ok(ops);
        case DeleteForward =>
          var ops := DeletePressed();
          outcome := Ok(ops);
        case MoveLeft => cursor.ClearSelection(); outcome := MoveLeftImpl();
        case MoveRight => cursor.ClearSelection(); outcome := MoveRightImpl();
        case MoveUp => cursor.ClearSelection(); outcome := MoveUpImpl();
        case MoveDown => cursor.ClearSelection(); outcome := MoveDownImpl();
        case ShiftLeft => Select(); outcome := MoveLeftImpl();
        case ShiftRight => Select(); outcome := MoveRightImpl();
        case ShiftUp => Select(); outcome := MoveUpImpl();
        case ShiftDown => Select(); outcome := MoveDownImpl();
      }
    }

    lemma SameMoves(t: Tree, cur: CursorState)
      ensures Moved(t, cur, MoveLeft) == Moved(t, cur, ShiftLeft)
      ensures Moved(t, cur, MoveRight) == Moved(t, cur, ShiftRight)
      ensures Moved(t, cur, MoveUp) == Moved(t, cur, ShiftUp)
      ensures Moved(t, cur, MoveDown) == Moved(t, cur, ShiftDown)
    {
      hide VisiblePredecessor;
      hide VisibleSuccessor;
      hide CursorPosition;
      hide ToLine;
    }
  }
}
