// Typing: what a user types in a row stays together, whatever arrives meanwhile and whatever
// others type at the same place.
module Typing {
  import opened Wrappers
  import opened ElementIds
  import opened Operations
  import opened Trees
  import opened Preorder
  import opened Places
  import opened Growth
  import opened VisibleText
  import opened Messages
  import opened Editing
  import opened SessionFacts
  import opened Commands

  // ----- One character -----

  function TypedChar(cmd: Command): char
    requires Types(cmd)
  {
    if cmd.Enter? then '\n' else cmd.c
  }

  // A typing command, Enter included, is one insert under the anchor.
  lemma CommandTypes(s: Session, site: string, cmd: Command)
    requires SessionValid(s, site) && Types(cmd) && cmd != InsertCharacter('\0')
    ensures var op := Insert(s.cursor.anchor, ElementID(s.clock + 1, site), TypedChar(cmd));
            && Fresh(s, site, op) && HandleCommand(s, site, cmd) == Ok(Remember(AfterTyping(s, site, TypedChar(cmd))))
            && AfterTyping(s, site, TypedChar(cmd)).received == s.received + {op}
            && AfterTyping(s, site, TypedChar(cmd)).cursor.anchor == op.id
            && SessionValid(AfterTyping(s, site, TypedChar(cmd)), site)
  {
    hide SessionValid;
    hide Meaning;
    hide PerformAll;
    hide Remember;
    TypingStep(s, site, TypedChar(cmd));
    TypingKeeps(s, site, TypedChar(cmd));
  }

  // The visible text gains the character right after the anchor, nothing else moves, and the cursor
  // stands behind it.
  lemma TypedCommandLands(s: Session, site: string, cmd: Command)
    requires SessionValid(s, site) && Types(cmd) && cmd != InsertCharacter('\0')
    ensures HandleCommand(s, site, cmd).Ok?
    ensures var r := HandleCommand(s, site, cmd).value;
            var t, u, g := Meaning(s.received), Meaning(r.received), Gap(Meaning(s.received), s.cursor.anchor);
            && SessionValid(r, site) && g <= |Visible(t)|
            && Visible(u) == Visible(t)[..g] + [r.cursor.anchor] + Visible(t)[g..]
            && Text(u) == Text(t)[..g] + [TypedChar(cmd)] + Text(t)[g..]
            && Gap(u, r.cursor.anchor) == g + 1
  {
    hide SessionValid;
    hide Meaning;
    hide HandleCommand;
    hide AfterTyping;
    hide Visible;
    hide Text;
    hide Gap;
    CommandTypes(s, site, cmd);
    TypingLandsAtCursor(s, site, Insert(s.cursor.anchor, ElementID(s.clock + 1, site), TypedChar(cmd)));
    ColumnIsFree(AfterTyping(s, site, TypedChar(cmd)), site);
  }

  lemma ColumnIsFree(s: Session, site: string)
    requires SessionValid(s, site)
    ensures SessionValid(Remember(s), site) && Remember(s).received == s.received
            && Remember(s).cursor.anchor == s.cursor.anchor
  {
    hide Meaning;
    hide Functional;
    hide Anchored;
    hide CursorPosition;
  }

  // ----- A string -----

  // The command for a key that types a character.
  function Keystroke(c: char): (cmd: Command)
    ensures Types(cmd) && TypedChar(cmd) == c
  {
    if c == '\n' then Enter else InsertCharacter(c)
  }

  ghost function TypeAll(s: Session, site: string, text: string): Session
    decreases text
  {
    if text == "" then s
    else
      match HandleCommand(s, site, Keystroke(text[0]))
      case Throws(_) => s
      case Ok(r) => TypeAll(r, site, text[1..])
  }

  // A typed string lands in the text as it was typed, right at the cursor, which ends up behind it.
  lemma {:induction false} TypedStringLands(s: Session, site: string, text: string)
    requires SessionValid(s, site) && '\0' !in text
    ensures var r := TypeAll(s, site, text);
            var t, u, g := Meaning(s.received), Meaning(r.received), Gap(Meaning(s.received), s.cursor.anchor);
            && SessionValid(r, site) && g <= |Text(t)|
            && Text(u) == Text(t)[..g] + text + Text(t)[g..]
            && Gap(u, r.cursor.anchor) == g + |text|
    decreases text
  {
    hide SessionValid;
    hide Meaning;
    hide HandleCommand;
    hide Text;
    hide Gap;
    hide Visible;
    var t, g := Meaning(s.received), Gap(Meaning(s.received), s.cursor.anchor);
    CursorIsInText(s, site);
    if text == "" {
      assert Text(t) == Text(t)[..g] + text + Text(t)[g..];
    } else {
      assert text[0] in text && text == [text[0]] + text[1..];
      TypedCommandLands(s, site, Keystroke(text[0]));
      var r := HandleCommand(s, site, Keystroke(text[0])).value;
      TypedStringLands(r, site, text[1..]);
      var line := Text(Meaning(r.received));
      assert line[..g + 1] == Text(t)[..g] + [text[0]] && line[g + 1..] == Text(t)[g..];
      assert Text(t)[..g] + [text[0]] + text[1..] + Text(t)[g..] == Text(t)[..g] + text + Text(t)[g..];
    }
  }

  lemma CursorIsInText(s: Session, site: string)
    requires SessionValid(s, site)
    ensures Gap(Meaning(s.received), s.cursor.anchor) <= |Text(Meaning(s.received))|
  {
    hide Meaning;
    hide Shape;
    hide Gap;
    AnchoredIsPresent(Meaning(s.received), s.cursor.anchor);
    GapOfElement(Meaning(s.received), s.cursor.anchor);
  }

  // ----- Typing while messages arrive -----

  datatype Input = Key(c: char) | Arrival(m: Message)

  ghost function After(s: Session, site: string, input: Input): Session
  {
    match input
    case Key(c) => (match HandleCommand(s, site, Keystroke(c)) case Throws(_) => s case Ok(r) => r)
    case Arrival(m) => Receive(s, site, m)
  }

  ghost function AfterAll(s: Session, site: string, inputs: seq<Input>): Session
    decreases inputs
  {
    if inputs == [] then s else AfterAll(After(s, site, inputs[0]), site, inputs[1..])
  }

  // The inserts issued for the typed characters, in order.
  ghost function Issued(s: Session, site: string, inputs: seq<Input>): seq<Operation>
    decreases inputs
  {
    if inputs == [] then []
    else
      var rest := Issued(After(s, site, inputs[0]), site, inputs[1..]);
      if inputs[0].Key? && inputs[0].c != '\0'
      then [Insert(s.cursor.anchor, ElementID(s.clock + 1, site), inputs[0].c)] + rest else rest
  }

  // No message takes away the character the cursor stands at.
  ghost predicate Undisturbed(s: Session, site: string, inputs: seq<Input>)
    decreases inputs
  {
    inputs == [] ||
    (&& (inputs[0].Arrival? ==> Remove(s.cursor.anchor) !in Carried(inputs[0].m))
     && Undisturbed(After(s, site, inputs[0]), site, inputs[1..]))
  }

  // Each insert is under the one before it, and the first one under the anchor.
  ghost predicate ChainBelow(ops: seq<Operation>, anchor: ElementID)
  {
    ops == [] ||
    (&& ops[0].Insert? && ops[0].id != ROOT_ID && ops[0].parent == anchor
     && ChainBelow(ops[1..], ops[0].id))
  }

  lemma KeyMovesAnchor(s: Session, site: string, c: char)
    ensures var r := After(s, site, Key(c));
            if c == '\0' then r == s
            else
              var op := Insert(s.cursor.anchor, ElementID(s.clock + 1, site), c);
              && r.cursor.anchor == op.id && r.received == s.received + {op}
              && r.outgoing == s.outgoing + [OperationMessage(site, op)]
  {
    hide Meaning;
    hide CursorPosition;
    hide PerformAll;
    AfterTypingFrame(s, site, c);
  }

  lemma AfterTypingFrame(s: Session, site: string, c: char)
    ensures var r, op := AfterTyping(s, site, c), Insert(s.cursor.anchor, ElementID(s.clock + 1, site), c);
            && r.cursor.anchor == op.id && r.received == s.received + {op}
            && r.outgoing == s.outgoing + [OperationMessage(site, op)]
  {
    hide Meaning;
    var op := Insert(s.cursor.anchor, ElementID(s.clock + 1, site), c);
    var effect := Typed(s.cursor, s.clock, site, c);
    var s0 := s.(cursor := effect.cursor, clock := effect.clock);
    assert effect.ops[..0] == [] && PerformAll(s0, site, []) == s0;
    assert PerformAll(s0, site, effect.ops) == Perform(s0, site, op);
    assert op in s.received ==> s.received + {op} == s.received;
  }

  lemma {:induction false} HistoryLeavesAnchor(s: Session, history: seq<Operation>)
    requires Remove(s.cursor.anchor) !in Elements(history)
    ensures AbsorbHistory(s, history).cursor.anchor == s.cursor.anchor
  {
    hide Meaning;
    if history != [] {
      ElementsSplit(history);
      HistoryLeavesAnchor(s, history[..|history| - 1]);
    }
  }

  lemma ArrivalLeavesAnchor(s: Session, site: string, m: Message)
    requires Remove(s.cursor.anchor) !in Carried(m)
    ensures Receive(s, site, m).cursor.anchor == s.cursor.anchor
  {
    hide Meaning;
    hide Settle;
    match m {
      case OperationMessage(_, op) =>
        assert op in Carried(m);
        SettleFrame(AbsorbRemote(s, op));
      case SyncResponse(_, history) =>
        HistoryLeavesAnchor(s, history);
        SettleFrame(AbsorbHistory(s, history));
      case CursorUpdate(sender, position) => ReceiveCursorFrame(s, sender, position);
      case _ =>
    }
  }

  // What a user types in a row is a chain below the place where typing began, whatever arrives
  // meanwhile, unless the character just typed is deleted by someone else.
  lemma {:induction false} TypingIsAChain(s: Session, site: string, inputs: seq<Input>)
    requires Undisturbed(s, site, inputs)
    ensures ChainBelow(Issued(s, site, inputs), s.cursor.anchor)
    decreases inputs
  {
    hide After;
    if inputs != [] {
      var r := After(s, site, inputs[0]);
      TypingIsAChain(r, site, inputs[1..]);
      match inputs[0]
      case Key(c) => KeyMovesAnchor(s, site, c);
      case Arrival(m) => ArrivalIsReceived(s, site, m);
    }
  }

  lemma ArrivalIsReceived(s: Session, site: string, m: Message)
    ensures After(s, site, Arrival(m)) == Receive(s, site, m)
    ensures Remove(s.cursor.anchor) !in Carried(m) ==> After(s, site, Arrival(m)).cursor.anchor == s.cursor.anchor
  {
    hide Receive;
    if Remove(s.cursor.anchor) !in Carried(m) {
      ArrivalLeavesAnchor(s, site, m);
    }
  }

  // The session has received what it issued, and sent it.
  lemma {:induction false} IssuedIsQueued(s: Session, site: string, inputs: seq<Input>)
    ensures var r := AfterAll(s, site, inputs);
            && s.received + Elements(Issued(s, site, inputs)) <= r.received
            && forall op | op in Issued(s, site, inputs) :: OperationMessage(site, op) in r.outgoing
    ensures forall m | m in s.outgoing :: m in AfterAll(s, site, inputs).outgoing
    decreases inputs
  {
    hide After;
    if inputs != [] {
      var r := After(s, site, inputs[0]);
      IssuedIsQueued(r, site, inputs[1..]);
      match inputs[0]
      case Key(c) => KeyMovesAnchor(s, site, c);
      case Arrival(m) => NothingIsLost(s, site, m);
    }
  }

  lemma NothingIsLost(s: Session, site: string, m: Message)
    ensures s.received <= After(s, site, Arrival(m)).received && s.outgoing <= After(s, site, Arrival(m)).outgoing
  {
    hide Meaning;
    hide Settle;
    match m {
      case OperationMessage(_, op) => SettleFrame(AbsorbRemote(s, op));
      case SyncResponse(_, history) =>
        HistoryIsReceived(s, history);
        HistoryFrame(s, history);
        SettleFrame(AbsorbHistory(s, history));
      case CursorUpdate(sender, position) => ReceiveCursorFrame(s, sender, position);
      case _ =>
    }
  }

  // ----- Runs in the tree -----

  // In a tree that represents a chain, every element of it descends from the first.
  lemma {:induction false} ChainDescends(t: Tree, ops: set<Operation>, chain: seq<Operation>, p: ElementID, j: nat)
    requires Represents(t, ops) && Functional(ops) && Elements(chain) <= ops && ChainBelow(chain, p)
    requires j < |chain| && chain[j].Insert? && chain[j].id in t.elements
    ensures var first := chain[0].id;
            first in t.elements && t.Parent(first) == p && Descends(t, chain[j].id, first)
    decreases j
  {
    var x, first := chain[j].id, chain[0].id;
    assert chain[0] in ops;
    if j == 0 {
      assert Up(t, x, 0) == x;
    } else {
      hide Represents;
      hide Functional;
      assert chain[1..][0] == chain[1] && chain[1..][j - 1] == chain[j];
      ChainDescends(t, ops, chain[1..], first, j - 1);
      var k: nat :| Up(t, x, k) == chain[1].id;
      UpOnce(t, x, k);
      assert Up(t, x, k + 1) == first;
      PresentParent(t, ops, chain[1].id);
    }
    ParentIsIssued(t, ops, chain[0]);
  }

  lemma PresentParent(t: Tree, ops: set<Operation>, x: ElementID)
    requires Represents(t, ops) && x in t.elements
    ensures t.Parent(x) in t.elements
  {
    ParentPresent(t, x);
  }

  lemma ParentIsIssued(t: Tree, ops: set<Operation>, op: Operation)
    requires Represents(t, ops) && Functional(ops) && op in ops && op.Insert? && op.id != ROOT_ID && op.id in t.elements
    ensures t.Parent(op.id) == op.parent
  {
    assert Insert(t.Parent(op.id), op.id, t.Char(op.id)) in ops;
  }

  // The order of the traversal is the order of the visible text.
  lemma OrderIsVisible(t: Tree, x: ElementID, y: ElementID)
    requires Shape(t) && Shown(t, x) && Shown(t, y) && At(t, x) < At(t, y)
    ensures IndexOf(Visible(t), x) < IndexOf(Visible(t), y)
  {
    hide Shape;
    hide Keep;
    IndexIsGap(t, x);
    IndexIsGap(t, y);
    GapOfElement(t, x);
    GapOfElement(t, y);
    var xs, k := Traversal(t)[..At(t, y)], At(t, x) + 1;
    assert xs == xs[..k] + xs[k..] && xs[..k] == Traversal(t)[..k];
    KeepConcat(xs[..k], xs[k..], ShownSet(t));
  }

  // Every element of the first run is in the text before every element of the second.
  ghost predicate Before(t: Tree, run: seq<Operation>, other: seq<Operation>)
  {
    forall i, j {:trigger run[i], other[j]} | 0 <= i < |run| && 0 <= j < |other| ::
      run[i].Insert? && other[j].Insert? && Shown(t, run[i].id) && Shown(t, other[j].id) ==>
        IndexOf(Visible(t), run[i].id) < IndexOf(Visible(t), other[j].id)
  }

  // The run stands in the text in the order it was typed.
  ghost predicate InOrder(t: Tree, run: seq<Operation>)
  {
    forall i, j {:trigger run[i], run[j]} | 0 <= i < j < |run| ::
      run[i].Insert? && run[j].Insert? && Shown(t, run[i].id) && Shown(t, run[j].id) ==>
        IndexOf(Visible(t), run[i].id) < IndexOf(Visible(t), run[j].id)
  }

  lemma ChildComesLater(t: Tree, x: ElementID)
    requires Shape(t) && x in t.elements && x != ROOT_ID
    ensures At(t, t.Parent(x)) < At(t, x)
  {
    ParentPresent(t, x);
    ChildIsNoAncestor(t, x, t.Parent(x));
    hide Shape;
    assert Up(t, x, 0) == x && Up(t, x, 1) == Up(t, t.Parent(x), 0) == t.Parent(x);
    DescendantsAreABlock(t, t.Parent(x), x);
    PlaceOf(t, x);
    PlaceOf(t, t.Parent(x));
  }

  lemma {:induction false} ChainIsInOrder(t: Tree, ops: set<Operation>, chain: seq<Operation>, p: ElementID)
    requires Represents(t, ops) && Functional(ops) && Elements(chain) <= ops && ChainBelow(chain, p)
    ensures InOrder(t, chain)
  {
    assert Shape(t);
    hide Represents;
    hide Functional;
    hide Shape;
    if chain != [] {
      ChainIsInOrder(t, ops, chain[1..], chain[0].id);
      forall i, j {:trigger chain[i], chain[j]} | 0 <= i < j < |chain| && chain[i].Insert? && chain[j].Insert?
                                                   && Shown(t, chain[i].id) && Shown(t, chain[j].id)
        ensures IndexOf(Visible(t), chain[i].id) < IndexOf(Visible(t), chain[j].id)
      {
        assert chain[j] == chain[1..][j - 1];
        if i == 0 {
          ChainDescends(t, ops, chain[1..], chain[0].id, j - 1);
          ChildComesLater(t, chain[1].id);
          DescendantsAreABlock(t, chain[1].id, chain[j].id);
          OrderIsVisible(t, chain[0].id, chain[j].id);
        } else {
          assert chain[i] == chain[1..][i - 1];
        }
      }
    }
  }

  // Two chains below one place stay apart in every tree that represents both: the one whose first
  // identifier is greater comes first as a whole.
  lemma ChainsStayApart(t: Tree, ops: set<Operation>, run: seq<Operation>, other: seq<Operation>, p: ElementID)
    requires Represents(t, ops) && Functional(ops) && Elements(run) + Elements(other) <= ops
    requires ChainBelow(run, p) && ChainBelow(other, p)
    requires run != [] && other != [] && Less(other[0].id, run[0].id)
    ensures Before(t, run, other)
  {
    assert Shape(t);
    hide Represents;
    hide Functional;
    hide Shape;
    forall i, j {:trigger run[i], other[j]} | 0 <= i < |run| && 0 <= j < |other| && run[i].Insert? && other[j].Insert?
                                               && Shown(t, run[i].id) && Shown(t, other[j].id)
      ensures IndexOf(Visible(t), run[i].id) < IndexOf(Visible(t), other[j].id)
    {
      ChainDescends(t, ops, run, p, i);
      ChainDescends(t, ops, other, p, j);
      RunsDoNotInterleave(t, run[0].id, other[0].id, run[i].id, other[j].id);
      OrderIsVisible(t, run[i].id, other[j].id);
    }
  }

  lemma {:induction false} IssuedUnderName(s: Session, site: string, inputs: seq<Input>)
    ensures forall op | op in Issued(s, site, inputs) :: op.Insert? && op.id.siteId == site
    decreases inputs
  {
    hide After;
    if inputs != [] {
      IssuedUnderName(After(s, site, inputs[0]), site, inputs[1..]);
    }
  }

  ghost function FirstId(run: seq<Operation>): ElementID
  {
    if run != [] && run[0].Insert? then run[0].id else ROOT_ID
  }

  // Two people type at the same place at the same time, each receiving whatever arrives: in every
  // session that has received both, what one of them typed comes before all the other typed, and
  // each stands in the order it was typed.
  lemma ConcurrentTypingStaysApart(
    a: Session, siteA: string, inputsA: seq<Input>, b: Session, siteB: string, inputsB: seq<Input>, r: Session)
    requires siteA != siteB && a.cursor.anchor == b.cursor.anchor
    requires Undisturbed(a, siteA, inputsA) && Undisturbed(b, siteB, inputsB)
    requires Functional(r.received)
    requires Elements(Issued(a, siteA, inputsA)) + Elements(Issued(b, siteB, inputsB)) <= r.received
    ensures var t, run, other := Meaning(r.received), Issued(a, siteA, inputsA), Issued(b, siteB, inputsB);
            && InOrder(t, run) && InOrder(t, other)
            && if Less(FirstId(other), FirstId(run)) then Before(t, run, other) else Before(t, other, run)
  {
    hide Functional;
    hide After;
    hide Undisturbed;
    hide Represents;
    hide ChainBelow;
    hide InOrder;
    hide Less;
    var t, run, other := Meaning(r.received), Issued(a, siteA, inputsA), Issued(b, siteB, inputsB);
    TypingIsAChain(a, siteA, inputsA);
    TypingIsAChain(b, siteB, inputsB);
    IssuedUnderName(a, siteA, inputsA);
    IssuedUnderName(b, siteB, inputsB);
    hide Issued;
    hide Meaning;
    ChainIsInOrder(t, r.received, run, a.cursor.anchor);
    ChainIsInOrder(t, r.received, other, a.cursor.anchor);
    if run != [] && other != [] {
      assert run[0] in run && other[0] in other;
      LessIsStrictTotalOrder(run[0].id, other[0].id, run[0].id);
      if Less(other[0].id, run[0].id) {
        ChainsStayApart(t, r.received, run, other, a.cursor.anchor);
      } else {
        ChainsStayApart(t, r.received, other, run, a.cursor.anchor);
      }
    }
  }
}
