// The document: six maps updated in place by the operations it receives.
module Documents {
  import opened Wrappers
  import opened ElementIds
  import opened Operations
  import opened Trees
  import opened DocumentStates
  import opened Preorder
  import opened Places
  import opened Growth
  import opened Lines
  import opened VisibleText

  class Document {
    var elements: map<ElementID, Character>
    var bufferedDeletes: set<ElementID>
    var bufferedInserts: map<ElementID, seq<Operation>>
    var children: map<ElementID, seq<ElementID>>
    var parentOf: map<ElementID, ElementID>
    var bufferedInsertIds: set<ElementID>

    // The operations received so far.
    ghost var received: set<Operation>

    ghost function View(): Tree
      reads this`elements, this`children, this`parentOf
    {
      Tree(elements, children, parentOf)
    }

    ghost function State(): DocState
      reads this`elements, this`children, this`parentOf, this`bufferedInserts, this`bufferedInsertIds,
            this`bufferedDeletes
    {
      DocState(View(), bufferedInserts, bufferedInsertIds, bufferedDeletes)
    }

    // Holds whatever was received, and after a call that threw.
    ghost predicate Valid()
      reads this
    {
      Structured(State(), received)
    }

    // Holds as long as no identifier is reused: the operations received settle the state.
    ghost predicate Exact()
      reads this
    {
      Valid() && Documented(State(), received)
    }

    constructor ()
      ensures Valid() && Exact() && received == {} && State() == NewDocument()
    {
      elements := map[ROOT_ID := Character('\0', false)];
      children := map[ROOT_ID := []];
      parentOf := map[ROOT_ID := ROOT_ID];
      bufferedDeletes, bufferedInserts, bufferedInsertIds := {}, map[], {};
      received := {};
      new;
      hide Documented;
      hide Structured;
      NewIsDocumented();
      DocumentedIsStructured(NewDocument(), {});
    }

    // ----- Applying operations -----

    // It throws exactly when the operation is blocked. Even then the elements already present
    // stay, in the order they were in: the new traversal without the newcomers is the old one.
    method Apply(op: Operation) returns (outcome: Result<()>)
      requires Valid()
      modifies this
      ensures Valid() && received == old(received) + {op}
      ensures State() == Applied(old(State()), op).state && (outcome.Throws? <==> old(Blocked(State(), op)))
      ensures old(Exact()) && Functional(received) ==> Exact() && outcome.Ok?
      ensures old(elements.Keys) <= elements.Keys
      ensures Keep(Traversal(View()), old(elements.Keys)) == old(Traversal(View()))
    {
      hide Traversal;
      hide Documented;
      hide Structured;
      hide Blocked;
      hide Functional;
      IsTree();
      IsHealthy();
      ApplyStructured(State(), received, op);
      ApplyThrows(State(), op);
      ghost var before := State();
      if Documented(before, received) && Functional(received + {op}) {
        ApplyDocumented(before, received, op);
      }
      if op.Insert? {
        outcome := ApplyInsert(op);
      } else {
        ApplyDelete(op.target);
        outcome := Ok(());
      }
      received := received + {op};
      IsTree();
      RestrictedTraversal(before.tree, View());
    }

    method ApplyInsert(op: Operation) returns (outcome: Result<()>)
      requires Filed(State()) && op.Insert?
      modifies this
      ensures State() == InsertInto(old(State()), op).state && (outcome.Throws? <==> InsertInto(old(State()), op).threw)
      ensures received == old(received)
      decreases bufferedInserts.Keys
    {
      hide ChecksHold;
      hide Releases;
      hide ReleaseInto;
      hide Filed;
      hide Extends;
      if op.id in elements {
        return Ok(());
      }
      if op.parent !in elements {
        if op.id !in bufferedInsertIds {
          Park(op);
        }
        return Ok(());
      }
      if op.id in bufferedInserts {
        ReleaseBegins(State(), op);
      }
      var found := Attach(op);
      if found.None? {
        return Ok(());
      }
      var waitingChildren := found.value;
      assert waitingChildren[0..] == waitingChildren;
      ghost var released :| Releases(State(), waitingChildren, released);
      for i := 0 to |waitingChildren|
        invariant received == old(received) && bufferedInserts.Keys < old(bufferedInserts.Keys)
        invariant Releases(State(), waitingChildren[i..], released)
      {
        ReleaseStep(State(), waitingChildren, i, released);
        outcome := ApplyInsert(waitingChildren[i]);
        if outcome.Throws? {
          return;
        }
      }
      ReleaseEnds(State(), waitingChildren, released);
      outcome := CheckBuffers();
    }

    // An insert whose parent has not arrived waits under that parent.
    method Park(op: Operation)
      requires Filed(State()) && op.Insert?
      modifies this`bufferedInsertIds, this`bufferedInserts
      ensures State() == Parked(old(State()), op)
    {
      bufferedInsertIds := bufferedInsertIds + {op.id};
      bufferedInserts := bufferedInserts[op.parent :=
        (if op.parent in bufferedInserts then bufferedInserts[op.parent] else []) + [op]];
    }

    // An insert whose parent is present becomes an element; its waiting list is taken out.
    method Attach(op: Operation) returns (found: Option<seq<Operation>>)
      requires Filed(State()) && op.Insert? && op.id !in elements && op.parent in elements
      modifies this
      ensures State() == Attached(old(State()), op) && received == old(received)
      ensures found == if op.id in old(bufferedInserts) then Some(old(bufferedInserts)[op.id]) else None
    {
      hide Extends;
      hide Filed;
      KeysAgree();
      var alreadyDeleted := op.id in bufferedDeletes;
      bufferedDeletes := bufferedDeletes - {op.id};
      elements := elements[op.id := Character(op.ch, alreadyDeleted)];
      bufferedInsertIds := bufferedInsertIds - {op.id};
      parentOf := parentOf[op.id := op.parent];
      children := children[op.parent := SortDescending(children[op.parent] + [op.id])][op.id := []];
      if op.id !in bufferedInserts {
        assert bufferedInserts - {op.id} == bufferedInserts;
        return None;
      }
      found := Some(bufferedInserts[op.id]);
      bufferedInserts := bufferedInserts - {op.id};
    }

    lemma KeysAgree()
      requires Filed(State())
      ensures children.Keys == elements.Keys
    {
    }

    method ApplyDelete(target: ElementID)
      requires Filed(State())
      modifies this
      ensures State() == ApplyTo(old(State()), Remove(target)).state && received == old(received)
    {
      if target in elements {
        elements := elements[target := elements[target].(deleted := true)];
      } else {
        bufferedDeletes := bufferedDeletes + {target};
      }
    }

    // The consistency checks that end a release.
    method CheckBuffers() returns (outcome: Result<()>)
      ensures outcome.Ok? <==> ChecksHold(State())
    {
      var keys := bufferedInserts.Keys;
      while keys != {}
        invariant keys <= bufferedInserts.Keys
        invariant forall p | p in bufferedInserts.Keys - keys ::
                    p !in elements && forall op | op in bufferedInserts[p] ::
                      op.Insert? && op.parent == p && op.id !in elements
        decreases keys
      {
        var missingParent :| missingParent in keys;
        if missingParent in elements {
          return Throws("Buffered operations exist for a parent that is already present");
        }
        var operations := bufferedInserts[missingParent];
        for i := 0 to |operations|
          invariant forall op | op in operations[..i] :: op.Insert? && op.parent == missingParent && op.id !in elements
        {
          if !operations[i].Insert? || operations[i].parent != missingParent {
            return Throws("Buffered operation stored under wrong parent key");
          }
          if operations[i].id in elements {
            return Throws("Operation is both buffered and already inserted");
          }
          assert operations[..i + 1] == operations[..i] + [operations[i]];
        }
        assert operations[..|operations|] == operations;
        keys := keys - {missingParent};
      }
      return Ok(());
    }

    lemma IsTree()
      requires Valid()
      ensures Shape(View())
    {
    }

    lemma IsHealthy()
      requires Valid()
      ensures Healthy(State()) && Filed(State())
    {
    }

    lemma IsExact()
      requires Exact()
      ensures Represents(View(), received) && Functional(received)
    {
    }

    // What the tree says about a present element is what the maps hold.
    lemma Lookup(id: ElementID)
      requires Valid() && id in elements
      ensures id in children && id in parentOf && id in View().elements
      ensures View().Kids(id) == children[id] && View().Parent(id) == parentOf[id]
      ensures Shown(View(), id) <==> id != ROOT_ID && !elements[id].deleted
      ensures View().Char(id) == elements[id].ch
    {
    }

    // Bounds the walks down the tree.
    ghost function Height(id: ElementID): nat
      requires Valid() && id in elements
      reads this
    {
      |elements| - RankOf(View())[id]
    }

    lemma ChildIsLower(p: ElementID, c: ElementID)
      requires Valid() && p in elements && c in View().Kids(p)
      ensures c in elements && c != ROOT_ID && View().Parent(c) == p && Height(c) < Height(p)
    {
      assert View().Parent(c) == p;
    }

    // ----- The structural audit -----

    ghost predicate AuditPasses()
      reads this
    {
      && ROOT_ID in elements && ROOT_ID in children && ROOT_ID in parentOf
      && (forall id | id in elements :: id in children && id in parentOf)
      && (forall p, c | p in children && c in children[p] :: c in elements && c in parentOf && parentOf[c] == p)
    }

    lemma ValidPassesAudit()
      requires Valid()
      ensures AuditPasses()
    {
      IsTree();
      forall p, c | p in children && c in children[p]
        ensures c in elements && c in parentOf && parentOf[c] == p
      {
        assert c in View().Kids(p);
      }
    }

    method Validate() returns (outcome: Result<()>)
      ensures outcome.Ok? <==> AuditPasses()
    {
      if ROOT_ID !in elements {
        return Throws("ROOT_ID missing from elements");
      }
      if ROOT_ID !in children {
        return Throws("ROOT_ID missing from children");
      }
      if ROOT_ID !in parentOf {
        return Throws("ROOT_ID missing from parent_of");
      }
      var ids := elements.Keys;
      while ids != {}
        invariant ids <= elements.Keys
        invariant forall id | id in elements.Keys - ids :: id in children && id in parentOf
      {
        var id :| id in ids;
        if id !in children {
          return Throws("Element exists but has no children entry");
        }
        if id !in parentOf {
          return Throws("Element exists but has no parent");
        }
        ids := ids - {id};
      }
      var parents := children.Keys;
      while parents != {}
        invariant parents <= children.Keys
        invariant forall p, c | p in children.Keys - parents && c in children[p] ::
                    c in elements && c in parentOf && parentOf[c] == p
      {
        var parent :| parent in parents;
        var list := children[parent];
        for i := 0 to |list|
          invariant forall c | c in list[..i] :: c in elements && c in parentOf && parentOf[c] == parent
        {
          var child := list[i];
          assert child in children[parent];
          if child !in elements {
            return Throws("Child exists in tree but not elements");
          }
          if child !in parentOf {
            return Throws("Child has no parent_of entry");
          }
          if parentOf[child] != parent {
            return Throws("parent_of disagrees with children map");
          }
          assert list[..i + 1] == list[..i] + [child];
        }
        assert list[..|list|] == list;
        parents := parents - {parent};
      }
      return Ok(());
    }

    // ----- Traversal -----

    // The elements a visitor sees, in order.
    method VisitVisible(node: ElementID) returns (visited: seq<ElementID>)
      requires Valid() && node in elements
      ensures visited == Keep(Subtree(View(), node), ShownSet(View()))
      decreases Height(node)
    {
      hide *;
      IsTree();
      Lookup(node);
      VisitNode(View(), node);
      VisitNone(View());
      visited := [];
      if node != ROOT_ID && !elements[node].deleted {
        visited := [node];
      }
      ghost var self := visited;
      var list := children[node];
      for i := 0 to |list|
        invariant visited == self + Keep(Forest(View(), list[..i]), ShownSet(View()))
      {
        assert list[i] in list;
        ChildIsLower(node, list[i]);
        var below := VisitVisible(list[i]);
        visited := visited + below;
        VisitChild(View(), list, i);
      }
      assert list[..|list|] == list;
    }

    method Render() returns (output: string)
      requires Valid()
      ensures output == Text(View())
    {
      hide Structured;
      var visited := VisitAll();
      output := "";
      for i := 0 to |visited|
        invariant output == CharsOf(View(), visited[..i])
      {
        Visited(visited, i);
        output := output + [elements[visited[i]].ch];
      }
      assert visited[..|visited|] == visited;
    }

    method VisitAll() returns (visited: seq<ElementID>)
      requires Valid()
      ensures visited == Visible(View())
    {
      IsTree();
      RootIsOwnParent(View());
      visited := VisitVisible(ROOT_ID);
    }

    // What a visitor's lambda may rely on at its i-th call.
    lemma Visited(visited: seq<ElementID>, i: nat)
      requires Valid() && visited == Visible(View()) && i < |visited|
      ensures visited[i] in elements && visited[i] != ROOT_ID && Shown(View(), visited[i])
      ensures elements[visited[i]].ch == View().Char(visited[i]) == Text(View())[i]
      ensures CharsOf(View(), visited[..i + 1]) == CharsOf(View(), visited[..i]) + [elements[visited[i]].ch]
      ensures CharsOf(View(), visited[..i]) == Text(View())[..i]
      ensures |Text(View())| == |visited| && Text(View())[..i + 1] == Text(View())[..i] + [elements[visited[i]].ch]
      ensures PositionAtGap(View(), i + 1) == Advance(PositionAtGap(View(), i), elements[visited[i]].ch)
      ensures GapBefore(View(), visited[i]) == i && forall j | 0 <= j < |visited| && j != i :: visited[j] != visited[i]
    {
      hide *;
      IsTree();
      VisitedAt(View(), visited, i);
      ShownIsElement(View(), visited[i]);
      IsElement(visited[i]);
      Lookup(visited[i]);
    }

    lemma IsElement(id: ElementID)
      ensures id in View().elements <==> id in elements
    {
    }

    // ----- Pointer walks -----

    ghost function Depth(id: ElementID): nat
      requires Valid() && id in elements
      reads this
    {
      RankOf(View())[id]
    }

    lemma ParentIsHigher(id: ElementID)
      requires Valid() && id in elements && id != ROOT_ID
      ensures parentOf[id] in elements && Depth(parentOf[id]) < Depth(id)
      ensures id in children[parentOf[id]]
    {
      Lookup(id);
      assert View().Parent(id) in View().elements;
      Lookup(parentOf[id]);
    }

    // The next node in traversal order, found through the maps alone.
    method Successor(node: ElementID) returns (r: Result<Option<ElementID>>)
      requires Valid()
      ensures node in elements ==> r == Ok(Next(View(), node))
      ensures node !in elements ==> r.Throws?
    {
      hide Structured;
      hide Shape;
      IsTree();
      if node !in children {
        if node in elements {
          Lookup(node);
        }
        return Throws("successor called on node absent from children");
      }
      Present(node);
      Lookup(node);
      if children[node] != [] {
        NextIsFirstChild(View(), node);
        return Ok(Some(children[node][0]));
      }
      LeafEnds(View(), node);
      var curr := node;
      while curr != ROOT_ID
        invariant curr in elements && End(View(), curr) == At(View(), node) + 1
        decreases Depth(curr)
      {
        ParentIsHigher(curr);
        Lookup(curr);
        var parent := parentOf[curr];
        Lookup(parent);
        var i := 0;
        while i < |children[parent]|
          invariant i <= |children[parent]| && curr in children[parent][i..]
        {
          if children[parent][i] == curr {
            ClimbFinds(View(), node, curr, i);
            if i + 1 < |children[parent]| {
              return Ok(Some(children[parent][i + 1]));
            }
            break;
          }
          HeadOrTail(children[parent][i..], curr);
          assert children[parent][i..][1..] == children[parent][i + 1..];
          i := i + 1;
        }
        curr := parent;
      }
      ClimbEnds(View(), node);
      return Ok(None);
    }

    lemma Present(id: ElementID)
      requires Valid() && (id in children || id in parentOf)
      ensures id in elements
    {
    }

    // The node before it in traversal order; the root has none.
    method Predecessor(node: ElementID) returns (r: Result<ElementID>)
      requires Valid()
      ensures node in elements && node != ROOT_ID ==> r == Ok(Previous(View(), node))
      ensures node !in elements || node == ROOT_ID ==> r.Throws?
    {
      hide Structured;
      hide Shape;
      IsTree();
      if node !in parentOf {
        if node in elements {
          Lookup(node);
        }
        return Throws("out_of_range");
      }
      Present(node);
      Lookup(node);
      var parent := parentOf[node];
      ParentPresent(View(), node);
      Lookup(parent);
      KidsPresent(View(), parent);
      var siblings := children[parent];
      var index := 0;
      while index < |siblings| && siblings[index] != node
        invariant index <= |siblings| && node !in siblings[..index]
      {
        index := index + 1;
      }
      if index == |siblings| {
        assert siblings[..index] == siblings;
        return Throws("Node not found among parent's children.");
      }
      if index == 0 {
        PreviousOfFirstChild(View(), parent);
        return Ok(parent);
      }
      PreviousSiblingEnds(View(), parent, index);
      var previous := siblings[index - 1];
      assert previous in siblings;
      Lookup(previous);
      while |children[previous]| > 0
        invariant previous in elements && previous in children && children[previous] == View().Kids(previous)
        invariant End(View(), previous) == At(View(), node)
        decreases Height(previous)
      {
        LastChildEndsWithParent(View(), previous);
        var last := children[previous][|children[previous]| - 1];
        ChildIsLower(previous, last);
        Lookup(last);
        previous := last;
      }
      DescentFinds(View(), node, previous);
      return Ok(previous);
    }

    method VisibleSuccessorOf(node: ElementID) returns (r: Result<Option<ElementID>>)
      requires Valid()
      ensures node in elements ==> r == Ok(VisibleSuccessor(View(), node))
      ensures node !in elements ==> r.Throws?
    {
      hide Structured;
      hide Shape;
      IsTree();
      r := Successor(node);
      if r.Throws? {
        return;
      }
      GapAfterNext(View(), node);
      while r.value.Some? && elements[r.value.value].deleted
        invariant r.Ok? && node in elements
        invariant match r.value
                  case None => Gap(View(), node) == |Visible(View())|
                  case Some(m) => m in elements && m != ROOT_ID && GapBefore(View(), m) == Gap(View(), node)
        decreases if r.value.Some? then |Traversal(View())| - At(View(), r.value.value) else 0
      {
        var next := r.value.value;
        Lookup(next);
        GapOfElement(View(), next);
        GapAfterNext(View(), next);
        r := Successor(next);
        if r.value.Some? {
          PlaceOf(View(), r.value.value);
        }
      }
      if r.value.Some? {
        Lookup(r.value.value);
        GapOfElement(View(), r.value.value);
      }
    }

    method VisiblePredecessorOf(node: ElementID) returns (r: Result<ElementID>)
      requires Valid()
      ensures node in elements ==> r == Ok(VisiblePredecessor(View(), node))
      ensures node !in elements ==> r.Throws?
    {
      hide Structured;
      hide Shape;
      IsTree();
      RootIsOwnParent(View());
      if node == ROOT_ID {
        GapOfElement(View(), ROOT_ID);
        return Ok(ROOT_ID);
      }
      r := Predecessor(node);
      if r.Throws? {
        return;
      }
      GapBeforePrevious(View(), node);
      while r.value != ROOT_ID && elements[r.value].deleted
        invariant r.Ok? && r.value in elements && node in elements
        invariant Gap(View(), r.value) == GapBefore(View(), node)
        decreases At(View(), r.value)
      {
        var last := r.value;
        Lookup(last);
        GapOfElement(View(), last);
        GapBeforePrevious(View(), last);
        r := Predecessor(last);
      }
      Lookup(r.value);
      GapOfElement(View(), r.value);
    }

    // ----- Lines and columns -----

    method GetLineColumn(target: ElementID) returns (r: Result<(nat, nat)>)
      requires Valid()
      ensures Shown(View(), target) ==> r == Ok(PositionAtGap(View(), GapBefore(View(), target)))
      ensures !Shown(View(), target) ==> r.Throws?
    {
      hide *;
      IsTree();
      var visited := VisitAll();
      VisibleMembers(View(), target);
      var line, column := 0, 0;
      var result, found := (0, 0), false;
      NoText(View());
      for i := 0 to |visited|
        invariant !found ==> (line, column) == PositionAtGap(View(), i) && forall j | 0 <= j < i :: visited[j] != target
        invariant found ==> target in visited && result == PositionAtGap(View(), GapBefore(View(), target))
      {
        Visited(visited, i);
        if !found {
          var id := visited[i];
          if id == target {
            result := (line, column);
            found := true;
          } else {
            AdvanceCases(line, column, elements[id].ch);
            if elements[id].ch == '\n' {
              line, column := line + 1, 0;
            } else {
              column := column + 1;
            }
          }
        }
      }
      if !found {
        return Throws("Element not found");
      }
      return Ok(result);
    }

    method GetElementAt(targetLine: nat, targetColumn: nat) returns (result: Option<ElementID>)
      requires Valid()
      ensures result == match PlaceOfPosition(Text(View()), targetLine, targetColumn)
                        case None => None
                        case Some(g) => if g < |Visible(View())| then Some(Visible(View())[g]) else None
    {
      hide *;
      var visited := VisitAll();
      var line, column := 0, 0;
      result := None;
      NoText(View());
      ghost var place := PlaceOfPosition(Text(View()), targetLine, targetColumn);
      for i := 0 to |visited|
        invariant result.None? ==> (line, column) == PositionAtGap(View(), i)
        invariant result.None? ==> forall k | 0 <= k < i :: place != Some(k)
        invariant result.Some? ==> exists k :: 0 <= k < |visited| && place == Some(k) && result == Some(visited[k])
      {
        Visited(visited, i);
        PlaceFound(Text(View()), i, targetLine, targetColumn);
        GapPosition(View(), i);
        if result.None? {
          if line == targetLine && column == targetColumn {
            result := Some(visited[i]);
          } else {
            AdvanceCases(line, column, elements[visited[i]].ch);
            if elements[visited[i]].ch == '\n' {
              line, column := line + 1, 0;
            } else {
              column := column + 1;
            }
          }
        }
      }
    }

    method GetAnchorAt(targetLine: nat, targetColumn: nat) returns (result: Option<ElementID>)
      requires Valid()
      ensures result == AnchorOfPosition(View(), targetLine, targetColumn)
    {
      hide *;
      var visited := VisitAll();
      var line, column := 0, 0;
      var previous := ROOT_ID;
      result := None;
      NoText(View());
      ghost var place := PlaceOfPosition(Text(View()), targetLine, targetColumn);
      SameLength(View());
      for i := 0 to |visited|
        invariant result.None? ==> (line, column) == PositionAtGap(View(), i) && previous == AnchorAtGap(View(), i)
        invariant result.None? ==> forall k | 0 <= k < i :: place != Some(k)
        invariant result.Some? ==> exists k ::
                  0 <= k < |visited| && place == Some(k) && result == Some(AnchorAtGap(View(), k))
      {
        Visited(visited, i);
        PlaceFound(Text(View()), i, targetLine, targetColumn);
        GapPosition(View(), i);
        if result.None? {
          if line == targetLine && column == targetColumn {
            result := Some(previous);
          } else {
            previous := visited[i];
            AnchorStep(View(), i);
            AdvanceCases(line, column, elements[visited[i]].ch);
            if elements[visited[i]].ch == '\n' {
              line, column := line + 1, 0;
            } else {
              column := column + 1;
            }
          }
        }
      }
      PlaceFound(Text(View()), |visited|, targetLine, targetColumn);
      GapPosition(View(), |visited|);
      if result.None? && line == targetLine && column == targetColumn {
        result := Some(previous);
      }
      PlaceInText(Text(View()), targetLine, targetColumn);
      AnchorOfPlace(View(), targetLine, targetColumn);
    }

    method GetLineCount() returns (line: nat)
      requires Valid()
      ensures line == |LinesOf(Text(View()))|
    {
      hide *;
      var visited := VisitAll();
      SameLength(View());
      NoLines();
      line := 1;
      for i := 0 to |visited|
        invariant line == |LinesOf(Text(View())[..i])|
      {
        Visited(visited, i);
        CountStep(Text(View()), i);
        if elements[visited[i]].ch == '\n' {
          line := line + 1;
        }
      }
      assert Text(View())[..|visited|] == Text(View());
    }

    method GetLineLength(targetLine: nat) returns (r: Option<nat>)
      requires Valid()
      ensures var ls := LinesOf(Text(View())); r == if targetLine < |ls| then Some(|ls[targetLine]|) else None
    {
      hide *;
      var visited := VisitAll();
      SameLength(View());
      LengthAtEnds(Text(View()), targetLine);
      assert Text(View())[..0] == "";
      var currentLine, length := 0, 0;
      for i := 0 to |visited|
        invariant currentLine == LineReached(Text(View())[..i], targetLine)
        invariant length == LengthReached(Text(View())[..i], targetLine)
      {
        Visited(visited, i);
        LengthStep(Text(View()), i, targetLine);
        var c := elements[visited[i]].ch;
        if currentLine > targetLine {
        } else if currentLine == targetLine {
          if c == '\n' {
            currentLine := currentLine + 1;
          } else {
            length := length + 1;
          }
        } else if c == '\n' {
          currentLine := currentLine + 1;
        }
      }
      assert Text(View())[..|visited|] == Text(View());
      if currentLine == targetLine {
        return Some(length);
      }
      if currentLine > targetLine {
        return Some(length);
      }
      return None;
    }

    method GetMaxLineLength() returns (maxLength: nat)
      requires Valid()
      ensures maxLength == MaxLength(LinesOf(Text(View())))
    {
      hide *;
      var visited := VisitAll();
      SameLength(View());
      maxLength := 0;
      var currentLength := 0;
      LongestAtEnds(Text(View())[..0]);
      for i := 0 to |visited|
        invariant maxLength == LongestFinished(Text(View())[..i]) && currentLength == |LastLine(Text(View())[..i])|
      {
        Visited(visited, i);
        LongestStep(Text(View()), i);
        if elements[visited[i]].ch == '\n' {
          maxLength := if maxLength > currentLength then maxLength else currentLength;
          currentLength := 0;
        } else {
          currentLength := currentLength + 1;
        }
      }
      assert Text(View())[..|visited|] == Text(View());
      LongestAtEnds(Text(View()));
      maxLength := if maxLength > currentLength then maxLength else currentLength;
    }

    // Every clamped position has an anchor.
    method ClampPosition(requestedLine: nat, requestedColumn: nat) returns (line: nat, column: nat)
      requires Valid()
      ensures var ls := LinesOf(Text(View()));
              && line == (if requestedLine < |ls| then requestedLine else |ls| - 1)
              && column == (if requestedColumn < |ls[line]| then requestedColumn else |ls[line]|)
      ensures AnchorOfPosition(View(), line, column).Some?
    {
      line, column := 0, 0;
      var lineCount := GetLineCount();
      if lineCount == 0 {
        return;
      }
      line := if requestedLine < lineCount - 1 then requestedLine else lineCount - 1;
      var length := GetLineLength(line);
      var limit := if length.Some? then length.value else 0;
      column := if requestedColumn < limit then requestedColumn else limit;
    }

    // Where the cursor with this anchor is drawn; any other anchor throws.
    method GetCursorPosition(anchor: ElementID) returns (r: Result<(nat, nat)>)
      requires Valid()
      ensures Anchored(View(), anchor) ==> r == Ok(CursorPosition(View(), anchor))
      ensures !Anchored(View(), anchor) ==> r.Throws?
    {
      hide Structured;
      hide Shape;
      IsTree();
      RootIsOwnParent(View());
      if anchor != ROOT_ID && anchor !in elements {
        return Throws("Element not found");
      }
      if anchor == ROOT_ID {
        GapOfElement(View(), ROOT_ID);
        return Ok((0, 0));
      }
      Lookup(anchor);
      if elements[anchor].deleted {
        return Throws("Element not found");
      }
      VisibleMembers(View(), anchor);
      r := GetLineColumn(anchor);
      var (line, column) := r.value;
      var c := elements[anchor].ch;
      GapOfElement(View(), anchor);
      ghost var i := GapBefore(View(), anchor);
      Visited(Visible(View()), i);
      if c == '\n' {
        return Ok((line + 1, 0));
      }
      return Ok((line, column + 1));
    }

    // ----- Anchors and ranges -----

    // The visible element a remote cursor is drawn at; only an absent anchor has none.
    method ResolveCursorAnchor(anchor: ElementID) returns (r: Option<ElementID>)
      requires Valid()
      ensures r == Resolved(View(), anchor)
    {
      hide Structured;
      hide Shape;
      IsTree();
      if anchor == ROOT_ID {
        return Some(ROOT_ID);
      }
      if anchor !in elements {
        return None;
      }
      Lookup(anchor);
      if !elements[anchor].deleted {
        return Some(anchor);
      }
      var resolved := VisiblePredecessorOf(anchor);
      ResolvedIsAnchored(View(), anchor);
      if resolved.value == ROOT_ID {
        return Some(ROOT_ID);
      }
      if resolved.value !in elements {
        return None;
      }
      Lookup(resolved.value);
      if elements[resolved.value].deleted {
        return None;
      }
      return Some(resolved.value);
    }

    method GetVisibleRange(start: ElementID, end: ElementID) returns (result: seq<ElementID>)
      requires Valid()
      ensures result == VisibleRange(View(), start, end)
    {
      hide *;
      IsTree();
      result := [];
      if start == end {
        EmptyRange(View(), start);
        return;
      }
      var visited := VisitAll();
      var collecting := start == ROOT_ID;
      RangeEnds(View(), start, end);
      for i := 0 to |visited|
        invariant i < |visited| ==> (collecting <==> Collecting(View(), start, end, i))
        invariant result == RangeSoFar(View(), start, end, i)
      {
        RangeStep(View(), start, end, i);
        var id := visited[i];
        if id == end {
          if collecting {
            result := result + [id];
          }
          collecting := false;
        } else if id == start {
          collecting := true;
        } else if collecting {
          result := result + [id];
        }
      }
    }
  }
}
