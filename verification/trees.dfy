// The replicated tree as a value, the declarative meaning of a set of operations, and
// the proof that the meaning exists and is unique.
module Trees {
  import opened ElementIds
  import opened Operations

  datatype Character = Character(ch: char, deleted: bool)

  datatype Tree = Tree(
    elements: map<ElementID, Character>,
    children: map<ElementID, seq<ElementID>>,
    parentOf: map<ElementID, ElementID>)
  {
    // Total lookups, so that statements about trees need no side conditions.
    ghost function Parent(id: ElementID): ElementID {
      if id in parentOf then parentOf[id] else id
    }

    ghost function Kids(id: ElementID): seq<ElementID> {
      if id in children then children[id] else []
    }

    ghost function Char(id: ElementID): char {
      if id in elements then elements[id].ch else '\0'
    }

    ghost predicate Deleted(id: ElementID) {
      id in elements && elements[id].deleted
    }
  }

  // ----- Shape: one rooted tree held in three maps -----

  ghost predicate SameKeys(t: Tree)
  {
    ROOT_ID in t.elements && t.children.Keys == t.elements.Keys && t.parentOf.Keys == t.elements.Keys
  }

  ghost predicate ParentsPresent(t: Tree)
  {
    && t.Parent(ROOT_ID) == ROOT_ID
    && forall id {:trigger t.Parent(id)} | id in t.elements :: t.Parent(id) in t.elements
  }

  // Sibling lists are strictly descending and agree with the parent map.
  ghost predicate SiblingsMatch(t: Tree)
  {
    && (forall p {:trigger t.Kids(p)} :: Descending(t.Kids(p)))
    && (forall p, c {:trigger c in t.Kids(p)} ::
          c in t.Kids(p) <==> c in t.elements && c != ROOT_ID && t.Parent(c) == p)
  }

  // A rank that grows from parent to child rules out cycles and bounds every walk.
  ghost predicate Ranked(t: Tree, rank: map<ElementID, nat>)
  {
    && rank.Keys == t.elements.Keys
    && (forall id {:trigger rank[id]} | id in rank :: rank[id] < |t.elements|)
    && (forall id {:trigger t.Parent(id)} | id in rank && id != ROOT_ID ::
       t.Parent(id) in rank && rank[t.Parent(id)] < rank[id])
  }

  ghost predicate Acyclic(t: Tree)
  {
    exists rank :: Ranked(t, rank)
  }

  ghost predicate Shape(t: Tree)
  {
    SameKeys(t) && ParentsPresent(t) && SiblingsMatch(t) && Acyclic(t)
  }

  ghost function RankOf(t: Tree): (rank: map<ElementID, nat>)
    requires Shape(t)
    ensures Ranked(t, rank)
  {
    var rank :| Ranked(t, rank); rank
  }

  // ----- Meaning of a set of operations -----

  // Every element but the root was inserted by an operation of the set.
  ghost predicate Sound(t: Tree, ops: set<Operation>)
  {
    && t.Char(ROOT_ID) == '\0'
    && forall id {:trigger t.Parent(id)} | id in t.elements && id != ROOT_ID ::
       Insert(t.Parent(id), id, t.Char(id)) in ops
  }

  // An element is a tombstone exactly when a removal of it is in the set.
  ghost predicate Tombstones(t: Tree, ops: set<Operation>)
  {
    forall id {:trigger t.Deleted(id)} | id in t.elements :: t.Deleted(id) <==> Remove(id) in ops
  }

  // An insert whose parent is present has been applied, apart from those in hand.
  ghost predicate ClosedExcept(t: Tree, ops: set<Operation>, inHand: set<Operation>)
  {
    forall op | op in ops && op.Insert? && op.parent in t.elements :: op.id in t.elements || op in inHand
  }

  ghost predicate RepresentsExcept(t: Tree, ops: set<Operation>, inHand: set<Operation>)
  {
    Shape(t) && Sound(t, ops) && Tombstones(t, ops) && ClosedExcept(t, ops, inHand)
  }

  ghost predicate Represents(t: Tree, ops: set<Operation>)
  {
    RepresentsExcept(t, ops, {})
  }

  // ----- Reachability from the root through parent links -----

  ghost predicate ReachableWithin(ops: set<Operation>, id: ElementID, steps: nat)
    decreases steps
  {
    id == ROOT_ID || (steps > 0 && exists op ::
      op in ops && op.Insert? && op.id == id && ReachableWithin(ops, op.parent, steps - 1))
  }

  ghost predicate Reachable(ops: set<Operation>, id: ElementID)
  {
    exists steps: nat :: ReachableWithin(ops, id, steps)
  }

  lemma {:induction false} ElementIsReachable(t: Tree, ops: set<Operation>, rank: map<ElementID, nat>, id: ElementID)
    requires Represents(t, ops) && Ranked(t, rank) && id in t.elements
    ensures ReachableWithin(ops, id, rank[id])
    decreases rank[id]
  {
    if id != ROOT_ID {
      var op := Insert(t.Parent(id), id, t.Char(id));
      ElementIsReachable(t, ops, rank, op.parent);
      ReachableLonger(ops, op.parent, rank[op.parent], rank[id] - 1);
      assert op in ops && op.id == id && ReachableWithin(ops, op.parent, rank[id] - 1);
    }
  }

  lemma {:induction false} ReachableLonger(ops: set<Operation>, id: ElementID, m: nat, n: nat)
    requires ReachableWithin(ops, id, m) && m <= n
    ensures ReachableWithin(ops, id, n)
    decreases m
  {
    if id != ROOT_ID {
      var op :| op in ops && op.Insert? && op.id == id && ReachableWithin(ops, op.parent, m - 1);
      ReachableLonger(ops, op.parent, m - 1, n - 1);
    }
  }

  lemma {:induction false} ReachableIsElement(t: Tree, ops: set<Operation>, id: ElementID, steps: nat)
    requires Represents(t, ops) && ReachableWithin(ops, id, steps)
    ensures id in t.elements
    decreases steps
  {
    if id != ROOT_ID {
      var op :| op in ops && op.Insert? && op.id == id && ReachableWithin(ops, op.parent, steps - 1);
      ReachableIsElement(t, ops, op.parent, steps - 1);
    }
  }

  // The elements are the root plus the inserts reachable from it.
  lemma ElementsAreReachable(t: Tree, ops: set<Operation>, id: ElementID)
    requires Represents(t, ops)
    ensures id in t.elements <==> Reachable(ops, id)
  {
    if id in t.elements {
      ElementIsReachable(t, ops, RankOf(t), id);
    }
    if Reachable(ops, id) {
      var steps: nat :| ReachableWithin(ops, id, steps);
      ReachableIsElement(t, ops, id, steps);
    }
  }

  // ----- Uniqueness -----

  // The two trees say the same about one identifier.
  ghost predicate AgreeAt(t: Tree, u: Tree, id: ElementID)
  {
    && (id in t.elements <==> id in u.elements)
    && t.Parent(id) == u.Parent(id) && t.Char(id) == u.Char(id) && t.Deleted(id) == u.Deleted(id)
  }

  lemma SameElement(t: Tree, u: Tree, ops: set<Operation>, id: ElementID)
    requires Functional(ops) && Represents(t, ops) && Represents(u, ops)
    ensures AgreeAt(t, u, id)
  {
    ElementsAreReachable(t, ops, id);
    ElementsAreReachable(u, ops, id);
    if id in t.elements && id != ROOT_ID {
      var a := Insert(t.Parent(id), id, t.Char(id));
      var b := Insert(u.Parent(id), id, u.Char(id));
      assert a in ops && b in ops;
    }
  }

  lemma SameSiblings(t: Tree, u: Tree, p: ElementID)
    requires SiblingsMatch(t) && SiblingsMatch(u)
    requires forall id :: AgreeAt(t, u, id)
    ensures t.Kids(p) == u.Kids(p)
  {
    forall c ensures c in t.Kids(p) <==> c in u.Kids(p) {
      assert AgreeAt(t, u, c);
    }
    DescendingIsCanonical(t.Kids(p), u.Kids(p));
  }

  lemma SameTree(t: Tree, u: Tree)
    requires SameKeys(t) && SameKeys(u)
    requires forall id :: AgreeAt(t, u, id)
    requires forall p :: t.Kids(p) == u.Kids(p)
    ensures t == u
  {
    forall id ensures id in t.elements <==> id in u.elements {
      assert AgreeAt(t, u, id);
    }
    assert t.elements.Keys == u.elements.Keys;
    forall id | id in t.elements ensures t.elements[id] == u.elements[id] && t.parentOf[id] == u.parentOf[id] {
      assert AgreeAt(t, u, id);
    }
    assert t.elements == u.elements && t.parentOf == u.parentOf;
    forall p | p in t.children ensures t.children[p] == u.children[p] {
      assert t.Kids(p) == u.Kids(p);
    }
    assert t.children == u.children;
  }

  // Two trees that represent the same operations are the same tree: same elements and
  // tombstones, same parents, same sibling lists.
  lemma RepresentationIsUnique(t: Tree, u: Tree, ops: set<Operation>)
    requires Functional(ops) && Represents(t, ops) && Represents(u, ops)
    ensures t == u
  {
    forall id ensures AgreeAt(t, u, id) {
      SameElement(t, u, ops, id);
    }
    forall p ensures t.Kids(p) == u.Kids(p) {
      SameSiblings(t, u, p);
    }
    SameTree(t, u);
  }

  // ----- Adding one leaf -----

  // The four map updates that insert one element under a present parent.
  function AddLeaf(t: Tree, parent: ElementID, id: ElementID, c: Character): (r: Tree)
    requires parent in t.children
  {
    Tree(t.elements[id := c],
         t.children[parent := SortDescending(t.children[parent] + [id])][id := []],
         t.parentOf[id := parent])
  }

  lemma AddLeafLookups(t: Tree, parent: ElementID, id: ElementID, c: Character)
    requires parent in t.children && id !in t.elements
    ensures var r := AddLeaf(t, parent, id, c);
            && r.elements.Keys == t.elements.Keys + {id}
            && r.children.Keys == t.children.Keys + {id}
            && r.parentOf.Keys == t.parentOf.Keys + {id}
            && (forall x {:trigger r.Parent(x)} :: r.Parent(x) == if x == id then parent else t.Parent(x))
            && (forall x {:trigger r.Char(x)} :: r.Char(x) == if x == id then c.ch else t.Char(x))
            && (forall x {:trigger r.Deleted(x)} :: r.Deleted(x) == if x == id then c.deleted else t.Deleted(x))
            && (forall x {:trigger r.Kids(x)} ::
                  r.Kids(x) == if x == id then [] else if x == parent
                    then SortDescending(t.Kids(x) + [id]) else t.Kids(x))
  {
  }

  lemma AddLeafSiblings(t: Tree, parent: ElementID, id: ElementID, c: Character)
    requires Shape(t) && parent in t.elements && id !in t.elements
    ensures SiblingsMatch(AddLeaf(t, parent, id, c))
  {
    var r := AddLeaf(t, parent, id, c);
    AddLeafLookups(t, parent, id, c);
    var pushed := t.Kids(parent) + [id];
    assert id !in t.Kids(parent);
    DescendingHasNoDuplicates(t.Kids(parent));
    SortDescendingSorts(pushed);
    forall p, x ensures x in r.Kids(p) <==> x in r.elements && x != ROOT_ID && r.Parent(x) == p {
      assert x in t.Kids(p) <==> x in t.elements && x != ROOT_ID && t.Parent(x) == p;
      if p == id && x in t.elements {
        assert t.Parent(x) in t.elements;
      } else if p == parent {
        assert x in pushed <==> x in t.Kids(parent) || x == id;
      }
    }
    forall p ensures Descending(r.Kids(p)) {
      assert Descending(t.Kids(p));
    }
  }

  lemma AddLeafRanked(t: Tree, parent: ElementID, id: ElementID, c: Character, rank: map<ElementID, nat>)
    requires SameKeys(t) && Ranked(t, rank) && parent in t.elements && id !in t.elements
    ensures Ranked(AddLeaf(t, parent, id, c), rank[id := |t.elements|])
  {
    hide AddLeaf;
    var r := AddLeaf(t, parent, id, c);
    AddLeafLookups(t, parent, id, c);
    var rank' := rank[id := |t.elements|];
    assert |r.elements.Keys| == |t.elements.Keys| + 1;
    assert |r.elements| == |r.elements.Keys| && |t.elements| == |t.elements.Keys|;
    forall x | x in rank' && x != ROOT_ID ensures r.Parent(x) in rank' && rank'[r.Parent(x)] < rank'[x] {
      assert x != id ==> t.Parent(x) in rank && rank[t.Parent(x)] < rank[x];
    }
  }

  lemma AddLeafShape(t: Tree, parent: ElementID, id: ElementID, c: Character)
    requires Shape(t) && parent in t.elements && id !in t.elements
    ensures Shape(AddLeaf(t, parent, id, c))
  {
    hide SiblingsMatch;
    hide Ranked;
    var r := AddLeaf(t, parent, id, c);
    AddLeafSiblings(t, parent, id, c);
    AddLeafLookups(t, parent, id, c);
    AddLeafRanked(t, parent, id, c, RankOf(t));
  }

  lemma AddLeafSound(t: Tree, ops: set<Operation>, parent: ElementID, id: ElementID, c: Character)
    requires SameKeys(t) && Sound(t, ops) && parent in t.elements && id !in t.elements
    requires Insert(parent, id, c.ch) in ops
    ensures Sound(AddLeaf(t, parent, id, c), ops)
  {
    var r := AddLeaf(t, parent, id, c);
    AddLeafLookups(t, parent, id, c);
    forall x {:trigger r.Parent(x)} | x in r.elements && x != ROOT_ID ensures Insert(r.Parent(x), x, r.Char(x)) in ops {
      assert x != id ==> Insert(t.Parent(x), x, t.Char(x)) in ops;
    }
  }

  lemma AddLeafTombstones(t: Tree, ops: set<Operation>, parent: ElementID, id: ElementID, c: Character)
    requires SameKeys(t) && Tombstones(t, ops) && parent in t.elements && id !in t.elements
    requires c.deleted <==> Remove(id) in ops
    ensures Tombstones(AddLeaf(t, parent, id, c), ops)
  {
    var r := AddLeaf(t, parent, id, c);
    AddLeafLookups(t, parent, id, c);
    forall x {:trigger r.Deleted(x)} | x in r.elements ensures r.Deleted(x) <==> Remove(x) in ops {
      assert x != id ==> (t.Deleted(x) <==> Remove(x) in ops);
    }
  }

  lemma AddLeafClosed(
    t: Tree, ops: set<Operation>, inHand: set<Operation>, op: Operation, c: Character, waiting: set<Operation>)
    requires ClosedExcept(t, ops, inHand) && op.Insert? && op.parent in t.children
    requires forall w | w in ops && w.Insert? && w.parent == op.id && w.id !in t.elements && w != op ::
             w in inHand || w in waiting
    ensures ClosedExcept(AddLeaf(t, op.parent, op.id, c), ops, (inHand - {op}) + waiting)
  {
    assert AddLeaf(t, op.parent, op.id, c).elements.Keys == t.elements.Keys + {op.id};
  }

  // Applying an insert whose parent is present takes it out of hand and puts the inserts
  // that waited for it in hand.
  lemma AddLeafRepresents(t: Tree, ops: set<Operation>, inHand: set<Operation>, op: Operation, waiting: set<Operation>)
    requires RepresentsExcept(t, ops, inHand)
    requires op.Insert? && op in ops && op.parent in t.elements && op.id !in t.elements
    requires forall w | w in ops && w.Insert? && w.parent == op.id && w.id !in t.elements && w != op ::
             w in inHand || w in waiting
    ensures RepresentsExcept(AddLeaf(t, op.parent, op.id, Character(op.ch, Remove(op.id) in ops)),
                             ops, (inHand - {op}) + waiting)
  {
    var c := Character(op.ch, Remove(op.id) in ops);
    var r := AddLeaf(t, op.parent, op.id, c);
    AddLeafShape(t, op.parent, op.id, c);
    AddLeafSound(t, ops, op.parent, op.id, c);
    AddLeafTombstones(t, ops, op.parent, op.id, c);
    AddLeafClosed(t, ops, inHand, op, c, waiting);
  }

  // ----- Receiving an operation -----

  // A newly received insert is in hand until it is applied or buffered.
  lemma ReceiveInsert(t: Tree, ops: set<Operation>, op: Operation)
    requires Represents(t, ops) && op.Insert?
    ensures RepresentsExcept(t, ops + {op}, if op in ops then {} else {op})
  {
    forall id {:trigger t.Parent(id)} | id in t.elements && id != ROOT_ID
      ensures Insert(t.Parent(id), id, t.Char(id)) in ops + {op}
    {
      assert Insert(t.Parent(id), id, t.Char(id)) in ops;
    }
    forall id {:trigger t.Deleted(id)} | id in t.elements ensures t.Deleted(id) <==> Remove(id) in ops + {op} {
      assert t.Deleted(id) <==> Remove(id) in ops;
    }
  }

  // What setting the deleted flag of a present element does to the tree.
  function Bury(t: Tree, id: ElementID): (r: Tree)
  {
    if id in t.elements then t.(elements := t.elements[id := t.elements[id].(deleted := true)]) else t
  }

  lemma BuryLookups(t: Tree, id: ElementID)
    ensures var r := Bury(t, id);
            && r.elements.Keys == t.elements.Keys && r.children == t.children && r.parentOf == t.parentOf
            && (forall x {:trigger r.Char(x)} :: r.Char(x) == t.Char(x))
            && (forall x {:trigger r.Deleted(x)} :: r.Deleted(x) == (t.Deleted(x) || (x == id && id in t.elements)))
            && (forall x {:trigger r.Parent(x)} :: r.Parent(x) == t.Parent(x))
            && (forall x {:trigger r.Kids(x)} :: r.Kids(x) == t.Kids(x))
  {
  }

  lemma BuryShape(t: Tree, id: ElementID)
    requires Shape(t)
    ensures Shape(Bury(t, id))
  {
    BuryLookups(t, id);
    var r := Bury(t, id);
    assert |r.elements| == |r.elements.Keys| == |t.elements|;
    forall p, c ensures c in r.Kids(p) <==> c in r.elements && c != ROOT_ID && r.Parent(c) == p {
      assert c in t.Kids(p) <==> c in t.elements && c != ROOT_ID && t.Parent(c) == p;
    }
    forall p ensures Descending(r.Kids(p)) {
      assert Descending(t.Kids(p));
    }
    assert Ranked(r, RankOf(t));
  }

  lemma BuryRepresents(t: Tree, ops: set<Operation>, id: ElementID)
    requires Represents(t, ops)
    ensures Represents(Bury(t, id), ops + {Remove(id)})
  {
    var r := Bury(t, id);
    BuryShape(t, id);
    BuryLookups(t, id);
    forall x {:trigger r.Parent(x)} | x in r.elements && x != ROOT_ID
      ensures Insert(r.Parent(x), x, r.Char(x)) in ops + {Remove(id)}
    {
      assert Insert(t.Parent(x), x, t.Char(x)) in ops;
    }
    forall x {:trigger r.Deleted(x)} | x in r.elements ensures r.Deleted(x) <==> Remove(x) in ops + {Remove(id)} {
      assert t.Deleted(x) <==> Remove(x) in ops;
    }
  }

  // ----- Existence -----

  // A document before any insert: the root alone, tombstoned or not.
  function RootTree(rootDeleted: bool): Tree
  {
    Tree(map[ROOT_ID := Character('\0', rootDeleted)], map[ROOT_ID := []], map[ROOT_ID := ROOT_ID])
  }

  lemma RootTreeShape(rootDeleted: bool)
    ensures Shape(RootTree(rootDeleted))
  {
    var rank := map[ROOT_ID := 0];
    assert Ranked(RootTree(rootDeleted), rank);
  }

  lemma RootTreeRepresents(ops: set<Operation>)
    ensures RepresentsExcept(RootTree(Remove(ROOT_ID) in ops), ops, ops)
  {
    RootTreeShape(Remove(ROOT_ID) in ops);
  }

  ghost predicate Applicable(t: Tree, ops: set<Operation>, op: Operation)
  {
    op in ops && op.Insert? && op.parent in t.elements && op.id !in t.elements
  }

  ghost function Grow(t: Tree, ops: set<Operation>): (r: Tree)
    requires Functional(ops) && RepresentsExcept(t, ops, ops)
    ensures Represents(r, ops)
    decreases InsertedIds(ops) - t.elements.Keys
  {
    if op :| Applicable(t, ops, op) then
      var c := Character(op.ch, Remove(op.id) in ops);
      AddLeafRepresents(t, ops, ops, op, ops);
      AddLeafShrinks(t, ops, op, c);
      Grow(AddLeaf(t, op.parent, op.id, c), ops)
    else
      assert forall op | op in ops && op.Insert? && op.parent in t.elements ::
        Applicable(t, ops, op) || op.id in t.elements;
      t
  }

  lemma AddLeafShrinks(t: Tree, ops: set<Operation>, op: Operation, c: Character)
    requires SameKeys(t) && Applicable(t, ops, op)
    ensures InsertedIds(ops) - AddLeaf(t, op.parent, op.id, c).elements.Keys < InsertedIds(ops) - t.elements.Keys
  {
    assert op.id in InsertedIds(ops) - t.elements.Keys;
  }

  // The tree a set of operations stands for.
  ghost function TreeOf(ops: set<Operation>): (t: Tree)
    requires Functional(ops)
    ensures Represents(t, ops)
  {
    RootTreeRepresents(ops);
    Grow(RootTree(Remove(ROOT_ID) in ops), ops)
  }
}
