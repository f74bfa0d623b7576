// How the traversal changes as operations arrive: it only grows in place.
module Growth {
  import opened ElementIds
  import opened Operations
  import opened Trees
  import opened Preorder
  import opened Places

  // The members of a set, in the order of the sequence.
  ghost function Keep<T>(xs: seq<T>, s: set<T>): seq<T>
  {
    if xs == [] then [] else (if xs[0] in s then [xs[0]] else []) + Keep(xs[1..], s)
  }

  lemma {:induction false} KeepConcat<T>(xs: seq<T>, ys: seq<T>, s: set<T>)
    ensures Keep(xs + ys, s) == Keep(xs, s) + Keep(ys, s)
  {
    if xs == [] {
      assert xs + ys == ys;
    } else {
      var head := if xs[0] in s then [xs[0]] else [];
      assert (xs + ys)[1..] == xs[1..] + ys && (xs + ys)[0] == xs[0];
      KeepConcat(xs[1..], ys, s);
      assert Keep(xs + ys, s) == head + Keep(xs[1..] + ys, s);
      assert head + (Keep(xs[1..], s) + Keep(ys, s)) == (head + Keep(xs[1..], s)) + Keep(ys, s);
    }
  }

  lemma {:induction false} KeepMembers<T>(xs: seq<T>, s: set<T>)
    ensures forall x :: x in Keep(xs, s) <==> x in xs && x in s
  {
    if xs != [] {
      KeepMembers(xs[1..], s);
      assert xs == [xs[0]] + xs[1..];
    }
  }

  lemma {:induction false} KeepDescending(ids: seq<ElementID>, s: set<ElementID>)
    requires Descending(ids)
    ensures Descending(Keep(ids, s))
  {
    if ids != [] {
      KeepDescending(ids[1..], s);
      KeepMembers(ids[1..], s);
      var kept := Keep(ids[1..], s);
      forall j | 0 <= j < |kept| ensures Less(kept[j], ids[0]) {
        assert kept[j] in ids[1..];
      }
    }
  }

  // u has every element of t, under the same parent.
  ghost predicate Extends(u: Tree, t: Tree)
  {
    && t.elements.Keys <= u.elements.Keys
    && (forall x {:trigger u.Parent(x)} | x in t.elements :: u.Parent(x) == t.Parent(x))
    && (forall x {:trigger u.Char(x)} | x in t.elements :: u.Char(x) == t.Char(x))
    && (forall x {:trigger u.Deleted(x)} | t.Deleted(x) :: u.Deleted(x))
  }

  lemma {:induction false} ReachableMonotone(ops: set<Operation>, more: set<Operation>, id: ElementID, steps: nat)
    requires ops <= more && ReachableWithin(ops, id, steps)
    ensures ReachableWithin(more, id, steps)
    decreases steps
  {
    if id != ROOT_ID {
      var op :| op in ops && op.Insert? && op.id == id && ReachableWithin(ops, op.parent, steps - 1);
      ReachableMonotone(ops, more, op.parent, steps - 1);
      assert op in more;
    }
  }

  // Elements never disappear, never move to another parent and never change their character, and a
  // tombstone stays, whatever arrives later.
  lemma MoreOperationsExtend(t: Tree, ops: set<Operation>, u: Tree, more: set<Operation>)
    requires Functional(more) && ops <= more && Represents(t, ops) && Represents(u, more)
    ensures Extends(u, t)
  {
    forall x | x in t.elements ensures x in u.elements {
      ElementsAreReachable(t, ops, x);
      var steps: nat :| ReachableWithin(ops, x, steps);
      ReachableMonotone(ops, more, x, steps);
      ElementsAreReachable(u, more, x);
    }
    forall x {:trigger u.Parent(x)} {:trigger u.Char(x)} | x in t.elements
      ensures u.Parent(x) == t.Parent(x) && u.Char(x) == t.Char(x)
    {
      if x != ROOT_ID {
        assert Insert(t.Parent(x), x, t.Char(x)) in ops;
        assert Insert(u.Parent(x), x, u.Char(x)) in more;
      }
    }
  }

  lemma KidsRestrict(t: Tree, u: Tree, p: ElementID)
    requires Shape(t) && Shape(u) && Extends(u, t)
    ensures Keep(u.Kids(p), t.elements.Keys) == t.Kids(p)
  {
    var was := t.elements.Keys;
    var kept := Keep(u.Kids(p), was);
    KeepMembers(u.Kids(p), was);
    assert Descending(u.Kids(p)) && Descending(t.Kids(p));
    KeepDescending(u.Kids(p), was);
    forall c ensures c in kept <==> c in t.Kids(p) {
      assert c in u.Kids(p) <==> c in u.elements && c != ROOT_ID && u.Parent(c) == p;
      assert c in t.Kids(p) <==> c in t.elements && c != ROOT_ID && t.Parent(c) == p;
    }
    DescendingIsCanonical(kept, t.Kids(p));
  }

  lemma {:induction false} WalkRestrict(t: Tree, u: Tree, rank: map<ElementID, nat>, fuel: nat, ns: seq<ElementID>)
    requires Shape(t) && Shape(u) && Extends(u, t) && Ranked(u, rank) && Deep(u, rank, fuel, ns)
    ensures Keep(Walk(u, fuel, ns), t.elements.Keys) == Forest(t, Keep(ns, t.elements.Keys))
    decreases fuel, |ns|
  {
    hide Shape;
    hide Extends;
    if ns != [] {
      var n := ns[0];
      assert n in ns;
      assert rank[n] < |u.elements|;
      KidsAreDeep(u, rank, fuel, n);
      WalkRestrict(t, u, rank, fuel - 1, u.Kids(n));
      WalkRestrict(t, u, rank, fuel, ns[1..]);
      KidsRestrict(t, u, n);
      NoKidsOutside(t, n);
      KeepHead(t, n, Keep(ns[1..], t.elements.Keys));
      KeepStep(n, Walk(u, fuel - 1, u.Kids(n)), Walk(u, fuel, ns[1..]), t.elements.Keys);
      assert Walk(u, fuel, ns) == [n] + Walk(u, fuel - 1, u.Kids(n)) + Walk(u, fuel, ns[1..]);
      hide Walk;
      var rest := Keep(ns[1..], t.elements.Keys);
      assert Keep(ns, t.elements.Keys) == (if n in t.elements then [n] + rest else rest);
      hide Keep;
      if n !in t.elements {
        NothingToWalk(t);
      }
    }
  }

  lemma NothingToWalk(t: Tree)
    ensures Forest(t, []) == []
  {
  }

  lemma KeepStep<T>(n: T, below: seq<T>, rest: seq<T>, s: set<T>)
    ensures Keep([n] + below + rest, s) == (if n in s then [n] else []) + Keep(below, s) + Keep(rest, s)
  {
    assert [n] + below + rest == [n] + (below + rest);
    KeepConcat(below, rest, s);
  }

  lemma KeepHead(t: Tree, n: ElementID, rest: seq<ElementID>)
    requires Shape(t)
    ensures n in t.elements ==> Forest(t, [n] + rest) == [n] + Forest(t, t.Kids(n)) + Forest(t, rest)
  {
    hide Shape;
    hide Walk;
    if n in t.elements {
      SubtreeUnfolds(t, n);
      ForestConcat(t, |t.elements|, [n], rest);
    }
  }

  lemma NoKidsOutside(t: Tree, n: ElementID)
    requires Shape(t)
    ensures n !in t.elements ==> t.Kids(n) == []
  {
  }

  // Whatever operations arrive, in whatever order, the elements already present keep their
  // relative order: the new traversal restricted to them is the old traversal.
  lemma OrderIsStable(t: Tree, ops: set<Operation>, u: Tree, more: set<Operation>)
    requires Functional(more) && ops <= more && Represents(t, ops) && Represents(u, more)
    ensures Keep(Traversal(u), t.elements.Keys) == Traversal(t)
  {
    MoreOperationsExtend(t, ops, u, more);
    RestrictedTraversal(t, u);
  }

  lemma RestrictedTraversal(t: Tree, u: Tree)
    requires Shape(t) && Shape(u) && Extends(u, t)
    ensures Keep(Traversal(u), t.elements.Keys) == Traversal(t)
  {
    hide Shape;
    hide Extends;
    RootIsOwnParent(t);
    RootIsOwnParent(u);
    var rank := RankOf(u);
    assert Deep(u, rank, |u.elements|, [ROOT_ID]);
    WalkRestrict(t, u, rank, |u.elements|, [ROOT_ID]);
    assert Keep([ROOT_ID], t.elements.Keys) == [ROOT_ID];
  }

  // ----- A fresh insert lands right after its parent -----

  // No received operation names the identifier.
  ghost predicate Unheard(ops: set<Operation>, id: ElementID)
  {
    forall op | op in ops :: id !in Mentioned(op)
  }

  lemma FreshInsertAddsLeaf(t: Tree, ops: set<Operation>, op: Operation)
    requires Represents(t, ops) && op.Insert? && op.parent in t.elements && op.id != ROOT_ID && Unheard(ops, op.id)
    ensures op.id !in t.elements && op.parent in t.children
    ensures Represents(AddLeaf(t, op.parent, op.id, Character(op.ch, false)), ops + {op})
  {
    assert op.id in Mentioned(op);
    var there := Insert(t.Parent(op.id), op.id, t.Char(op.id));
    assert there in ops ==> op.id !in Mentioned(there);
    assert Remove(op.id) in ops ==> op.id in Mentioned(Remove(op.id));
    ReceiveInsert(t, ops, op);
    forall w | w in ops + {op} && w.Insert? && w.parent == op.id ensures w == op {
      assert w in ops ==> op.id !in Mentioned(w);
    }
    AddLeafRepresents(t, ops + {op}, {op}, op, {});
    assert {op} - {op} + {} == {};
  }

  lemma FreshestComesFirst(ids: seq<ElementID>, id: ElementID)
    requires Descending(ids) && forall x | x in ids :: Less(x, id)
    ensures SortDescending(ids + [id]) == [id] + ids
  {
    if id in ids {
      LessIsStrictTotalOrder(id, id, id);
      assert false;
    }
    DescendingHasNoDuplicates(ids);
    SortDescendingSorts(ids + [id]);
    assert Descending([id] + ids);
    DescendingIsCanonical(SortDescending(ids + [id]), [id] + ids);
  }

  lemma {:induction false} KeepAllButOne<T>(xs: seq<T>, s: set<T>, k: nat)
    requires NoDuplicates(xs) && k < |xs| && xs[k] !in s
    requires forall x | x in xs && x != xs[k] :: x in s
    ensures Keep(xs, s) == xs[..k] + xs[k + 1..]
  {
    if k == 0 {
      KeepAll(xs[1..], s);
    } else {
      assert xs[0] in xs;
      KeepAllButOne(xs[1..], s, k - 1);
      assert xs[..k] == [xs[0]] + xs[1..][..k - 1];
      assert xs[1..][k..] == xs[k + 1..];
    }
  }

  lemma {:induction false} KeepAll<T>(xs: seq<T>, s: set<T>)
    requires forall x | x in xs :: x in s
    ensures Keep(xs, s) == xs
  {
    if xs != [] {
      KeepAll(xs[1..], s);
      assert xs[0] in xs;
    }
  }

  lemma LeafFirstAmongSiblings(t: Tree, p: ElementID, id: ElementID, c: Character)
    requires Shape(t) && p in t.elements && id !in t.elements && forall x | x in t.Kids(p) :: Less(x, id)
    ensures p in t.children
    ensures var u := AddLeaf(t, p, id, c);
            Shape(u) && Extends(u, t) && u.elements.Keys == t.elements.Keys + {id} && u.Kids(p) == [id] + t.Kids(p)
  {
    AddLeafShape(t, p, id, c);
    AddLeafLookups(t, p, id, c);
    assert Descending(t.Kids(p));
    FreshestComesFirst(t.Kids(p), id);
  }

  lemma NewNodePlace(t: Tree, u: Tree, p: ElementID, id: ElementID)
    requires Shape(t) && Shape(u) && Extends(u, t) && p in t.elements && id !in t.elements
    requires u.elements.Keys == t.elements.Keys + {id} && u.Kids(p) == [id] + t.Kids(p)
    ensures var i := At(u, id);
            0 < i < |Traversal(u)| && Traversal(u)[i - 1] == p
              && Traversal(t) == Traversal(u)[..i] + Traversal(u)[i + 1..]
  {
    hide Shape;
    hide Extends;
    var rank := RankOf(u);
    RootIsOwnParent(t);
    RootIsOwnParent(u);
    assert Deep(u, rank, |u.elements|, [ROOT_ID]);
    WalkRestrict(t, u, rank, |u.elements|, [ROOT_ID]);
    hide Walk;
    assert Keep([ROOT_ID], t.elements.Keys) == [ROOT_ID];
    FirstChildIsNext(u, p);
    PlaceOf(u, p);
    PlaceOf(u, id);
    TraversalIsDistinct(u);
    forall x | x in Traversal(u) ensures x in u.elements {
      TraversalVisitsAll(u, x);
    }
    KeepAllButOne(Traversal(u), t.elements.Keys, At(u, id));
  }

  // An insert with a fresh identifier greater than its siblings' adds one node to the
  // traversal, directly after its parent.
  lemma LeafFollowsParent(t: Tree, p: ElementID, id: ElementID, c: Character)
    requires Shape(t) && p in t.elements && id !in t.elements && forall x | x in t.Kids(p) :: Less(x, id)
    ensures p in t.children && At(t, p) < |Traversal(t)|
    ensures var k := At(t, p) + 1;
            Traversal(AddLeaf(t, p, id, c)) == Traversal(t)[..k] + [id] + Traversal(t)[k..]
  {
    hide *;
    LeafFirstAmongSiblings(t, p, id, c);
    var u := AddLeaf(t, p, id, c);
    NewNodePlace(t, u, p, id);
    var i := At(u, id);
    PlaceOf(u, id);
    Reinsert(Traversal(t), Traversal(u), i);
    PlaceIsUnique(t, p, i - 1);
  }

  lemma Reinsert<T>(a: seq<T>, b: seq<T>, i: nat)
    requires 0 < i < |b| && a == b[..i] + b[i + 1..]
    ensures |a| == |b| - 1 && a[i - 1] == b[i - 1]
    ensures b == a[..i] + [b[i]] + a[i..]
  {
  }
}
