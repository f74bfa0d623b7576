// The preorder traversal of the tree, and where every node sits in it.
module Preorder {
  import opened ElementIds
  import opened Trees

  // The traversal of a list of subtrees. The fuel only bounds the depth: for a tree, its size
  // is always enough (FuelIsIrrelevant), so the equations below never mention it.
  ghost function Walk(t: Tree, fuel: nat, ns: seq<ElementID>): seq<ElementID>
    decreases fuel, |ns|
  {
    if fuel == 0 || ns == [] then []
    else [ns[0]] + Walk(t, fuel - 1, t.Kids(ns[0])) + Walk(t, fuel, ns[1..])
  }

  ghost function Forest(t: Tree, ns: seq<ElementID>): seq<ElementID>
  {
    Walk(t, |t.elements|, ns)
  }

  ghost function Subtree(t: Tree, n: ElementID): seq<ElementID>
  {
    Forest(t, [n])
  }

  ghost function Traversal(t: Tree): seq<ElementID>
  {
    Subtree(t, ROOT_ID)
  }

  ghost predicate Deep(t: Tree, rank: map<ElementID, nat>, fuel: nat, ns: seq<ElementID>)
  {
    forall n | n in ns :: n in rank && rank[n] + fuel >= |t.elements|
  }

  lemma KidsAreDeep(t: Tree, rank: map<ElementID, nat>, fuel: nat, n: ElementID)
    requires Shape(t) && Ranked(t, rank) && n in rank && rank[n] + fuel >= |t.elements|
    ensures Deep(t, rank, fuel - 1, t.Kids(n))
  {
    forall c | c in t.Kids(n) ensures c in rank && rank[c] + (fuel - 1) >= |t.elements| {
      assert t.Parent(c) == n;
    }
  }

  lemma {:induction false} FuelIsIrrelevant(t: Tree, rank: map<ElementID, nat>, f: nat, g: nat, ns: seq<ElementID>)
    requires Shape(t) && Ranked(t, rank) && Deep(t, rank, f, ns) && Deep(t, rank, g, ns)
    ensures Walk(t, f, ns) == Walk(t, g, ns)
    decreases f, |ns|
  {
    hide Shape;
    if ns != [] {
      assert ns[0] in ns;
      assert rank[ns[0]] < |t.elements|;
      KidsAreDeep(t, rank, f, ns[0]);
      KidsAreDeep(t, rank, g, ns[0]);
      FuelIsIrrelevant(t, rank, f - 1, g - 1, t.Kids(ns[0]));
      FuelIsIrrelevant(t, rank, f, g, ns[1..]);
    }
  }

  ghost predicate AllPresent(t: Tree, ns: seq<ElementID>)
  {
    forall n | n in ns :: n in t.elements
  }

  lemma KidsPresent(t: Tree, p: ElementID)
    requires Shape(t)
    ensures AllPresent(t, t.Kids(p))
    ensures forall c | c in t.Kids(p) :: c != ROOT_ID && t.Parent(c) == p
  {
  }

  // A subtree is its node followed by its children's subtrees in sibling order.
  lemma SubtreeUnfolds(t: Tree, n: ElementID)
    requires Shape(t) && n in t.elements
    ensures Subtree(t, n) == [n] + Forest(t, t.Kids(n))
  {
    hide Shape;
    var rank := RankOf(t);
    var size := |t.elements|;
    assert rank[n] < size;
    KidsAreDeep(t, rank, size, n);
    FuelIsIrrelevant(t, rank, size - 1, size, t.Kids(n));
    WalkOfOne(t, size, n);
  }

  lemma WalkOfOne(t: Tree, fuel: nat, n: ElementID)
    requires fuel > 0
    ensures Walk(t, fuel, [n]) == [n] + Walk(t, fuel - 1, t.Kids(n))
  {
    assert [n][1..] == [];
    assert Walk(t, fuel, []) == [];
  }

  lemma {:induction false} ForestConcat(t: Tree, fuel: nat, xs: seq<ElementID>, ys: seq<ElementID>)
    ensures Walk(t, fuel, xs + ys) == Walk(t, fuel, xs) + Walk(t, fuel, ys)
    decreases |xs|
  {
    if xs == [] {
      assert xs + ys == ys;
    } else if fuel > 0 {
      assert (xs + ys)[1..] == xs[1..] + ys;
      ForestConcat(t, fuel, xs[1..], ys);
    }
  }

  // A node's subtree splits around its i-th child.
  lemma SubtreeSplits(t: Tree, p: ElementID, i: nat)
    requires Shape(t) && p in t.elements && i < |t.Kids(p)|
    ensures var ks := t.Kids(p);
            Subtree(t, p) == [p] + Forest(t, ks[..i]) + Subtree(t, ks[i]) + Forest(t, ks[i + 1..])
  {
    hide Shape;
    hide Walk;
    var ks := t.Kids(p);
    SubtreeUnfolds(t, p);
    assert ks == ks[..i] + ([ks[i]] + ks[i + 1..]);
    ForestConcat(t, |t.elements|, ks[..i], [ks[i]] + ks[i + 1..]);
    ForestConcat(t, |t.elements|, [ks[i]], ks[i + 1..]);
  }

  // ----- Who is in a subtree -----

  // k steps towards the root; the root is its own parent.
  ghost function Up(t: Tree, n: ElementID, k: nat): ElementID
    decreases k
  {
    if k == 0 then n else Up(t, t.Parent(n), k - 1)
  }

  ghost predicate Descends(t: Tree, x: ElementID, n: ElementID)
  {
    exists k: nat :: Up(t, x, k) == n
  }

  lemma {:induction false} WalkMember(t: Tree, fuel: nat, ns: seq<ElementID>, x: ElementID) returns (n: ElementID)
    requires Shape(t) && AllPresent(t, ns) && x in Walk(t, fuel, ns)
    ensures x in t.elements && n in ns && Descends(t, x, n)
    decreases fuel, |ns|
  {
    hide Shape;
    assert ns[0] in ns;
    if x == ns[0] {
      n := x;
      assert Up(t, x, 0) == n;
    } else if x in Walk(t, fuel - 1, t.Kids(ns[0])) {
      n := ns[0];
      KidsPresent(t, n);
      var c := WalkMember(t, fuel - 1, t.Kids(n), x);
      ChildDescends(t, x, c);
    } else {
      n := WalkMember(t, fuel, ns[1..], x);
    }
  }

  lemma ChildDescends(t: Tree, x: ElementID, c: ElementID)
    requires Descends(t, x, c)
    ensures Descends(t, x, t.Parent(c))
  {
    var k: nat :| Up(t, x, k) == c;
    UpOnce(t, x, k);
    assert Up(t, x, k + 1) == t.Parent(c);
  }

  lemma {:induction false} UpOnce(t: Tree, n: ElementID, k: nat)
    ensures Up(t, n, k + 1) == t.Parent(Up(t, n, k))
    decreases k
  {
    if k > 0 {
      UpOnce(t, t.Parent(n), k - 1);
    }
  }

  lemma {:induction false} DescendantInSubtree(t: Tree, x: ElementID, n: ElementID, k: nat)
    requires Shape(t) && x in t.elements && Up(t, x, k) == n
    ensures n in t.elements && x in Subtree(t, n)
    decreases k
  {
    hide Shape;
    if k == 0 {
      SubtreeUnfolds(t, n);
    } else if x == ROOT_ID {
      RootIsOwnParent(t);
      DescendantInSubtree(t, x, n, k - 1);
    } else {
      ParentPresent(t, x);
      DescendantInSubtree(t, t.Parent(x), n, k - 1);
      ChildFollowsParent(t, |t.elements|, [n], RankOf(t), x);
    }
  }

  lemma RootIsOwnParent(t: Tree)
    requires Shape(t)
    ensures ROOT_ID in t.elements && t.Parent(ROOT_ID) == ROOT_ID
  {
  }

  lemma ParentPresent(t: Tree, x: ElementID)
    requires Shape(t) && x in t.elements
    ensures t.Parent(x) in t.elements
    ensures x != ROOT_ID ==> x in t.Kids(t.Parent(x))
  {
  }

  // A walk that reaches a node reaches its children.
  lemma {:induction false} ChildFollowsParent(
    t: Tree, fuel: nat, ns: seq<ElementID>, rank: map<ElementID, nat>, x: ElementID)
    requires Shape(t) && Ranked(t, rank) && Deep(t, rank, fuel, ns)
    requires x in t.elements && x != ROOT_ID && t.Parent(x) in Walk(t, fuel, ns)
    ensures x in Walk(t, fuel, ns)
    decreases fuel, |ns|
  {
    hide Shape;
    var n := ns[0];
    assert n in ns;
    KidsAreDeep(t, rank, fuel, n);
    if t.Parent(x) == n {
      ParentPresent(t, x);
      assert rank[n] < rank[x] < |t.elements|;
      ListedIsWalked(t, fuel - 1, t.Kids(n), x);
    } else if t.Parent(x) in Walk(t, fuel - 1, t.Kids(n)) {
      ChildFollowsParent(t, fuel - 1, t.Kids(n), rank, x);
    } else {
      ChildFollowsParent(t, fuel, ns[1..], rank, x);
    }
  }

  lemma {:induction false} ListedIsWalked(t: Tree, fuel: nat, ns: seq<ElementID>, x: ElementID)
    requires fuel > 0 && x in ns
    ensures x in Walk(t, fuel, ns)
    decreases |ns|
  {
    if x != ns[0] {
      ListedIsWalked(t, fuel, ns[1..], x);
    }
  }

  // The members of a subtree are exactly the node's descendants.
  lemma SubtreeIsDescendants(t: Tree, x: ElementID, n: ElementID)
    requires Shape(t) && n in t.elements
    ensures x in Subtree(t, n) <==> x in t.elements && Descends(t, x, n)
  {
    hide Shape;
    if x in Subtree(t, n) {
      var m := WalkMember(t, |t.elements|, [n], x);
    }
    if x in t.elements && Descends(t, x, n) {
      var k: nat :| Up(t, x, k) == n;
      DescendantInSubtree(t, x, n, k);
    }
  }

  lemma {:induction false} AllDescendFromRoot(t: Tree, rank: map<ElementID, nat>, x: ElementID)
    requires Shape(t) && Ranked(t, rank) && x in t.elements
    ensures Descends(t, x, ROOT_ID)
    decreases rank[x]
  {
    hide Shape;
    if x == ROOT_ID {
      assert Up(t, x, 0) == ROOT_ID;
    } else {
      ParentPresent(t, x);
      AllDescendFromRoot(t, rank, t.Parent(x));
      var k: nat :| Up(t, t.Parent(x), k) == ROOT_ID;
      assert Up(t, x, k + 1) == ROOT_ID;
    }
  }

  // The traversal visits every element.
  lemma TraversalVisitsAll(t: Tree, x: ElementID)
    requires Shape(t)
    ensures x in Traversal(t) <==> x in t.elements
  {
    hide Shape;
    RootIsOwnParent(t);
    SubtreeIsDescendants(t, x, ROOT_ID);
    if x in t.elements {
      AllDescendFromRoot(t, RankOf(t), x);
    }
  }
}
