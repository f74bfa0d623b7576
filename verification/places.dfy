// Where each node stands in the traversal: subtrees are contiguous blocks, sibling blocks
// follow one another in descending order of their identifiers.
module Places {
  import opened Wrappers
  import opened ElementIds
  import opened Trees
  import opened Preorder

  ghost function IndexOf<T>(xs: seq<T>, x: T): (i: nat)
    ensures i <= |xs|
    ensures i < |xs| ==> xs[i] == x
    ensures x in xs ==> i < |xs|
  {
    if xs == [] || xs[0] == x then 0 else 1 + IndexOf(xs[1..], x)
  }

  // The position of a node in the traversal, and the position just after its subtree.
  ghost function At(t: Tree, n: ElementID): nat
  {
    IndexOf(Traversal(t), n)
  }

  ghost function End(t: Tree, n: ElementID): nat
  {
    At(t, n) + |Subtree(t, n)|
  }

  // ----- No node is visited twice -----

  lemma {:induction false} UpLowersRank(t: Tree, rank: map<ElementID, nat>, x: ElementID, k: nat)
    requires Shape(t) && Ranked(t, rank) && x in t.elements
    ensures Up(t, x, k) in t.elements && rank[Up(t, x, k)] <= rank[x]
    decreases k
  {
    hide Shape;
    if k > 0 {
      ParentPresent(t, x);
      RootIsOwnParent(t);
      UpLowersRank(t, rank, t.Parent(x), k - 1);
    }
  }

  lemma AncestorPresent(t: Tree, x: ElementID, n: ElementID)
    requires Shape(t) && x in t.elements && Descends(t, x, n)
    ensures n in t.elements
  {
    hide Shape;
    var k: nat :| Up(t, x, k) == n;
    UpLowersRank(t, RankOf(t), x, k);
  }

  lemma {:induction false} UpAdds(t: Tree, x: ElementID, j: nat, k: nat)
    ensures Up(t, x, j + k) == Up(t, Up(t, x, j), k)
    decreases j
  {
    if j > 0 {
      UpAdds(t, t.Parent(x), j - 1, k);
    }
  }

  lemma ChildIsNoAncestor(t: Tree, c: ElementID, x: ElementID)
    requires Shape(t) && c in t.elements && c != ROOT_ID && x == t.Parent(c)
    ensures !Descends(t, x, c)
  {
    var rank := RankOf(t);
    assert rank[x] < rank[c];
    forall k: nat ensures Up(t, x, k) != c {
      UpLowersRank(t, rank, x, k);
    }
  }

  lemma ChainMeets(t: Tree, x: ElementID, a: ElementID, b: ElementID, j: nat, k: nat)
    requires Shape(t) && b != ROOT_ID && a != b && t.Parent(a) == t.Parent(b)
    requires j <= k
    ensures !(Up(t, x, j) == a && Up(t, x, k) == b)
  {
    UpAdds(t, x, j, k - j);
    if j < k && Up(t, x, j) == a && Up(t, x, k) == b {
      assert Up(t, t.Parent(a), k - j - 1) == b;
      ChildIsNoAncestor(t, b, t.Parent(b));
    }
  }

  // Subtrees of two siblings share nothing.
  lemma SiblingsShareNothing(t: Tree, a: ElementID, b: ElementID, x: ElementID)
    requires Shape(t) && a in t.elements && b in t.elements && a != ROOT_ID && b != ROOT_ID
    requires a != b && t.Parent(a) == t.Parent(b)
    ensures !(Descends(t, x, a) && Descends(t, x, b))
  {
    hide Shape;
    if Descends(t, x, a) && Descends(t, x, b) {
      var j: nat :| Up(t, x, j) == a;
      var k: nat :| Up(t, x, k) == b;
      if j <= k {
        ChainMeets(t, x, a, b, j, k);
      } else {
        ChainMeets(t, x, b, a, k, j);
      }
    }
  }

  ghost predicate Apart(t: Tree, ns: seq<ElementID>)
  {
    forall i, j | 0 <= i < j < |ns| :: DisjointBelow(t, ns[i], ns[j])
  }

  ghost predicate DisjointBelow(t: Tree, a: ElementID, b: ElementID)
  {
    forall x :: !(Descends(t, x, a) && Descends(t, x, b))
  }

  lemma SiblingsAreApart(t: Tree, p: ElementID)
    requires Shape(t)
    ensures Apart(t, t.Kids(p)) && AllPresent(t, t.Kids(p))
  {
    var ks := t.Kids(p);
    assert Descending(ks);
    KidsPresent(t, p);
    hide Shape;
    DescendingHasNoDuplicates(ks);
    forall i, j | 0 <= i < j < |ks| ensures DisjointBelow(t, ks[i], ks[j]) {
      assert ks[i] in ks && ks[j] in ks;
      forall x ensures !(Descends(t, x, ks[i]) && Descends(t, x, ks[j])) {
        SiblingsShareNothing(t, ks[i], ks[j], x);
      }
    }
  }

  lemma {:induction false} WalkIsDistinct(t: Tree, fuel: nat, ns: seq<ElementID>)
    requires Shape(t) && AllPresent(t, ns) && Apart(t, ns)
    ensures NoDuplicates(Walk(t, fuel, ns))
    decreases fuel, |ns|
  {
    hide Shape;
    if fuel > 0 && ns != [] {
      var n, ks := ns[0], t.Kids(ns[0]);
      assert n in ns;
      SiblingsAreApart(t, n);
      WalkIsDistinct(t, fuel - 1, ks);
      WalkIsDistinct(t, fuel, ns[1..]);
      forall x | x in Walk(t, fuel - 1, ks) ensures x != n && Descends(t, x, n) {
        KidsPresent(t, n);
        var c := WalkMember(t, fuel - 1, ks, x);
        ChildDescends(t, x, c);
        ChildIsNoAncestor(t, c, n);
      }
      assert Up(t, n, 0) == n && Descends(t, n, n);
      forall x | x in Walk(t, fuel, ns[1..]) ensures !Descends(t, x, n) {
        var m := WalkMember(t, fuel, ns[1..], x);
        var i :| 0 <= i < |ns[1..]| && ns[1..][i] == m;
        assert DisjointBelow(t, ns[0], ns[i + 1]);
      }
      DistinctParts(n, Walk(t, fuel - 1, ks), Walk(t, fuel, ns[1..]));
    }
  }

  lemma DistinctParts<T>(n: T, a: seq<T>, b: seq<T>)
    requires NoDuplicates(a) && NoDuplicates(b) && n !in a && n !in b
    requires forall x | x in a :: x !in b
    ensures NoDuplicates([n] + a + b)
  {
    var r := [n] + a + b;
    forall i, j | 0 <= i < j < |r| ensures r[i] != r[j] {
      if i == 0 {
        assert r[j] in a || r[j] in b;
      } else if i <= |a| < j {
        assert r[i] in a && r[j] in b;
      }
    }
  }

  lemma TraversalIsDistinct(t: Tree)
    requires Shape(t)
    ensures NoDuplicates(Traversal(t))
  {
    hide Shape;
    RootIsOwnParent(t);
    WalkIsDistinct(t, |t.elements|, [ROOT_ID]);
  }

  lemma PlaceIsUnique(t: Tree, n: ElementID, i: nat)
    requires Shape(t) && i < |Traversal(t)| && Traversal(t)[i] == n
    ensures At(t, n) == i && n in t.elements
  {
    hide Shape;
    hide Subtree;
    TraversalIsDistinct(t);
    assert Traversal(t)[i] in Traversal(t);
    TraversalVisitsAll(t, n);
  }

  lemma PlaceOf(t: Tree, n: ElementID)
    requires Shape(t) && n in t.elements
    ensures At(t, n) < |Traversal(t)| && Traversal(t)[At(t, n)] == n
  {
    hide Shape;
    TraversalVisitsAll(t, n);
  }

  // ----- Blocks -----

  ghost predicate IsBlock(t: Tree, n: ElementID)
  {
    End(t, n) <= |Traversal(t)| && Traversal(t)[At(t, n)..End(t, n)] == Subtree(t, n)
  }

  lemma SliceOfSlice<T>(xs: seq<T>, from: nat, to: nat, before: seq<T>, here: seq<T>, after: seq<T>)
    requires from <= to <= |xs| && xs[from..to] == before + here + after
    ensures from + |before| + |here| <= |xs|
    ensures xs[from + |before|..from + |before| + |here|] == here
  {
    var part, r := xs[from..to], xs[from + |before|..from + |before| + |here|];
    forall i | 0 <= i < |here| ensures r[i] == here[i] {
      assert part[|before| + i] == xs[from + |before| + i];
    }
  }

  lemma ChildBlock(t: Tree, p: ElementID, i: nat)
    requires Shape(t) && p in t.elements && i < |t.Kids(p)| && IsBlock(t, p)
    ensures IsBlock(t, t.Kids(p)[i])
    ensures At(t, t.Kids(p)[i]) == At(t, p) + 1 + |Forest(t, t.Kids(p)[..i])|
  {
    hide Shape;
    hide Forest;
    var ks := t.Kids(p);
    SubtreeSplits(t, p, i);
    var before, here, after := [p] + Forest(t, ks[..i]), Subtree(t, ks[i]), Forest(t, ks[i + 1..]);
    assert Subtree(t, p) == before + here + after;
    KidsPresent(t, p);
    assert ks[i] in ks;
    SubtreeUnfolds(t, ks[i]);
    var start := At(t, p) + |before|;
    SliceOfSlice(Traversal(t), At(t, p), End(t, p), before, here, after);
    assert Traversal(t)[start] == here[0];
    PlaceIsUnique(t, ks[i], start);
  }

  lemma RootBlock(t: Tree)
    requires Shape(t)
    ensures IsBlock(t, ROOT_ID) && At(t, ROOT_ID) == 0 && End(t, ROOT_ID) == |Traversal(t)|
  {
    hide Shape;
    RootIsOwnParent(t);
    SubtreeUnfolds(t, ROOT_ID);
  }

  lemma {:induction false} Blocks(t: Tree, rank: map<ElementID, nat>, n: ElementID)
    requires Shape(t) && Ranked(t, rank) && n in t.elements
    ensures IsBlock(t, n)
    decreases rank[n]
  {
    hide Shape;
    hide IsBlock;
    if n == ROOT_ID {
      RootBlock(t);
    } else {
      ParentPresent(t, n);
      var p := t.Parent(n);
      Blocks(t, rank, p);
      var i :| 0 <= i < |t.Kids(p)| && t.Kids(p)[i] == n;
      ChildBlock(t, p, i);
    }
  }

  // The descendants of a node are exactly one contiguous block of the traversal.
  lemma DescendantsAreABlock(t: Tree, n: ElementID, x: ElementID)
    requires Shape(t) && n in t.elements && x in t.elements
    ensures Descends(t, x, n) <==> At(t, n) <= At(t, x) < End(t, n)
    ensures IsBlock(t, n)
  {
    hide Shape;
    hide Forest;
    Blocks(t, RankOf(t), n);
    SubtreeIsDescendants(t, x, n);
    PlaceOf(t, x);
    var block := Traversal(t)[At(t, n)..End(t, n)];
    if Descends(t, x, n) {
      var i :| 0 <= i < |block| && block[i] == x;
      PlaceIsUnique(t, x, At(t, n) + i);
    }
    assert At(t, n) <= At(t, x) < End(t, n) ==> block[At(t, x) - At(t, n)] == x;
  }

  // ----- The steps of the pointer walks -----

  lemma FirstChildIsNext(t: Tree, n: ElementID)
    requires Shape(t) && n in t.elements && t.Kids(n) != []
    ensures At(t, t.Kids(n)[0]) == At(t, n) + 1
  {
    hide Shape;
    Blocks(t, RankOf(t), n);
    ChildBlock(t, n, 0);
  }

  lemma LeafEnds(t: Tree, n: ElementID)
    requires Shape(t) && n in t.elements && t.Kids(n) == []
    ensures End(t, n) == At(t, n) + 1
  {
    hide Shape;
    SubtreeUnfolds(t, n);
  }

  lemma NextSiblingStartsAtEnd(t: Tree, p: ElementID, i: nat)
    requires Shape(t) && p in t.elements && i + 1 < |t.Kids(p)|
    ensures At(t, t.Kids(p)[i + 1]) == End(t, t.Kids(p)[i])
  {
    hide Shape;
    hide Walk;
    var ks := t.Kids(p);
    Blocks(t, RankOf(t), p);
    ChildBlock(t, p, i);
    ChildBlock(t, p, i + 1);
    assert ks[..i + 1] == ks[..i] + [ks[i]];
    ForestConcat(t, |t.elements|, ks[..i], [ks[i]]);
  }

  lemma LastChildEndsWithParent(t: Tree, p: ElementID)
    requires Shape(t) && p in t.elements && t.Kids(p) != []
    ensures End(t, t.Kids(p)[|t.Kids(p)| - 1]) == End(t, p)
  {
    hide Shape;
    hide Walk;
    var ks := t.Kids(p);
    var last := |ks| - 1;
    Blocks(t, RankOf(t), p);
    ChildBlock(t, p, last);
    SubtreeUnfolds(t, p);
    assert ks == ks[..last] + [ks[last]];
    ForestConcat(t, |t.elements|, ks[..last], [ks[last]]);
  }

  // The node after a node in the traversal, and the node before it.
  ghost function Next(t: Tree, n: ElementID): Option<ElementID>
  {
    var i := At(t, n) + 1;
    if i < |Traversal(t)| then Some(Traversal(t)[i]) else None
  }

  ghost function Previous(t: Tree, n: ElementID): ElementID
  {
    if 0 < At(t, n) <= |Traversal(t)| then Traversal(t)[At(t, n) - 1] else n
  }

  lemma NextIsFirstChild(t: Tree, n: ElementID)
    requires Shape(t) && n in t.elements && t.Kids(n) != []
    ensures Next(t, n) == Some(t.Kids(n)[0])
  {
    hide Shape;
    FirstChildIsNext(t, n);
    KidsPresent(t, n);
    PlaceOf(t, t.Kids(n)[0]);
  }

  // Climbing from a node: the subtree of the current ancestor ends where the node does.
  lemma ClimbFinds(t: Tree, n: ElementID, curr: ElementID, i: nat)
    requires Shape(t) && curr in t.elements && End(t, curr) == At(t, n) + 1
    requires i < |t.Kids(t.Parent(curr))| && t.Kids(t.Parent(curr))[i] == curr
    ensures var ks := t.Kids(t.Parent(curr));
            if i + 1 < |ks| then Next(t, n) == Some(ks[i + 1]) else End(t, t.Parent(curr)) == At(t, n) + 1
  {
    hide Shape;
    ParentPresent(t, curr);
    var p := t.Parent(curr);
    if i + 1 < |t.Kids(p)| {
      NextSiblingStartsAtEnd(t, p, i);
      KidsPresent(t, p);
      PlaceOf(t, t.Kids(p)[i + 1]);
    } else {
      LastChildEndsWithParent(t, p);
    }
  }

  lemma ClimbEnds(t: Tree, n: ElementID)
    requires Shape(t) && End(t, ROOT_ID) == At(t, n) + 1
    ensures Next(t, n) == None
  {
    hide Shape;
    RootBlock(t);
  }

  lemma PreviousOfFirstChild(t: Tree, p: ElementID)
    requires Shape(t) && p in t.elements && t.Kids(p) != []
    ensures Previous(t, t.Kids(p)[0]) == p
  {
    hide Shape;
    FirstChildIsNext(t, p);
    PlaceOf(t, p);
  }

  lemma PreviousSiblingEnds(t: Tree, p: ElementID, i: nat)
    requires Shape(t) && p in t.elements && 0 < i < |t.Kids(p)|
    ensures End(t, t.Kids(p)[i - 1]) == At(t, t.Kids(p)[i])
  {
    hide Shape;
    NextSiblingStartsAtEnd(t, p, i - 1);
  }

  lemma DescentFinds(t: Tree, n: ElementID, leaf: ElementID)
    requires Shape(t) && leaf in t.elements && t.Kids(leaf) == [] && End(t, leaf) == At(t, n)
    ensures Previous(t, n) == leaf
  {
    hide Shape;
    LeafEnds(t, leaf);
    PlaceOf(t, leaf);
  }

  // ----- Non-interleaving -----

  lemma {:induction false} SiblingBlocksInOrder(t: Tree, p: ElementID, i: nat, j: nat)
    requires Shape(t) && p in t.elements && i < j < |t.Kids(p)|
    ensures End(t, t.Kids(p)[i]) <= At(t, t.Kids(p)[j])
    decreases j
  {
    hide Shape;
    NextSiblingStartsAtEnd(t, p, j - 1);
    if i < j - 1 {
      SiblingBlocksInOrder(t, p, i, j - 1);
    }
  }

  // Two runs typed from the same anchor never interleave: everything below the sibling with the
  // greater identifier comes before everything below the other.
  lemma RunsDoNotInterleave(t: Tree, a: ElementID, b: ElementID, x: ElementID, y: ElementID)
    requires Shape(t) && a != ROOT_ID && b != ROOT_ID
    requires t.Parent(a) == t.Parent(b) && Less(b, a)
    requires x in t.elements && y in t.elements && Descends(t, x, a) && Descends(t, y, b)
    ensures At(t, x) < At(t, y)
  {
    var p := t.Parent(a);
    AncestorPresent(t, x, a);
    AncestorPresent(t, y, b);
    ParentPresent(t, a);
    ParentPresent(t, b);
    var i :| 0 <= i < |t.Kids(p)| && t.Kids(p)[i] == a;
    var j :| 0 <= j < |t.Kids(p)| && t.Kids(p)[j] == b;
    assert Descending(t.Kids(p));
    hide Shape;
    LessIsStrictTotalOrder(a, b, a);
    SiblingBlocksInOrder(t, p, i, j);
    DescendantsAreABlock(t, a, x);
    DescendantsAreABlock(t, b, y);
  }
}
