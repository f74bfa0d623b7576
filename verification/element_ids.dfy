// Element identifiers, their total order, and the sibling order built from it.
module ElementIds {
  // A Lamport clock value and the site that issued it.
  datatype ElementID = ElementID(lamport: nat, siteId: string)

  const ROOT_ID: ElementID := ElementID(0, "__ROOT__")

  // Lexicographic order on strings, character by character.
  predicate StringLess(a: string, b: string)
  {
    b != [] && (a == [] || a[0] < b[0] || (a[0] == b[0] && StringLess(a[1..], b[1..])))
  }

  // The program's operator<=> on identifiers: the clock first, then the site.
  predicate Less(a: ElementID, b: ElementID)
  {
    a.lamport < b.lamport || (a.lamport == b.lamport && StringLess(a.siteId, b.siteId))
  }

  // The first k characters agree, and there the first text ends or has the smaller character.
  predicate DiffersAt(a: string, b: string, k: nat)
  {
    k <= |a| && k < |b| && a[..k] == b[..k] && (k == |a| || a[k] < b[k])
  }

  // The order of texts is that of a dictionary.
  lemma {:induction false} StringLessIsLexicographic(a: string, b: string)
    ensures StringLess(a, b) <==> exists k: nat :: DiffersAt(a, b, k)
  {
    if a != [] && b != [] && a[0] == b[0] {
      StringLessIsLexicographic(a[1..], b[1..]);
      if StringLess(a, b) {
        var k: nat :| DiffersAt(a[1..], b[1..], k);
        assert a[..k + 1] == [a[0]] + a[1..][..k] && b[..k + 1] == [b[0]] + b[1..][..k];
        assert DiffersAt(a, b, k + 1);
      }
      if j: nat :| DiffersAt(a, b, j) {
        assert j > 0;
        assert a[1..][..j - 1] == a[..j][1..] && b[1..][..j - 1] == b[..j][1..];
        assert DiffersAt(a[1..], b[1..], j - 1);
      }
    } else if StringLess(a, b) {
      assert DiffersAt(a, b, 0);
    } else {
      forall j: nat {
        FirstAgrees(a, b, j);
      }
    }
  }

  lemma FirstAgrees(a: string, b: string, j: nat)
    ensures DiffersAt(a, b, j) && j > 0 ==> a[0] == b[0]
  {
    if DiffersAt(a, b, j) && j > 0 {
      assert a[..j][0] == b[..j][0];
    }
  }

  // Identifiers are ranked by clock, and with equal clocks by the dictionary order of their sites.
  lemma LessIsByClockThenSite(a: ElementID, b: ElementID)
    ensures a.lamport < b.lamport ==> Less(a, b)
    ensures a.lamport == b.lamport ==> (Less(a, b) <==> exists k: nat :: DiffersAt(a.siteId, b.siteId, k))
    ensures a.lamport > b.lamport ==> !Less(a, b)
  {
    StringLessIsLexicographic(a.siteId, b.siteId);
  }

  lemma {:induction false} StringLessTrichotomy(a: string, b: string)
    ensures !(StringLess(a, b) && StringLess(b, a))
    ensures StringLess(a, b) || StringLess(b, a) || a == b
    ensures !StringLess(a, a)
  {
    if a != [] {
      StringLessTrichotomy(a[1..], a[1..]);
      if b != [] {
        StringLessTrichotomy(a[1..], b[1..]);
        assert a == [a[0]] + a[1..] && b == [b[0]] + b[1..];
      }
    }
  }

  lemma {:induction false} StringLessTransitive(a: string, b: string, c: string)
    requires StringLess(a, b) && StringLess(b, c)
    ensures StringLess(a, c)
  {
    if a != [] && a[0] == b[0] && b[0] == c[0] {
      StringLessTransitive(a[1..], b[1..], c[1..]);
    }
  }

  // The order is a strict total order, so any two sites rank any two identifiers alike.
  lemma LessIsStrictTotalOrder(a: ElementID, b: ElementID, c: ElementID)
    ensures !Less(a, a)
    ensures !(Less(a, b) && Less(b, a))
    ensures Less(a, b) || Less(b, a) || a == b
    ensures Less(a, b) && Less(b, c) ==> Less(a, c)
  {
    StringLessTrichotomy(a.siteId, a.siteId);
    StringLessTrichotomy(a.siteId, b.siteId);
    if StringLess(a.siteId, b.siteId) && StringLess(b.siteId, c.siteId) {
      StringLessTransitive(a.siteId, b.siteId, c.siteId);
    }
  }

  // ----- Sibling lists -----

  ghost predicate Descending(ids: seq<ElementID>)
  {
    forall i, j | 0 <= i < j < |ids| :: Less(ids[j], ids[i])
  }

  ghost predicate NoDuplicates<T>(xs: seq<T>)
  {
    forall i, j | 0 <= i < j < |xs| :: xs[i] != xs[j]
  }

  function InsertSorted(x: ElementID, ids: seq<ElementID>): (r: seq<ElementID>)
    ensures multiset(r) == multiset([x]) + multiset(ids)
  {
    if ids == [] || Less(ids[0], x) then [x] + ids
    else
      assert ids == [ids[0]] + ids[1..];
      [ids[0]] + InsertSorted(x, ids[1..])
  }

  // What the library sort leaves behind with the comparator a > b.
  function SortDescending(ids: seq<ElementID>): (r: seq<ElementID>)
    ensures multiset(r) == multiset(ids)
  {
    if ids == [] then []
    else
      assert ids == [ids[0]] + ids[1..];
      InsertSorted(ids[0], SortDescending(ids[1..]))
  }

  lemma MembersFromMultiset<T>(a: seq<T>, b: seq<T>)
    requires multiset(a) == multiset(b)
    ensures forall x :: x in a <==> x in b
  {
    forall x ensures x in a <==> x in b {
      assert x in multiset(a) <==> x in multiset(b);
    }
  }

  lemma {:induction false} InsertSortedDescending(x: ElementID, ids: seq<ElementID>)
    requires Descending(ids) && x !in ids
    ensures Descending(InsertSorted(x, ids))
  {
    var r := InsertSorted(x, ids);
    if ids == [] {
    } else if Less(ids[0], x) {
      forall j | 1 <= j < |r| ensures Less(r[j], x) {
        LessIsStrictTotalOrder(ids[j - 1], ids[0], x);
      }
    } else {
      var tail := InsertSorted(x, ids[1..]);
      InsertSortedDescending(x, ids[1..]);
      forall j | 0 <= j < |tail| ensures Less(tail[j], ids[0]) {
        assert tail[j] in multiset(tail);
        LessIsStrictTotalOrder(x, ids[0], x);
      }
    }
  }

  lemma {:induction false} SortDescendingSorts(ids: seq<ElementID>)
    requires NoDuplicates(ids)
    ensures Descending(SortDescending(ids))
    ensures forall x :: x in SortDescending(ids) <==> x in ids
  {
    MembersFromMultiset(SortDescending(ids), ids);
    if ids != [] {
      SortDescendingSorts(ids[1..]);
      InsertSortedDescending(ids[0], SortDescending(ids[1..]));
    }
  }

  lemma DescendingHasNoDuplicates(ids: seq<ElementID>)
    requires Descending(ids)
    ensures NoDuplicates(ids)
  {
    forall i, j | 0 <= i < j < |ids| ensures ids[i] != ids[j] {
      LessIsStrictTotalOrder(ids[i], ids[j], ids[i]);
    }
  }

  lemma HeadOrTail<T>(xs: seq<T>, x: T)
    requires xs != []
    ensures x in xs <==> x == xs[0] || x in xs[1..]
  {
    assert xs == [xs[0]] + xs[1..];
  }

  // A descending list is determined by its members: the sibling order leaves no choice.
  lemma {:induction false} DescendingIsCanonical(a: seq<ElementID>, b: seq<ElementID>)
    requires Descending(a) && Descending(b)
    requires forall x :: x in a <==> x in b
    ensures a == b
  {
    assert a != [] ==> a[0] in b;
    assert b != [] ==> b[0] in a;
    if a != [] {
      if a[0] != b[0] {
        var i :| 0 <= i < |b| && b[i] == a[0];
        var j :| 0 <= j < |a| && a[j] == b[0];
        LessIsStrictTotalOrder(a[0], b[0], a[0]);
        assert false;
      }
      DescendingHasNoDuplicates(a);
      DescendingHasNoDuplicates(b);
      forall x ensures x in a[1..] <==> x in b[1..] {
        if x == a[0] {
          assert x !in a[1..] && x !in b[1..];
        } else {
          HeadOrTail(a, x);
          HeadOrTail(b, x);
        }
      }
      DescendingIsCanonical(a[1..], b[1..]);
      assert a == [a[0]] + a[1..] && b == [b[0]] + b[1..];
    }
  }
}
