// What a document's three buffers hold, given its tree and the operations received.
module Buffers {
  import opened ElementIds
  import opened Operations
  import opened Trees

  ghost function WaitingFor(waiting: map<ElementID, seq<Operation>>, p: ElementID): seq<Operation>
  {
    if p in waiting then waiting[p] else []
  }

  // Buffered inserts are filed once each under their absent parent, and none is applied.
  ghost predicate FiledUnderAbsentParent(t: Tree, waiting: map<ElementID, seq<Operation>>, ops: set<Operation>)
  {
    && (forall p {:trigger WaitingFor(waiting, p)} | p in waiting ::
          WaitingFor(waiting, p) != [] && p !in t.elements && NoDuplicates(WaitingFor(waiting, p)))
    && (forall p, op {:trigger op in WaitingFor(waiting, p)} | op in WaitingFor(waiting, p) ::
          op in ops && op.Insert? && op.parent == p && op.id !in t.elements)
  }

  // Every received insert that is not applied and not in hand is buffered.
  ghost predicate NothingLost(
    t: Tree, waiting: map<ElementID, seq<Operation>>, ops: set<Operation>, inHand: set<Operation>)
  {
    && (forall op {:trigger op in inHand} | op in ops && op.Insert? && op.id !in t.elements && op !in inHand ::
          op in WaitingFor(waiting, op.parent))
    && (forall p, op {:trigger op in WaitingFor(waiting, p)} | op in WaitingFor(waiting, p) :: op !in inHand)
  }

  ghost predicate IdsMatch(t: Tree, ids: set<ElementID>, ops: set<Operation>, inHand: set<Operation>)
  {
    && (forall op {:trigger op in inHand} | op in ops && op.Insert? && op.id !in t.elements && op !in inHand ::
       op.id in ids)
    && (forall id | id in ids :: id !in t.elements && exists op :: op in ops && op.Insert? && op.id == id)
  }

  ghost predicate DeletesMatch(t: Tree, deletes: set<ElementID>, ops: set<Operation>)
  {
    forall x :: x in deletes <==> Remove(x) in ops && x !in t.elements
  }

  ghost predicate BuffersMatchExcept(
    t: Tree, waiting: map<ElementID, seq<Operation>>, ids: set<ElementID>, deletes: set<ElementID>,
    ops: set<Operation>, inHand: set<Operation>)
  {
    && FiledUnderAbsentParent(t, waiting, ops)
    && NothingLost(t, waiting, ops, inHand)
    && IdsMatch(t, ids, ops, inHand)
    && DeletesMatch(t, deletes, ops)
  }

  ghost predicate BuffersMatch(
    t: Tree, waiting: map<ElementID, seq<Operation>>, ids: set<ElementID>, deletes: set<ElementID>, ops: set<Operation>)
  {
    BuffersMatchExcept(t, waiting, ids, deletes, ops, {})
  }

  // The whole state of a document that has received these operations.
  ghost predicate DocumentedExcept(
    t: Tree, waiting: map<ElementID, seq<Operation>>, ids: set<ElementID>, deletes: set<ElementID>,
    ops: set<Operation>, inHand: set<Operation>)
  {
    Functional(ops) && RepresentsExcept(t, ops, inHand) && BuffersMatchExcept(t, waiting, ids, deletes, ops, inHand)
  }

  lemma NothingReceived()
    ensures DocumentedExcept(RootTree(false), map[], {}, {}, {}, {})
  {
    RootTreeRepresents({});
  }

  lemma ReceiveInsertBuffers(
    t: Tree, waiting: map<ElementID, seq<Operation>>, ids: set<ElementID>, deletes: set<ElementID>,
    ops: set<Operation>, op: Operation)
    requires DocumentedExcept(t, waiting, ids, deletes, ops, {}) && op.Insert? && Functional(ops + {op})
    ensures DocumentedExcept(t, waiting, ids, deletes, ops + {op}, if op in ops then {} else {op})
    ensures op !in ops && op.id !in t.elements ==> op.id !in ids
  {
    ReceiveInsert(t, ops, op);
    assert BuffersMatchExcept(t, waiting, ids, deletes, ops + {op}, if op in ops then {} else {op});
  }

  lemma ReceiveRemoveBuffers(
    t: Tree, waiting: map<ElementID, seq<Operation>>, ids: set<ElementID>, deletes: set<ElementID>,
    ops: set<Operation>, target: ElementID)
    requires DocumentedExcept(t, waiting, ids, deletes, ops, {})
    ensures DocumentedExcept(
              Bury(t, target), waiting, ids, if target in t.elements then deletes else deletes + {target},
              ops + {Remove(target)}, {})
  {
    BuryRepresents(t, ops, target);
    BuryLookups(t, target);
  }

  // Filing an insert under its absent parent takes it out of hand.
  lemma ParkInsert(
    t: Tree, waiting: map<ElementID, seq<Operation>>, ids: set<ElementID>, deletes: set<ElementID>,
    ops: set<Operation>, inHand: set<Operation>, op: Operation)
    requires DocumentedExcept(t, waiting, ids, deletes, ops, inHand)
    requires op in ops && op.Insert? && op in inHand && op.id !in t.elements && op.parent !in t.elements
    ensures DocumentedExcept(
              t, waiting[op.parent := WaitingFor(waiting, op.parent) + [op]], ids + {op.id}, deletes, ops,
                inHand - {op})
  {
    var w' := waiting[op.parent := WaitingFor(waiting, op.parent) + [op]];
    assert op !in WaitingFor(waiting, op.parent);
    forall p, o ensures o in WaitingFor(w', p) <==> o in WaitingFor(waiting, p) || (p == op.parent && o == op) {
    }
    forall p | p in w'
      ensures WaitingFor(w', p) != [] && p !in t.elements && NoDuplicates(WaitingFor(w', p))
    {
      assert p != op.parent ==> p in waiting && WaitingFor(w', p) == WaitingFor(waiting, p);
    }
    forall o | o in ops && o.Insert? && o.id !in t.elements && o !in inHand - {op}
      ensures o in WaitingFor(w', o.parent) && o.id in ids + {op.id}
    {
      assert o !in inHand || o == op;
    }
  }

  // Applying an insert releases its waiting list into the hand.
  lemma ReleaseWaiting(
    t: Tree, waiting: map<ElementID, seq<Operation>>, ids: set<ElementID>, deletes: set<ElementID>,
    ops: set<Operation>, inHand: set<Operation>, op: Operation, t': Tree)
    requires Functional(ops) && BuffersMatchExcept(t, waiting, ids, deletes, ops, inHand)
    requires op in ops && op.Insert? && op in inHand && op.id != ROOT_ID
    requires t'.elements.Keys == t.elements.Keys + {op.id}
    ensures BuffersMatchExcept(t', waiting - {op.id}, ids - {op.id}, deletes - {op.id}, ops,
                               (inHand - {op}) + Elements(WaitingFor(waiting, op.id)))
  {
    var w' := waiting - {op.id};
    var inHand' := (inHand - {op}) + Elements(WaitingFor(waiting, op.id));
    forall p, o ensures o in WaitingFor(w', p) <==> o in WaitingFor(waiting, p) && p != op.id {
    }
    forall p, o | o in WaitingFor(w', p) ensures o.id != op.id && o !in inHand' {
      assert o in WaitingFor(waiting, p);
    }
    forall o | o in ops && o.Insert? && o.id !in t'.elements && o !in inHand'
      ensures o in WaitingFor(w', o.parent) && o.id in ids - {op.id}
    {
      assert o !in inHand;
      assert o in WaitingFor(waiting, o.parent);
    }
  }

  lemma AttachInsert(
    t: Tree, waiting: map<ElementID, seq<Operation>>, ids: set<ElementID>, deletes: set<ElementID>,
    ops: set<Operation>, inHand: set<Operation>, op: Operation)
    requires DocumentedExcept(t, waiting, ids, deletes, ops, inHand)
    requires op in ops && op.Insert? && op.parent in t.elements && op.id !in t.elements
    ensures op.parent in t.children
    ensures DocumentedExcept(AddLeaf(t, op.parent, op.id, Character(op.ch, op.id in deletes)),
                             waiting - {op.id}, ids - {op.id}, deletes - {op.id}, ops,
                             (inHand - {op}) + Elements(WaitingFor(waiting, op.id)))
    ensures NoDuplicates(WaitingFor(waiting, op.id))
    ensures forall w | w in WaitingFor(waiting, op.id) ::
              w in ops && w.Insert? && w.parent == op.id && w !in inHand
  {
    assert op in inHand && op.parent in t.children;
    var ws := WaitingFor(waiting, op.id);
    forall w | w in ops && w.Insert? && w.parent == op.id && w.id !in t.elements && w != op
      ensures w in inHand || w in Elements(ws)
    {
      assert w !in inHand ==> w in WaitingFor(waiting, w.parent);
    }
    AttachInTwo(t, waiting, ids, deletes, ops, inHand, op);
  }

  lemma AttachInTwo(
    t: Tree, waiting: map<ElementID, seq<Operation>>, ids: set<ElementID>, deletes: set<ElementID>,
    ops: set<Operation>, inHand: set<Operation>, op: Operation)
    requires Functional(ops) && RepresentsExcept(t, ops, inHand)
             && BuffersMatchExcept(t, waiting, ids, deletes, ops, inHand)
    requires op in ops && op.Insert? && op in inHand && op.parent in t.children && op.parent in t.elements
    requires op.id !in t.elements && op.id != ROOT_ID && (op.id in deletes <==> Remove(op.id) in ops)
    requires forall w | w in ops && w.Insert? && w.parent == op.id && w.id !in t.elements && w != op ::
               w in inHand || w in Elements(WaitingFor(waiting, op.id))
    ensures DocumentedExcept(AddLeaf(t, op.parent, op.id, Character(op.ch, op.id in deletes)),
                             waiting - {op.id}, ids - {op.id}, deletes - {op.id}, ops,
                             (inHand - {op}) + Elements(WaitingFor(waiting, op.id)))
  {
    hide RepresentsExcept;
    hide BuffersMatchExcept;
    var t' := AddLeaf(t, op.parent, op.id, Character(op.ch, op.id in deletes));
    assert t'.elements.Keys == t.elements.Keys + {op.id};
    AddLeafRepresents(t, ops, inHand, op, Elements(WaitingFor(waiting, op.id)));
    ReleaseWaiting(t, waiting, ids, deletes, ops, inHand, op, t');
  }

  // What a document may rely on at the branches of an insert.
  lemma InsertBranches(
    t: Tree, waiting: map<ElementID, seq<Operation>>, ids: set<ElementID>, deletes: set<ElementID>,
    ops: set<Operation>, inHand: set<Operation>, op: Operation)
    requires DocumentedExcept(t, waiting, ids, deletes, ops, inHand) && op in ops && op.Insert?
    ensures op.id in t.elements ==> DocumentedExcept(t, waiting, ids, deletes, ops, inHand - {op})
    ensures op.id !in t.elements && op !in inHand ==> op.id in ids && op.parent !in t.elements
  {
    var inHand' := inHand - {op};
    if op.id in t.elements {
      assert forall o | o in ops && o.Insert? && o.id !in t.elements && o !in inHand' :: o !in inHand;
      assert BuffersMatchExcept(t, waiting, ids, deletes, ops, inHand');
    }
  }

  // The checks that end a release can only succeed.
  lemma ChecksPass(
    t: Tree, waiting: map<ElementID, seq<Operation>>, ids: set<ElementID>, deletes: set<ElementID>,
    ops: set<Operation>, inHand: set<Operation>)
    requires DocumentedExcept(t, waiting, ids, deletes, ops, inHand)
    ensures forall p | p in waiting ::
              p !in t.elements && forall op | op in waiting[p] :: op.Insert? && op.parent == p && op.id !in t.elements
  {
    forall p | p in waiting
      ensures p !in t.elements && forall op | op in waiting[p] :: op.Insert? && op.parent == p && op.id !in t.elements
    {
      assert WaitingFor(waiting, p) == waiting[p];
      forall op | op in waiting[p] ensures op.Insert? && op.parent == p && op.id !in t.elements {
        assert op in WaitingFor(waiting, p);
      }
    }
  }

  // The buffers are settled too: they agree up to the order inside each waiting list.
  lemma BuffersAreUnique(
    t: Tree, ops: set<Operation>,
    w: map<ElementID, seq<Operation>>, ids: set<ElementID>, deletes: set<ElementID>,
    w': map<ElementID, seq<Operation>>, ids': set<ElementID>, deletes': set<ElementID>)
    requires BuffersMatch(t, w, ids, deletes, ops) && BuffersMatch(t, w', ids', deletes', ops)
    ensures w.Keys == w'.Keys && ids == ids' && deletes == deletes'
    ensures forall p | p in w :: multiset(w[p]) == multiset(w'[p])
  {
    forall p ensures multiset(WaitingFor(w, p)) == multiset(WaitingFor(w', p)) {
      SameWaiting(t, ops, w, ids, deletes, w', ids', deletes', p);
      SameWaiting(t, ops, w', ids', deletes', w, ids, deletes, p);
      DistinctMultisets(WaitingFor(w, p), WaitingFor(w', p));
    }
    forall p ensures p in w <==> p in w' {
      assert multiset(WaitingFor(w, p)) == multiset(WaitingFor(w', p));
      assert p in w ==> WaitingFor(w, p)[0] in multiset(WaitingFor(w, p));
      assert p in w' ==> WaitingFor(w', p)[0] in multiset(WaitingFor(w', p));
    }
    assert w.Keys == w'.Keys;
    forall p | p in w ensures multiset(w[p]) == multiset(w'[p]) {
      assert WaitingFor(w, p) == w[p] && WaitingFor(w', p) == w'[p];
    }
    forall id ensures id in ids <==> id in ids' {
      var none: set<Operation> := {};
      if id in ids {
        var op :| op in ops && op.Insert? && op.id == id;
        assert op !in none;
      }
      if id in ids' {
        var op :| op in ops && op.Insert? && op.id == id;
        assert op !in none;
      }
    }
  }

  lemma SameWaiting(
    t: Tree, ops: set<Operation>,
    w: map<ElementID, seq<Operation>>, ids: set<ElementID>, deletes: set<ElementID>,
    w': map<ElementID, seq<Operation>>, ids': set<ElementID>, deletes': set<ElementID>, p: ElementID)
    requires BuffersMatch(t, w, ids, deletes, ops) && BuffersMatch(t, w', ids', deletes', ops)
    ensures NoDuplicates(WaitingFor(w, p))
    ensures forall op :: op in WaitingFor(w, p) ==> op in WaitingFor(w', p)
  {
    forall op | op in WaitingFor(w, p) ensures op in WaitingFor(w', p) {
      var none: set<Operation> := {};
      assert op !in none;
    }
  }

  lemma DistinctMultisets<T>(a: seq<T>, b: seq<T>)
    requires NoDuplicates(a) && NoDuplicates(b) && forall x :: x in a <==> x in b
    ensures multiset(a) == multiset(b)
  {
    forall x ensures multiset(a)[x] == multiset(b)[x] {
      DistinctCount(a, x);
      DistinctCount(b, x);
    }
  }

  lemma {:induction false} DistinctCount<T>(a: seq<T>, x: T)
    requires NoDuplicates(a)
    ensures multiset(a)[x] == if x in a then 1 else 0
  {
    if a != [] {
      assert a == [a[0]] + a[1..];
      DistinctCount(a[1..], x);
    }
  }
}
