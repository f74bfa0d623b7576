// What the document's own contracts add up to: the state is a function of the set of
// operations received, whatever their order and however often each one came.
module Convergence {
  import opened ElementIds
  import opened Operations
  import opened Trees
  import opened Buffers
  import opened DocumentStates
  import opened VisibleText
  import opened Documents

  // Any sequence of calls, going on after one that threw as the server does. The state is the
  // fold of the calls; with unique identifiers none throws, and the state is described by the set
  // of operations alone.
  method Replay(ops: seq<Operation>) returns (d: Document, threw: bool)
    ensures fresh(d) && d.Valid() && d.received == Elements(ops)
    ensures Filed(NewDocument()) && d.State() == ApplyAll(NewDocument(), ops)
    ensures threw <==> RunThrows(NewDocument(), ops)
    ensures Functional(Elements(ops)) ==> d.Exact() && !threw
  {
    hide Document.Valid;
    hide Document.Exact;
    hide Functional;
    hide Applied;
    hide Blocked;
    d := new Document();
    threw := false;
    NewIsFiled();
    hide Filed;
    assert ops[..0] == [] && ops[..|ops|] == ops;
    assert ApplyAll(NewDocument(), []) == NewDocument() && !RunThrows(NewDocument(), []);
    hide ApplyAll;
    hide RunThrows;
    hide NewDocument;
    for i := 0 to |ops|
      invariant fresh(d) && d.Valid() && d.received == Elements(ops[..i])
      invariant d.State() == ApplyAll(NewDocument(), ops[..i]) && (threw <==> RunThrows(NewDocument(), ops[..i]))
      invariant Functional(Elements(ops)) ==> d.Exact() && !threw
    {
      RunStep(NewDocument(), ops, i);
      if Functional(Elements(ops)) {
        FewerOperations(d.received + {ops[i]}, Elements(ops));
      }
      var outcome := d.Apply(ops[i]);
      threw := threw || outcome.Throws?;
    }
  }

  // Two documents that received the same operations hold the same elements, tombstones,
  // parents and sibling lists, and render the same text; their buffers agree up to the order
  // inside each waiting list.
  lemma StrongConvergence(a: Document, b: Document)
    requires a.Exact() && b.Exact() && a.received == b.received
    ensures a.elements == b.elements && a.parentOf == b.parentOf && a.children == b.children
    ensures Text(a.View()) == Text(b.View())
    ensures a.bufferedDeletes == b.bufferedDeletes && a.bufferedInsertIds == b.bufferedInsertIds
    ensures a.bufferedInserts.Keys == b.bufferedInserts.Keys
    ensures forall p | p in a.bufferedInserts :: multiset(a.bufferedInserts[p]) == multiset(b.bufferedInserts[p])
  {
    hide RepresentsExcept;
    hide BuffersMatchExcept;
    hide Structured;
    hide Functional;
    RepresentationIsUnique(a.View(), b.View(), a.received);
    BuffersAreUnique(a.View(), a.received, a.bufferedInserts, a.bufferedInsertIds, a.bufferedDeletes,
                     b.bufferedInserts, b.bufferedInsertIds, b.bufferedDeletes);
  }

  // The elements are the root and the inserts reachable from it, buried exactly by the removals
  // received for them.
  lemma ElementsAreExact(d: Document, id: ElementID)
    requires d.Exact()
    ensures id in d.elements <==> Reachable(d.received, id)
    ensures id in d.elements ==> (d.elements[id].deleted <==> Remove(id) in d.received)
  {
    ElementsAreReachable(d.View(), d.received, id);
    assert id in d.elements ==> (d.View().Deleted(id) <==> Remove(id) in d.received);
  }

  // All other inserts are buffered, once each, under their absent parent; the buffered deletes
  // are the removals whose target has not arrived.
  lemma BuffersAreExact(d: Document, op: Operation, p: ElementID, x: ElementID)
    requires d.Exact()
    ensures op in WaitingFor(d.bufferedInserts, p) <==>
              op in d.received && op.Insert? && op.parent == p && !Reachable(d.received, op.id)
    ensures p in d.bufferedInserts ==> !Reachable(d.received, p) && NoDuplicates(d.bufferedInserts[p])
    ensures x in d.bufferedInsertIds <==>
              exists o :: o in d.received && o.Insert? && o.id == x && !Reachable(d.received, x)
    ensures x in d.bufferedDeletes <==> Remove(x) in d.received && !Reachable(d.received, x)
  {
    d.IsExact();
    WaitingIsExact(d, op, p);
    IdsAreExact(d, x);
    ElementsAreReachable(d.View(), d.received, p);
    ElementsAreReachable(d.View(), d.received, x);
    assert p in d.bufferedInserts ==> WaitingFor(d.bufferedInserts, p) == d.bufferedInserts[p];
  }

  lemma WaitingIsExact(d: Document, op: Operation, p: ElementID)
    requires d.Exact()
    ensures op in WaitingFor(d.bufferedInserts, p) <==>
              op in d.received && op.Insert? && op.parent == p && !Reachable(d.received, op.id)
  {
    var none: set<Operation> := {};
    assert op !in none;
    if op.Insert? {
      ElementsAreReachable(d.View(), d.received, op.id);
    }
  }

  lemma IdsAreExact(d: Document, x: ElementID)
    requires d.Exact()
    ensures x in d.bufferedInsertIds <==>
              exists o :: o in d.received && o.Insert? && o.id == x && !Reachable(d.received, x)
  {
    ElementsAreReachable(d.View(), d.received, x);
    if o :| o in d.received && o.Insert? && o.id == x && x !in d.elements {
      var none: set<Operation> := {};
      assert o !in none;
    }
  }
}
