// The Lamport identifier generator and the local cursor, updated in place.
module Cursors {
  import opened Wrappers
  import opened ElementIds
  import opened Operations
  import opened Places
  import opened VisibleText
  import opened Documents
  import opened Editing

  class IdGenerator {
    const clientId: string
    var lamportClock: nat

    constructor (c: string)
      ensures clientId == c && lamportClock == 0
    {
      clientId, lamportClock := c, 0;
    }

    method Next() returns (id: ElementID)
      modifies this
      ensures lamportClock == old(lamportClock) + 1 && id == ElementID(lamportClock, clientId)
    {
      lamportClock := lamportClock + 1;
      id := ElementID(lamportClock, clientId);
    }

    method SyncClock(remoteClock: nat)
      modifies this
      ensures old(lamportClock) <= lamportClock && remoteClock <= lamportClock
      ensures lamportClock == old(lamportClock) || lamportClock == remoteClock
    {
      lamportClock := if lamportClock < remoteClock then remoteClock else lamportClock;
    }
  }

  lemma {:induction false} FirstIndex<T>(xs: seq<T>, x: T, i: nat)
    requires i <= |xs| && x !in xs[..i]
    ensures i <= IndexOf(xs, x)
    ensures i < |xs| && xs[i] == x ==> IndexOf(xs, x) == i
  {
    if i > 0 {
      assert xs[0] in xs[..i];
      assert xs[1..][..i - 1] == xs[..i][1..];
      FirstIndex(xs[1..], x, i - 1);
    }
  }

  class Cursor {
    var anchor: ElementID
    var desiredColumn: Option<nat>
    var selectionAnchor: Option<ElementID>

    ghost function State(): CursorState
      reads this
    {
      CursorState(anchor, desiredColumn, selectionAnchor)
    }

    constructor (p: ElementID)
      ensures State() == CursorState(p, None, None)
    {
      anchor, desiredColumn, selectionAnchor := p, None, None;
    }

    predicate HasSelection()
      reads this
    {
      selectionAnchor.Some? && selectionAnchor.value != anchor
    }

    method StartSelection()
      modifies this`selectionAnchor
      ensures selectionAnchor == Some(anchor)
    {
      selectionAnchor := Some(anchor);
    }

    method ClearSelection()
      modifies this`selectionAnchor
      ensures selectionAnchor == None
    {
      if selectionAnchor.Some? {
        selectionAnchor := None;
      }
    }

    // Only a removal of an anchor the document never had is refused.
    method UpdateOnDelete(doc: Document, target: ElementID) returns (outcome: Result<()>)
      requires doc.Valid()
      modifies this`anchor
      ensures outcome.Ok? <==> target != old(anchor) || target in doc.elements
      ensures outcome.Ok? ==> State() == CursorAfter(doc.View(), old(State()), Remove(target), false)
      ensures outcome.Throws? ==> State() == old(State())
    {
      hide Document.Valid;
      hide VisiblePredecessor;
      if target != anchor {
        return Ok(());
      }
      var predecessor := doc.VisiblePredecessorOf(target);
      if predecessor.Throws? {
        return Throws(predecessor.reason);
      }
      anchor := predecessor.value;
      outcome := Ok(());
    }

    method UpdateOnInsert(parent: ElementID, id: ElementID)
      modifies this`anchor
      ensures anchor == if parent == old(anchor) then id else old(anchor)
    {
      if parent == anchor {
        anchor := id;
      }
    }

    // After a local operation.
    method Update(doc: Document, op: Operation) returns (outcome: Result<()>)
      requires doc.Valid()
      modifies this`anchor
      ensures outcome.Ok? <==> op != Remove(old(anchor)) || old(anchor) in doc.elements
      ensures outcome.Ok? ==> State() == CursorAfter(doc.View(), old(State()), op, true)
    {
      hide Document.Valid;
      hide VisiblePredecessor;
      match op {
        case Insert(parent, id, _) =>
          UpdateOnInsert(parent, id);
          outcome := Ok(());
        case Remove(target) =>
          outcome := UpdateOnDelete(doc, target);
      }
    }

    // After a remote operation: an insert never moves the cursor, a removal of its anchor does.
    method UpdateOnRemote(doc: Document, op: Operation) returns (outcome: Result<()>)
      requires doc.Valid()
      modifies this`anchor
      ensures outcome.Ok? <==> op != Remove(old(anchor)) || old(anchor) in doc.elements
      ensures outcome.Ok? ==> State() == CursorAfter(doc.View(), old(State()), op, false)
    {
      hide Document.Valid;
      hide VisiblePredecessor;
      match op {
        case Insert(_, _, _) =>
          outcome := Ok(());
        case Remove(target) =>
          outcome := UpdateOnDelete(doc, target);
      }
    }

    method UpdateDesiredColumn(doc: Document) returns (outcome: Result<()>)
      requires doc.Valid()
      modifies this`desiredColumn
      ensures outcome.Ok? <==> Anchored(doc.View(), anchor)
      ensures desiredColumn == if outcome.Ok? then Some(CursorPosition(doc.View(), anchor).1) else old(desiredColumn)
    {
      hide Document.Valid;
      hide CursorPosition;
      var position := doc.GetCursorPosition(anchor);
      if position.Throws? {
        return Throws(position.reason);
      }
      desiredColumn := Some(position.value.1);
      outcome := Ok(());
    }

    // Puts the cursor where the mouse asks; a place that is not in the text is refused too late.
    method SetPosition(newAnchor: ElementID, doc: Document) returns (outcome: Result<()>)
      requires doc.Valid()
      modifies this`anchor, this`desiredColumn
      ensures anchor == newAnchor && (outcome.Ok? <==> Anchored(doc.View(), newAnchor))
      ensures desiredColumn == if outcome.Ok? then Some(CursorPosition(doc.View(), newAnchor).1) else old(desiredColumn)
    {
      hide Document.Valid;
      hide CursorPosition;
      anchor := newAnchor;
      outcome := UpdateDesiredColumn(doc);
    }

    // The selection's ends in document order, found by the first of them in a visit.
    method NormalizedRange(doc: Document) returns (result: Option<(ElementID, ElementID)>)
      requires doc.Valid()
      ensures result == Editing.NormalizedRange(doc.View(), State())
    {
      hide Document.Valid;
      hide Visible;
      result := None;
      if !HasSelection() {
        return;
      }
      var selected := selectionAnchor.value;
      if selected == anchor {
        return;
      }
      if selected == ROOT_ID {
        return Some((selected, anchor));
      }
      if anchor == ROOT_ID {
        return Some((anchor, selected));
      }
      var visited := doc.VisitAll();
      for i := 0 to |visited|
        invariant result.None? ==> selected !in visited[..i] && anchor !in visited[..i]
        invariant result.Some? ==> result == Editing.NormalizedRange(doc.View(), State())
      {
        if result.None? {
          FirstIndex(visited, selected, i);
          FirstIndex(visited, anchor, i);
          if visited[i] == selected {
            result := Some((selected, anchor));
          } else if visited[i] == anchor {
            result := Some((anchor, selected));
          }
        }
      }
      assert visited[..|visited|] == visited;
    }
  }
}
