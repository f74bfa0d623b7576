// The document as a value: its six maps, and what an operation does to them. Nothing is assumed
// of the operations here, so this includes those after which a release of waiting inserts throws.
module DocumentStates {
  import opened ElementIds
  import opened Operations
  import opened Trees
  import opened Buffers
  import opened Growth

  datatype DocState = DocState(
    tree: Tree, waiting: map<ElementID, seq<Operation>>, ids: set<ElementID>, deletes: set<ElementID>)

  // What a call leaves behind, whether it returned or threw.
  datatype Outcome = Outcome(state: DocState, threw: bool)

  ghost function NewDocument(): DocState
  {
    DocState(RootTree(false), map[], {}, {})
  }

  ghost predicate Buffered(s: DocState, b: Operation)
  {
    b.Insert? && b in WaitingFor(s.waiting, b.parent)
  }

  // The three maps of the tree agree on their keys, and every buffered operation is an insert
  // filed under its own parent.
  ghost predicate Filed(s: DocState)
  {
    && SameKeys(s.tree)
    && forall p, b {:trigger b in WaitingFor(s.waiting, p)} | b in WaitingFor(s.waiting, p) ::
       b.Insert? && b.parent == p
  }

  // What the checks that end a release look for.
  ghost predicate ChecksHold(s: DocState)
  {
    forall p | p in s.waiting ::
      p !in s.tree.elements && forall op | op in s.waiting[p] ::
        op.Insert? && op.parent == p && op.id !in s.tree.elements
  }

  // ----- The operations -----

  ghost function Parked(s: DocState, op: Operation): (r: DocState)
    requires Filed(s) && op.Insert?
    ensures Filed(r)
  {
    var waiting := s.waiting[op.parent := WaitingFor(s.waiting, op.parent) + [op]];
    assert forall p, b {:trigger b in WaitingFor(waiting, p)} | b in WaitingFor(waiting, p) ::
        b in WaitingFor(s.waiting, p) || (p == op.parent && b == op);
    DocState(s.tree, waiting, s.ids + {op.id}, s.deletes)
  }

  ghost function Attached(s: DocState, op: Operation): (r: DocState)
    requires Filed(s) && op.Insert? && op.parent in s.tree.elements && op.id !in s.tree.elements
    ensures Filed(r)
    ensures r.tree.elements.Keys == s.tree.elements.Keys + {op.id} && r.waiting == s.waiting - {op.id}
    ensures Extends(r.tree, s.tree)
  {
    AddLeafLookups(s.tree, op.parent, op.id, Character(op.ch, op.id in s.deletes));
    assert forall p, b {:trigger b in WaitingFor(s.waiting - {op.id}, p)} | b in WaitingFor(s.waiting - {op.id}, p) ::
        b in WaitingFor(s.waiting, p);
    DocState(AddLeaf(s.tree, op.parent, op.id, Character(op.ch, op.id in s.deletes)),
             s.waiting - {op.id}, s.ids - {op.id}, s.deletes - {op.id})
  }

  ghost function InsertInto(s: DocState, op: Operation): (r: Outcome)
    requires Filed(s) && op.Insert?
    ensures Filed(r.state) && Extends(r.state.tree, s.tree)
    ensures op.parent in s.tree.elements ==> r.state.waiting.Keys <= s.waiting.Keys
    decreases s.waiting.Keys, 0
  {
    if op.id in s.tree.elements then Outcome(s, false)
    else if op.parent !in s.tree.elements then
      Outcome(if op.id in s.ids then s else Parked(s, op), false)
    else if op.id !in s.waiting then Outcome(Attached(s, op), false)
    else
      assert forall b | b in s.waiting[op.id] :: b in WaitingFor(s.waiting, op.id);
      var r := ReleaseInto(Attached(s, op), s.waiting[op.id]);
      if r.threw then r else Outcome(r.state, !ChecksHold(r.state))
  }

  // Applies the inserts of a waiting list in turn; the first that throws ends it, and the rest
  // of the list is lost.
  ghost function ReleaseInto(s: DocState, ops: seq<Operation>): (r: Outcome)
    requires Filed(s) && forall op | op in ops :: op.Insert? && op.parent in s.tree.elements
    ensures Filed(r.state) && Extends(r.state.tree, s.tree)
    ensures r.state.waiting.Keys <= s.waiting.Keys
    decreases s.waiting.Keys, 1 + |ops|
  {
    if ops == [] then Outcome(s, false)
    else
      var r := InsertInto(s, ops[0]);
      if r.threw then r else ReleaseInto(r.state, ops[1..])
  }

  ghost function ApplyTo(s: DocState, op: Operation): (r: Outcome)
    requires Filed(s)
    ensures Filed(r.state) && Extends(r.state.tree, s.tree)
  {
    match op
    case Insert(_, _, _) => InsertInto(s, op)
    case Remove(target) =>
      BuryLookups(s.tree, target);
      Outcome(DocState(Bury(s.tree, target), s.waiting, s.ids,
                       if target in s.tree.elements then s.deletes else s.deletes + {target}), false)
  }

  // The same, defined for any six maps.
  ghost function Applied(s: DocState, op: Operation): Outcome
  {
    if Filed(s) then ApplyTo(s, op) else Outcome(s, false)
  }

  // The outcome of releasing these inserts in this state.
  ghost predicate Releases(s: DocState, ops: seq<Operation>, r: Outcome)
  {
    && Filed(s) && (forall op | op in ops :: op.Insert? && op.parent in s.tree.elements)
    && ReleaseInto(s, ops) == r
  }

  lemma ReleaseBegins(s: DocState, op: Operation)
    requires Filed(s) && op.Insert? && op.parent in s.tree.elements && op.id !in s.tree.elements && op.id in s.waiting
    ensures exists r :: Releases(Attached(s, op), s.waiting[op.id], r)
    ensures forall r | Releases(Attached(s, op), s.waiting[op.id], r) ::
              InsertInto(s, op) == if r.threw then r else Outcome(r.state, !ChecksHold(r.state))
  {
    forall w | w in s.waiting[op.id] ensures w.Insert? && w.parent == op.id {
      assert w in WaitingFor(s.waiting, op.id);
    }
    assert Releases(Attached(s, op), s.waiting[op.id], ReleaseInto(Attached(s, op), s.waiting[op.id]));
  }

  lemma ReleaseStep(s: DocState, ops: seq<Operation>, i: nat, r: Outcome)
    requires i < |ops| && Releases(s, ops[i..], r)
    ensures Filed(s) && ops[i].Insert?
    ensures var step := InsertInto(s, ops[i]);
            if step.threw then r == step
            else Releases(step.state, ops[i + 1..], r) && step.state.waiting.Keys <= s.waiting.Keys
  {
    assert ops[i..][0] == ops[i] && ops[i..][1..] == ops[i + 1..] && ops[i] in ops[i..];
  }

  lemma ReleaseEnds(s: DocState, ops: seq<Operation>, r: Outcome)
    requires Releases(s, ops[|ops|..], r)
    ensures r == Outcome(s, false)
  {
  }

  // ----- When an insert throws -----

  // The parents whose waiting lists have been taken out when the first of the checks runs: the
  // new element and, from there, always the first insert of a list that others wait for.
  ghost function Chain(waiting: map<ElementID, seq<Operation>>, id: ElementID): set<ElementID>
    decreases waiting.Keys, 0
  {
    {id} + if id in waiting then ChainOf(waiting - {id}, waiting[id]) else {}
  }

  ghost function ChainOf(waiting: map<ElementID, seq<Operation>>, ops: seq<Operation>): set<ElementID>
    decreases waiting.Keys, 1 + |ops|
  {
    if ops == [] then {}
    else if ops[0].Insert? && ops[0].id in waiting then Chain(waiting, ops[0].id)
    else ChainOf(waiting, ops[1..])
  }

  // An insert that others wait for throws exactly when some insert buffered elsewhere names an
  // element that is already there, or the new element itself.
  ghost predicate Blocked(s: DocState, op: Operation)
  {
    && op.Insert? && op.id !in s.tree.elements && op.parent in s.tree.elements && op.id in s.waiting
    && exists b :: Buffered(s, b) && b.parent !in Chain(s.waiting, op.id) && (b.id in s.tree.elements || b.id == op.id)
  }

  // What every document keeps, whatever it receives and whatever it throws.
  ghost predicate Healthy(s: DocState)
  {
    && Filed(s)
    && (forall p {:trigger WaitingFor(s.waiting, p)} | p in s.waiting ::
          p !in s.tree.elements && WaitingFor(s.waiting, p) != [] && NoDuplicates(WaitingFor(s.waiting, p)))
    && (forall a, b | Buffered(s, a) && Buffered(s, b) && a.id == b.id :: a == b)
    && (forall b | Buffered(s, b) && b.id !in s.tree.elements :: b.id in s.ids)
  }

  ghost predicate Conflicts(s: DocState)
  {
    exists b :: Buffered(s, b) && b.id in s.tree.elements
  }

  lemma ChecksFindConflicts(s: DocState)
    requires Healthy(s)
    ensures ChecksHold(s) <==> !Conflicts(s)
  {
    forall p | p in s.waiting && !Conflicts(s)
      ensures p !in s.tree.elements && forall op | op in s.waiting[p] ::
              op.Insert? && op.parent == p && op.id !in s.tree.elements
    {
      assert WaitingFor(s.waiting, p) == s.waiting[p];
      forall op | op in s.waiting[p] ensures op.Insert? && op.parent == p && op.id !in s.tree.elements {
        assert op in WaitingFor(s.waiting, p);
        assert Buffered(s, op);
      }
    }
    forall b | Buffered(s, b) && ChecksHold(s) ensures b.id !in s.tree.elements {
      assert b in s.waiting[b.parent];
    }
  }

  lemma BufferedAfterAttach(s: DocState, op: Operation)
    requires Filed(s) && op.Insert? && op.parent in s.tree.elements && op.id !in s.tree.elements
    ensures forall p :: WaitingFor(Attached(s, op).waiting, p) == if p == op.id then [] else WaitingFor(s.waiting, p)
    ensures forall b :: Buffered(Attached(s, op), b) <==> Buffered(s, b) && b.parent != op.id
  {
    hide Filed;
    hide Extends;
    forall p ensures WaitingFor(Attached(s, op).waiting, p) == if p == op.id then [] else WaitingFor(s.waiting, p) {
    }
  }

  lemma AttachedIsHealthy(s: DocState, op: Operation)
    requires Healthy(s) && op.Insert? && op.parent in s.tree.elements && op.id !in s.tree.elements
    ensures Healthy(Attached(s, op))
  {
    hide Filed;
    hide Extends;
    BufferedAfterAttach(s, op);
    hide Buffered;
    forall b | Buffered(Attached(s, op), b) && b.id !in Attached(s, op).tree.elements
      ensures b.id in Attached(s, op).ids
    {
      assert Buffered(s, b);
    }
    forall p | p in Attached(s, op).waiting
      ensures WaitingFor(Attached(s, op).waiting, p) == WaitingFor(s.waiting, p) && p in s.waiting && p != op.id
    {
    }
  }

  lemma BufferedAfterPark(s: DocState, op: Operation)
    requires Filed(s) && op.Insert?
    ensures forall p ::
              WaitingFor(Parked(s, op).waiting, p) == WaitingFor(s.waiting, p) + if p == op.parent then [op] else []
    ensures forall b :: Buffered(Parked(s, op), b) <==> Buffered(s, b) || b == op
  {
    hide Filed;
    forall p ensures WaitingFor(Parked(s, op).waiting, p) ==
                     WaitingFor(s.waiting, p) + if p == op.parent then [op] else []
    {
    }
  }

  lemma ParkedIsHealthy(s: DocState, op: Operation)
    requires Healthy(s) && op.Insert? && op.parent !in s.tree.elements && op.id !in s.tree.elements && op.id !in s.ids
    ensures Healthy(Parked(s, op))
  {
    hide Filed;
    BufferedAfterPark(s, op);
    assert !Buffered(s, op) && op !in WaitingFor(s.waiting, op.parent);
    forall p | p in Parked(s, op).waiting
      ensures WaitingFor(Parked(s, op).waiting, p) != [] && NoDuplicates(WaitingFor(Parked(s, op).waiting, p))
    {
      assert p != op.parent ==> p in s.waiting;
      assert p !in s.waiting ==> WaitingFor(s.waiting, p) == [];
    }
    hide WaitingFor;
    hide Buffered;
    forall a, b | Buffered(Parked(s, op), a) && Buffered(Parked(s, op), b) && a.id == b.id ensures a == b {
      assert Buffered(s, a) || a == op;
      assert Buffered(s, b) || b == op;
    }
    forall b | Buffered(Parked(s, op), b) && b.id !in s.tree.elements ensures b.id in Parked(s, op).ids {
      assert Buffered(s, b) || b == op;
    }
  }

  // Inserts taken from a waiting list: no two share an identifier, and none shares it with a
  // buffered one.
  ghost predicate InHand(s: DocState, ops: seq<Operation>)
  {
    && (forall op | op in ops :: op.Insert? && op.parent in s.tree.elements)
    && (forall i, j | 0 <= i < j < |ops| :: ops[i].id != ops[j].id)
    && (forall b, op | Buffered(s, b) && op in ops :: b.id != op.id)
  }

  ghost predicate Awaited(waiting: map<ElementID, seq<Operation>>, ops: seq<Operation>)
  {
    exists op :: op in ops && op.Insert? && op.id in waiting
  }

  lemma {:induction false} NoChain(waiting: map<ElementID, seq<Operation>>, ops: seq<Operation>)
    requires !Awaited(waiting, ops)
    ensures ChainOf(waiting, ops) == {}
  {
    if ops != [] {
      assert ops[0] in ops;
      NoChain(waiting, ops[1..]);
    }
  }

  // A waiting list comes out of a healthy buffer.
  lemma ListInHand(s: DocState, op: Operation)
    requires Healthy(s) && op.Insert? && op.parent in s.tree.elements && op.id !in s.tree.elements && op.id in s.waiting
    ensures InHand(Attached(s, op), s.waiting[op.id])
  {
    hide Filed;
    hide Extends;
    var list := s.waiting[op.id];
    BufferedAfterAttach(s, op);
    forall w | w in list ensures w.Insert? && Buffered(s, w) && w.parent == op.id {
      ListIsBuffered(s, op.id, w);
    }
    hide Buffered;
    assert NoDuplicates(WaitingFor(s.waiting, op.id));
    forall i, j | 0 <= i < j < |list| ensures list[i].id != list[j].id {
      assert Buffered(s, list[i]) && Buffered(s, list[j]);
    }
  }

  lemma ListIsBuffered(s: DocState, p: ElementID, w: Operation)
    requires Filed(s) && p in s.waiting && w in s.waiting[p]
    ensures w.Insert? && Buffered(s, w) && w.parent == p
  {
    assert w in WaitingFor(s.waiting, p);
  }

  // An insert never parks another, so it can only take buffered inserts out.
  lemma {:induction false} InsertHealthy(s: DocState, op: Operation)
    requires Healthy(s) && op.Insert?
    ensures Healthy(InsertInto(s, op).state)
    ensures op.parent in s.tree.elements ==> forall b | Buffered(InsertInto(s, op).state, b) :: Buffered(s, b)
    decreases s.waiting.Keys, 0
  {
    hide Healthy;
    hide Buffered;
    hide Extends;
    assert Filed(s) by { HealthyIsFiled(s); }
    if op.id in s.tree.elements {
    } else if op.parent !in s.tree.elements {
      if op.id !in s.ids {
        ParkedIsHealthy(s, op);
      }
    } else {
      AttachedIsHealthy(s, op);
      BufferedAfterAttach(s, op);
      if op.id in s.waiting {
        ListInHand(s, op);
        ReleaseHealthy(Attached(s, op), s.waiting[op.id]);
      }
    }
  }

  lemma {:induction false} ReleaseHealthy(s: DocState, ops: seq<Operation>)
    requires Healthy(s) && forall op | op in ops :: op.Insert? && op.parent in s.tree.elements
    ensures Healthy(ReleaseInto(s, ops).state)
    ensures forall b | Buffered(ReleaseInto(s, ops).state, b) :: Buffered(s, b)
    decreases s.waiting.Keys, 1 + |ops|
  {
    if ops != [] {
      InsertHealthy(s, ops[0]);
      var r := InsertInto(s, ops[0]);
      if !r.threw {
        ReleaseHealthy(r.state, ops[1..]);
      }
    }
  }

  lemma HealthyIsFiled(s: DocState)
    requires Healthy(s)
    ensures Filed(s)
  {
  }

  // Some buffered insert, not filed under one of these parents, names one of these elements.
  ghost predicate Stuck(s: DocState, parents: set<ElementID>, ids: set<ElementID>)
  {
    exists b :: Buffered(s, b) && b.parent !in parents && b.id in ids
  }

  ghost function IdsOf(ops: seq<Operation>): set<ElementID>
  {
    set op | op in ops && op.Insert? :: op.id
  }

  // One insert nobody waits for.
  lemma QuietInsert(s: DocState, op: Operation)
    requires Healthy(s) && op.Insert? && op.parent in s.tree.elements && op.id !in s.waiting
    ensures var r := InsertInto(s, op);
            !r.threw && r.state.waiting == s.waiting && r.state.tree.elements.Keys == s.tree.elements.Keys + {op.id}
  {
    hide Healthy;
    hide Extends;
    HealthyIsFiled(s);
    assert s.waiting - {op.id} == s.waiting;
  }

  lemma {:induction false} QuietRelease(s: DocState, ops: seq<Operation>)
    requires Healthy(s) && (forall op | op in ops :: op.Insert? && op.parent in s.tree.elements)
             && !Awaited(s.waiting, ops)
    ensures var r := ReleaseInto(s, ops);
            !r.threw && r.state.waiting == s.waiting && r.state.tree.elements.Keys == s.tree.elements.Keys + IdsOf(ops)
    decreases |ops|
  {
    hide Healthy;
    hide Extends;
    HealthyIsFiled(s);
    if ops != [] {
      assert ops[0] in ops;
      assert IdsOf(ops) == {ops[0].id} + IdsOf(ops[1..]);
      QuietInsert(s, ops[0]);
      InsertHealthy(s, ops[0]);
      QuietRelease(InsertInto(s, ops[0]).state, ops[1..]);
    }
  }

  lemma {:induction false} InsertThrows(s: DocState, op: Operation)
    requires Healthy(s) && op.Insert? && op.parent in s.tree.elements && op.id !in s.tree.elements && op.id in s.waiting
    ensures var r := InsertInto(s, op);
            && (r.threw <==> Stuck(s, Chain(s.waiting, op.id), s.tree.elements.Keys + {op.id}))
            && (!r.threw ==> !Conflicts(r.state))
    decreases s.waiting.Keys, 0
  {
    hide Healthy;
    hide Extends;
    hide Buffered;
    hide ChecksHold;
    HealthyIsFiled(s);
    var a, list := Attached(s, op), s.waiting[op.id];
    ListInHand(s, op);
    AttachedIsHealthy(s, op);
    BufferedAfterAttach(s, op);
    forall w | w in list ensures w.Insert? && Buffered(s, w) && w.parent == op.id {
      ListIsBuffered(s, op.id, w);
    }
    var r := ReleaseInto(a, list);
    ReleaseHealthy(a, list);
    if Awaited(a.waiting, list) {
      ReleaseThrows(a, list);
    } else {
      QuietRelease(a, list);
      NoChain(a.waiting, list);
      SameBuffers(a, r.state);
      assert Conflicts(r.state) <==> Stuck(a, {}, a.tree.elements.Keys);
    }
    ChecksFindConflicts(r.state);
    assert Stuck(a, ChainOf(a.waiting, list), a.tree.elements.Keys) <==>
           Stuck(s, Chain(s.waiting, op.id), s.tree.elements.Keys + {op.id});
  }

  lemma SameBuffers(s: DocState, r: DocState)
    requires s.waiting == r.waiting
    ensures forall b :: Buffered(s, b) <==> Buffered(r, b)
  {
  }

  lemma RestInHand(s: DocState, r: DocState, ops: seq<Operation>)
    requires InHand(s, ops) && ops != [] && Extends(r.tree, s.tree)
    requires forall b | Buffered(r, b) :: Buffered(s, b)
    ensures InHand(r, ops[1..])
  {
    hide Buffered;
    forall op | op in ops[1..] ensures op in ops {
    }
  }

  lemma {:induction false} ReleaseThrows(s: DocState, ops: seq<Operation>)
    requires Healthy(s) && InHand(s, ops) && Awaited(s.waiting, ops)
    ensures var r := ReleaseInto(s, ops);
            && (r.threw <==> Stuck(s, ChainOf(s.waiting, ops), s.tree.elements.Keys))
            && (!r.threw ==> !Conflicts(r.state))
    decreases s.waiting.Keys, 1 + |ops|
  {
    hide Healthy;
    hide Extends;
    hide Buffered;
    HealthyIsFiled(s);
    var op, rest := ops[0], ops[1..];
    assert op in ops;
    var r := InsertInto(s, op);
    InsertHealthy(s, op);
    if op.id in s.waiting {
      AwaitedIsAbsent(s, op.id);
      InsertThrows(s, op);
      if !r.threw {
        RestInHand(s, r.state, ops);
        if Awaited(r.state.waiting, rest) {
          ReleaseThrows(r.state, rest);
        } else {
          QuietRelease(r.state, rest);
          SameBuffers(r.state, ReleaseInto(r.state, rest).state);
        }
      }
    } else {
      QuietInsert(s, op);
      SameBuffers(s, r.state);
      RestInHand(s, r.state, ops);
      ReleaseThrows(r.state, rest);
    }
  }

  lemma AwaitedIsAbsent(s: DocState, id: ElementID)
    requires Healthy(s) && id in s.waiting
    ensures id !in s.tree.elements
  {
    assert WaitingFor(s.waiting, id) == s.waiting[id];
  }

  // The exact condition, on the state before the call, under which a call throws.
  lemma ApplyThrows(s: DocState, op: Operation)
    requires Healthy(s)
    ensures Filed(s) && (ApplyTo(s, op).threw <==> Blocked(s, op))
  {
    hide Healthy;
    hide Extends;
    hide Buffered;
    HealthyIsFiled(s);
    if op.Insert? && op.id !in s.tree.elements && op.parent in s.tree.elements && op.id in s.waiting {
      InsertThrows(s, op);
    }
  }

  // ----- What the maps say about the operations received -----

  // Everything in the maps came from an operation; no more is true when identifiers are reused.
  ghost predicate Traced(s: DocState, ops: set<Operation>)
  {
    && Shape(s.tree) && Sound(s.tree, ops) && Tombstones(s.tree, ops) && DeletesMatch(s.tree, s.deletes, ops)
    && forall b | Buffered(s, b) :: b in ops
  }

  ghost predicate Structured(s: DocState, ops: set<Operation>)
  {
    Healthy(s) && Traced(s, ops)
  }

  lemma {:induction false} InsertTraced(s: DocState, ops: set<Operation>, op: Operation)
    requires Filed(s) && Traced(s, ops) && op.Insert? && op in ops
    ensures Traced(InsertInto(s, op).state, ops)
    decreases s.waiting.Keys, 0
  {
    hide Traced;
    hide Filed;
    hide Extends;
    hide Buffered;
    if op.id in s.tree.elements {
    } else if op.parent !in s.tree.elements {
      if op.id !in s.ids {
        ParkTraced(s, ops, op);
      }
    } else {
      AttachTraced(s, ops, op);
      if op.id in s.waiting {
        forall w | w in s.waiting[op.id] ensures w.Insert? && w in ops && w.parent == op.id {
          ListIsBuffered(s, op.id, w);
          BufferedIsReceived(s, ops, w);
        }
        ReleaseTraced(Attached(s, op), ops, s.waiting[op.id]);
      }
    }
  }

  lemma {:induction false} ReleaseTraced(s: DocState, ops: set<Operation>, list: seq<Operation>)
    requires Filed(s) && Traced(s, ops)
    requires forall op | op in list :: op in ops && op.Insert? && op.parent in s.tree.elements
    ensures Traced(ReleaseInto(s, list).state, ops)
    decreases s.waiting.Keys, 1 + |list|
  {
    hide Traced;
    hide Filed;
    if list != [] {
      InsertTraced(s, ops, list[0]);
      var r := InsertInto(s, list[0]);
      if !r.threw {
        ReleaseTraced(r.state, ops, list[1..]);
      }
    }
  }

  lemma BufferedIsReceived(s: DocState, ops: set<Operation>, b: Operation)
    requires Traced(s, ops) && Buffered(s, b)
    ensures b in ops
  {
  }

  lemma ParkTraced(s: DocState, ops: set<Operation>, op: Operation)
    requires Filed(s) && Traced(s, ops) && op.Insert? && op in ops
    ensures Traced(Parked(s, op), ops)
  {
    hide Filed;
    hide Shape;
    hide Sound;
    hide Tombstones;
    BufferedAfterPark(s, op);
  }

  lemma AttachTraced(s: DocState, ops: set<Operation>, op: Operation)
    requires Filed(s) && Traced(s, ops) && op.Insert? && op in ops
    requires op.parent in s.tree.elements && op.id !in s.tree.elements
    ensures Traced(Attached(s, op), ops)
  {
    hide Filed;
    hide Shape;
    hide Sound;
    hide Tombstones;
    hide Extends;
    var c := Character(op.ch, op.id in s.deletes);
    ShapeHasKeys(s.tree);
    AddLeafShape(s.tree, op.parent, op.id, c);
    AddLeafSound(s.tree, ops, op.parent, op.id, c);
    AddLeafTombstones(s.tree, ops, op.parent, op.id, c);
    BufferedAfterAttach(s, op);
    hide Buffered;
    assert forall b | Buffered(Attached(s, op), b) :: b in ops;
  }

  lemma ShapeHasKeys(t: Tree)
    requires Shape(t)
    ensures SameKeys(t)
  {
  }

  // A newly received insert changes nothing that is traced.
  lemma TracedMore(s: DocState, ops: set<Operation>, op: Operation)
    requires Traced(s, ops) && op.Insert?
    ensures Traced(s, ops + {op})
  {
    hide Shape;
    var t := s.tree;
    forall id {:trigger t.Parent(id)} | id in t.elements && id != ROOT_ID
      ensures Insert(t.Parent(id), id, t.Char(id)) in ops + {op}
    {
      assert Insert(t.Parent(id), id, t.Char(id)) in ops;
    }
    forall id {:trigger t.Deleted(id)} | id in t.elements ensures t.Deleted(id) <==> Remove(id) in ops + {op} {
      assert t.Deleted(id) <==> Remove(id) in ops;
    }
  }

  lemma RemoveTraced(s: DocState, ops: set<Operation>, target: ElementID)
    requires Filed(s) && Traced(s, ops)
    ensures Traced(ApplyTo(s, Remove(target)).state, ops + {Remove(target)})
  {
    hide Shape;
    hide Filed;
    hide Extends;
    var t, u := s.tree, Bury(s.tree, target);
    BuryShape(t, target);
    BuryLookups(t, target);
    SameBuffers(s, ApplyTo(s, Remove(target)).state);
    hide Buffered;
    forall x {:trigger u.Parent(x)} | x in u.elements && x != ROOT_ID
      ensures Insert(u.Parent(x), x, u.Char(x)) in ops + {Remove(target)}
    {
      assert Insert(t.Parent(x), x, t.Char(x)) in ops;
    }
    forall x {:trigger u.Deleted(x)} | x in u.elements ensures u.Deleted(x) <==> Remove(x) in ops + {Remove(target)} {
      assert t.Deleted(x) <==> Remove(x) in ops;
    }
  }

  lemma RemoveHealthy(s: DocState, target: ElementID)
    requires Healthy(s)
    ensures Filed(s) && Healthy(ApplyTo(s, Remove(target)).state)
  {
    hide Extends;
    BuryLookups(s.tree, target);
    SameBuffers(s, ApplyTo(s, Remove(target)).state);
  }

  // Whatever arrives, and whether or not the call throws, the state stays well formed.
  lemma ApplyStructured(s: DocState, ops: set<Operation>, op: Operation)
    requires Structured(s, ops)
    ensures Filed(s) && Structured(ApplyTo(s, op).state, ops + {op})
  {
    hide Healthy;
    hide Traced;
    hide Extends;
    HealthyIsFiled(s);
    if op.Insert? {
      TracedMore(s, ops, op);
      InsertTraced(s, ops + {op}, op);
      InsertHealthy(s, op);
    } else {
      RemoveTraced(s, ops, op.target);
      RemoveHealthy(s, op.target);
    }
  }

  // ----- Unique identifiers -----

  // With unique identifiers nothing is lost: the state is the one its operations describe.
  ghost predicate Documented(s: DocState, ops: set<Operation>)
  {
    DocumentedExcept(s.tree, s.waiting, s.ids, s.deletes, ops, {})
  }

  lemma DocumentedIsStructured(s: DocState, ops: set<Operation>)
    requires Documented(s, ops)
    ensures Structured(s, ops)
  {
    var none: set<Operation> := {};
    forall p | p in s.waiting
      ensures p !in s.tree.elements && WaitingFor(s.waiting, p) != [] && NoDuplicates(WaitingFor(s.waiting, p))
    {
      assert WaitingFor(s.waiting, p) == s.waiting[p];
    }
    forall b | Buffered(s, b) ensures b in ops && b.id !in s.tree.elements && b.id in s.ids {
      assert b !in none;
    }
  }

  lemma {:induction false} InsertDocumented(s: DocState, ops: set<Operation>, inHand: set<Operation>, op: Operation)
    requires Filed(s) && DocumentedExcept(s.tree, s.waiting, s.ids, s.deletes, ops, inHand) && op.Insert? && op in ops
    requires op in inHand && op.id !in s.tree.elements && op.parent !in s.tree.elements ==> op.id !in s.ids
    ensures var r := InsertInto(s, op);
            && !r.threw
            && DocumentedExcept(r.state.tree, r.state.waiting, r.state.ids, r.state.deletes, ops, inHand - {op})
    decreases s.waiting.Keys, 0
  {
    hide DocumentedExcept;
    hide Filed;
    hide Extends;
    InsertBranches(s.tree, s.waiting, s.ids, s.deletes, ops, inHand, op);
    if op.id in s.tree.elements {
    } else if op.parent !in s.tree.elements {
      if op.id !in s.ids {
        InsertBranches(s.tree, s.waiting, s.ids, s.deletes, ops, inHand, op);
        ParkInsert(s.tree, s.waiting, s.ids, s.deletes, ops, inHand, op);
      } else {
        assert inHand - {op} == inHand;
      }
    } else {
      AttachInsert(s.tree, s.waiting, s.ids, s.deletes, ops, inHand, op);
      var list := WaitingFor(s.waiting, op.id);
      if op.id in s.waiting {
        ReleaseDocumented(Attached(s, op), ops, inHand - {op}, list);
        var r := ReleaseInto(Attached(s, op), list).state;
        ChecksPass(r.tree, r.waiting, r.ids, r.deletes, ops, inHand - {op});
      } else {
        assert (inHand - {op}) + Elements(list) == inHand - {op};
      }
    }
  }

  lemma {:induction false} ReleaseDocumented(
    s: DocState, ops: set<Operation>, hand: set<Operation>, list: seq<Operation>)
    requires Filed(s) && DocumentedExcept(s.tree, s.waiting, s.ids, s.deletes, ops, hand + Elements(list))
    requires NoDuplicates(list)
    requires forall w | w in list :: w in ops && w.Insert? && w.parent in s.tree.elements && w !in hand
    ensures var r := ReleaseInto(s, list);
            && !r.threw && DocumentedExcept(r.state.tree, r.state.waiting, r.state.ids, r.state.deletes, ops, hand)
    decreases s.waiting.Keys, 1 + |list|
  {
    hide DocumentedExcept;
    hide Filed;
    if list == [] {
      assert hand + Elements(list) == hand;
    } else {
      HandAfter(hand, list);
      assert list[0] in list;
      InsertDocumented(s, ops, hand + Elements(list), list[0]);
      ReleaseDocumented(InsertInto(s, list[0]).state, ops, hand, list[1..]);
    }
  }

  lemma HandAfter(hand: set<Operation>, list: seq<Operation>)
    requires list != [] && NoDuplicates(list) && list[0] !in hand
    ensures hand + Elements(list) - {list[0]} == hand + Elements(list[1..])
  {
    assert list == [list[0]] + list[1..];
  }

  // As long as no identifier is reused, no call throws and the state is the one the received
  // operations describe.
  lemma ApplyDocumented(s: DocState, ops: set<Operation>, op: Operation)
    requires Documented(s, ops) && Functional(ops + {op})
    ensures Filed(s) && !ApplyTo(s, op).threw && Documented(ApplyTo(s, op).state, ops + {op})
  {
    hide DocumentedExcept;
    hide Functional;
    hide Extends;
    DocumentedIsStructured(s, ops);
    HealthyIsFiled(s);
    hide Structured;
    hide Filed;
    if op.Insert? {
      var inHand := if op in ops then {} else {op};
      ReceiveInsertBuffers(s.tree, s.waiting, s.ids, s.deletes, ops, op);
      InsertDocumented(s, ops + {op}, inHand, op);
      assert inHand - {op} == {};
    } else {
      ReceiveRemoveBuffers(s.tree, s.waiting, s.ids, s.deletes, ops, op.target);
    }
  }

  lemma NewIsDocumented()
    ensures Documented(NewDocument(), {})
  {
    hide DocumentedExcept;
    NothingReceived();
  }

  // ----- Runs -----

  // The state after a sequence of calls, some of which may have thrown.
  ghost function ApplyAll(s: DocState, ops: seq<Operation>): (r: DocState)
    requires Filed(s)
    ensures Filed(r)
  {
    if ops == [] then s else ApplyTo(ApplyAll(s, ops[..|ops| - 1]), ops[|ops| - 1]).state
  }

  // Some call of the sequence throws.
  ghost predicate RunThrows(s: DocState, ops: seq<Operation>)
    requires Filed(s)
  {
    ops != [] && (RunThrows(s, ops[..|ops| - 1]) || Blocked(ApplyAll(s, ops[..|ops| - 1]), ops[|ops| - 1]))
  }

  lemma RunStep(s: DocState, ops: seq<Operation>, i: nat)
    requires i < |ops| && Filed(s)
    ensures Elements(ops[..i + 1]) == Elements(ops[..i]) + {ops[i]} <= Elements(ops)
    ensures ApplyAll(s, ops[..i + 1]) == Applied(ApplyAll(s, ops[..i]), ops[i]).state
    ensures RunThrows(s, ops[..i + 1]) <==> RunThrows(s, ops[..i]) || Blocked(ApplyAll(s, ops[..i]), ops[i])
  {
    hide ApplyTo;
    hide Filed;
    hide Blocked;
    assert ops[..i + 1] == ops[..i] + [ops[i]] && ops[..i + 1][..i] == ops[..i];
  }

  lemma {:induction false} RunThrowsEarly(s: DocState, ops: seq<Operation>, i: nat)
    requires i <= |ops| && Filed(s) && RunThrows(s, ops[..i])
    ensures RunThrows(s, ops)
    decreases |ops|
  {
    hide Filed;
    hide Blocked;
    if i == |ops| {
      assert ops[..i] == ops;
    } else {
      assert ops[..|ops| - 1][..i] == ops[..i];
      RunThrowsEarly(s, ops[..|ops| - 1], i);
    }
  }

  lemma {:induction false} RunsStayStructured(ops: seq<Operation>)
    ensures Filed(NewDocument()) && Structured(ApplyAll(NewDocument(), ops), Elements(ops))
  {
    hide Structured;
    if ops == [] {
      NewIsDocumented();
      DocumentedIsStructured(NewDocument(), {});
      assert Elements(ops) == {};
    } else {
      var before, op := ops[..|ops| - 1], ops[|ops| - 1];
      RunsStayStructured(before);
      ApplyStructured(ApplyAll(NewDocument(), before), Elements(before), op);
      assert ops == before + [op];
      assert Elements(ops) == Elements(before) + {op};
    }
  }

  // An insert nobody waits for becomes an element or is buffered.
  lemma OneInsert(s: DocState, op: Operation)
    requires Filed(s) && op.Insert? && op.id !in s.tree.elements && op.id !in s.waiting && op.id !in s.ids
    ensures var r := ApplyTo(s, op);
            && !r.threw
            && (op.parent in s.tree.elements ==>
                  r.state.tree.elements.Keys == s.tree.elements.Keys + {op.id} && r.state.waiting == s.waiting
                  && r.state.tree.Char(op.id) == op.ch && r.state.ids == s.ids)
            && (op.parent !in s.tree.elements ==> r.state == Parked(s, op))
  {
    hide Filed;
    assert s.waiting - {op.id} == s.waiting;
    assert s.ids - {op.id} == s.ids;
  }

  // Five different identifiers, one of them the root's.
  ghost predicate Apart(p: ElementID, y: ElementID, z: ElementID, w: ElementID)
  {
    ROOT_ID !in {p, y, z, w} && p !in {y, z, w} && y !in {z, w} && z != w
  }

  // The first insert waits, the second takes its identifier, the third waits for the fourth.
  lemma ThreeInserts(p: ElementID, y: ElementID, z: ElementID, w: ElementID)
    requires Apart(p, y, z, w)
    ensures Filed(NewDocument())
    ensures var s := ApplyAll(NewDocument(), [Insert(p, y, 'a'), Insert(ROOT_ID, y, 'b'), Insert(z, w, 'c')]);
            && s.tree.elements.Keys == {ROOT_ID, y}
               && s.waiting == map[p := [Insert(p, y, 'a')], z := [Insert(z, w, 'c')]]
    ensures !RunThrows(NewDocument(), [Insert(p, y, 'a'), Insert(ROOT_ID, y, 'b'), Insert(z, w, 'c')])
  {
    hide ApplyTo;
    hide Filed;
    hide Extends;
    hide Structured;
    var a, b, c := Insert(p, y, 'a'), Insert(ROOT_ID, y, 'b'), Insert(z, w, 'c');
    RunsStayStructured([]);
    NewIsFiled();
    var s0 := NewDocument();
    ThreeCalls(s0, a, b, c);
    OneInsert(s0, a);
    var s1 := ApplyTo(s0, a).state;
    assert s1.waiting == map[p := [a]] by {
      assert WaitingFor(s0.waiting, p) + [a] == [a];
    }
    SecondInsert(s1, p, y);
    var s2 := ApplyTo(s1, b).state;
    OneInsert(s2, c);
    assert ApplyTo(s2, c).state.waiting == map[p := [a], z := [c]] by {
      assert WaitingFor(s2.waiting, z) + [c] == [c];
    }
    hide Chain;
    hide Buffered;
  }

  lemma NewIsFiled()
    ensures Filed(NewDocument())
  {
  }

  lemma ThreeCalls(s: DocState, a: Operation, b: Operation, c: Operation)
    requires Filed(s)
    ensures ApplyAll(s, [a, b, c]) == ApplyTo(ApplyTo(ApplyTo(s, a).state, b).state, c).state
    ensures RunThrows(s, [a, b, c]) <==>
              Blocked(s, a) || Blocked(ApplyTo(s, a).state, b) || Blocked(ApplyTo(ApplyTo(s, a).state, b).state, c)
  {
    hide ApplyTo;
    hide Blocked;
    assert [a, b, c][..2] == [a, b] && [a, b][..1] == [a] && [a][..0] == [];
    assert ApplyAll(s, [a]) == ApplyTo(s, a).state && (RunThrows(s, [a]) <==> Blocked(s, a));
    assert ApplyAll(s, [a, b]) == ApplyTo(ApplyAll(s, [a]), b).state;
    assert RunThrows(s, [a, b]) <==> RunThrows(s, [a]) || Blocked(ApplyAll(s, [a]), b);
  }

  lemma SecondInsert(s: DocState, p: ElementID, y: ElementID)
    requires Filed(s) && p != y && ROOT_ID !in {p, y}
    requires s.tree.elements.Keys == {ROOT_ID} && s.waiting == map[p := [Insert(p, y, 'a')]] && s.ids == {y}
    ensures var r := ApplyTo(s, Insert(ROOT_ID, y, 'b')).state;
            r.tree.elements.Keys == {ROOT_ID, y} && r.waiting == s.waiting && r.ids == {}
  {
    hide AddLeaf;
    assert s.waiting - {y} == s.waiting;
  }

  // Four operations, the last of which reuses nothing and throws: it and the insert that waited
  // for it are elements when the exception leaves, and the insert that causes it, whose
  // identifier the second operation took, stays buffered.
  lemma FourthInsertThrows(p: ElementID, y: ElementID, z: ElementID, w: ElementID)
    requires Apart(p, y, z, w)
    ensures Filed(NewDocument())
    ensures var s := ApplyAll(NewDocument(), [Insert(p, y, 'a'), Insert(ROOT_ID, y, 'b'), Insert(z, w, 'c')]);
            var r := ApplyTo(s, Insert(ROOT_ID, z, 'd'));
            && r.threw && Blocked(s, Insert(ROOT_ID, z, 'd'))
            && r.state.tree.elements.Keys == {ROOT_ID, y, z, w} && r.state.waiting == map[p := [Insert(p, y, 'a')]]
  {
    ThreeInserts(p, y, z, w);
    var ops := [Insert(p, y, 'a'), Insert(ROOT_ID, y, 'b'), Insert(z, w, 'c')];
    RunsStayStructured(ops);
    FourthInsert(ApplyAll(NewDocument(), ops), p, y, z, w);
  }

  // The same four operations can be applied in another order without a throw: whether stored rows
  // can be loaded depends on the order in which the database returns them.
  lemma RowOrderDecides(p: ElementID, y: ElementID, z: ElementID, w: ElementID)
    requires Apart(p, y, z, w)
    ensures Filed(NewDocument())
    ensures var a, b, c, d := Insert(p, y, 'a'), Insert(ROOT_ID, y, 'b'), Insert(z, w, 'c'), Insert(ROOT_ID, z, 'd');
            RunThrows(NewDocument(), [a, b, c, d]) && !RunThrows(NewDocument(), [b, a, d, c])
  {
    var a, b, c, d := Insert(p, y, 'a'), Insert(ROOT_ID, y, 'b'), Insert(z, w, 'c'), Insert(ROOT_ID, z, 'd');
    NewIsFiled();
    hide Filed;
    hide ApplyTo;
    hide Blocked;
    hide NewDocument;
    FourthInsertThrows(p, y, z, w);
    FourCalls(NewDocument(), a, b, c, d);
    FourCalls(NewDocument(), b, a, d, c);
    ThreeCalls(NewDocument(), a, b, c);
    NoneWait(p, y, z, w);
  }

  lemma NoneWait(p: ElementID, y: ElementID, z: ElementID, w: ElementID)
    ensures Filed(NewDocument())
    ensures var s1 := ApplyTo(NewDocument(), Insert(ROOT_ID, y, 'b')).state;
            var s2 := ApplyTo(s1, Insert(p, y, 'a')).state;
            var s3 := ApplyTo(s2, Insert(ROOT_ID, z, 'd')).state;
            && !Blocked(NewDocument(), Insert(ROOT_ID, y, 'b')) && !Blocked(s1, Insert(p, y, 'a'))
            && !Blocked(s2, Insert(ROOT_ID, z, 'd')) && !Blocked(s3, Insert(z, w, 'c'))
  {
    NewIsFiled();
    hide Filed;
    hide ApplyTo;
    hide Blocked;
    var s0 := NewDocument();
    InsertInOrder(s0, Insert(ROOT_ID, y, 'b'));
    var s1 := ApplyTo(s0, Insert(ROOT_ID, y, 'b')).state;
    InsertInOrder(s1, Insert(p, y, 'a'));
    var s2 := ApplyTo(s1, Insert(p, y, 'a')).state;
    InsertInOrder(s2, Insert(ROOT_ID, z, 'd'));
    InsertInOrder(ApplyTo(s2, Insert(ROOT_ID, z, 'd')).state, Insert(z, w, 'c'));
  }

  lemma FourCalls(s: DocState, a: Operation, b: Operation, c: Operation, d: Operation)
    requires Filed(s)
    ensures var s1 := ApplyTo(s, a).state;
            var s2 := ApplyTo(s1, b).state;
            var s3 := ApplyTo(s2, c).state;
            RunThrows(s, [a, b, c, d]) <==> Blocked(s, a) || Blocked(s1, b) || Blocked(s2, c) || Blocked(s3, d)
  {
    hide Filed;
    hide ApplyTo;
    hide Blocked;
    assert [a, b, c, d][..3] == [a, b, c] && [a, b, c][..2] == [a, b] && [a, b][..1] == [a] && [a][..0] == [];
    assert RunThrows(s, [a]) <==> Blocked(s, a);
    assert ApplyAll(s, [a]) == ApplyTo(s, a).state;
    assert RunThrows(s, [a, b]) <==> RunThrows(s, [a]) || Blocked(ApplyAll(s, [a]), b);
    assert RunThrows(s, [a, b, c]) <==> RunThrows(s, [a, b]) || Blocked(ApplyAll(s, [a, b]), c);
    ThreeCalls(s, a, b, c);
  }

  lemma InsertInOrder(s: DocState, op: Operation)
    requires Filed(s) && s.waiting == map[] && op.Insert? && (op.parent in s.tree.elements || op.id in s.tree.elements)
    ensures !Blocked(s, op)
    ensures var r := ApplyTo(s, op).state;
            r.waiting == map[] && r.tree.elements.Keys == s.tree.elements.Keys + {op.id}
  {
    hide Filed;
  }

  lemma FourthInsert(s: DocState, p: ElementID, y: ElementID, z: ElementID, w: ElementID)
    requires Apart(p, y, z, w) && Healthy(s)
    requires s.tree.elements.Keys == {ROOT_ID, y}
             && s.waiting == map[p := [Insert(p, y, 'a')], z := [Insert(z, w, 'c')]]
    ensures Filed(s)
    ensures var r := ApplyTo(s, Insert(ROOT_ID, z, 'd'));
            && r.threw && Blocked(s, Insert(ROOT_ID, z, 'd'))
            && r.state.tree.elements.Keys == {ROOT_ID, y, z, w} && r.state.waiting == map[p := [Insert(p, y, 'a')]]
  {
    hide Healthy;
    hide Filed;
    hide Extends;
    hide ReleaseInto;
    hide ChecksHold;
    HealthyIsFiled(s);
    var c, d := Insert(z, w, 'c'), Insert(ROOT_ID, z, 'd');
    var a := Attached(s, d);
    AttachedIsHealthy(s, d);
    assert a.waiting == map[p := [Insert(p, y, 'a')]];
    QuietRelease(a, [c]);
    assert IdsOf([c]) == {w};
    NoChain(a.waiting, [c]);
    assert s.waiting[z] == [c];
    assert Chain(s.waiting, z) == {z};
    assert Buffered(s, Insert(p, y, 'a'));
    ApplyThrows(s, d);
  }

  // The first insert of an identifier stays: another one changes nothing if the identifier is an
  // element's, or if it would have to wait and the identifier is already waiting, wherever.
  lemma SecondInsertIsIgnored(s: DocState, op: Operation)
    requires Healthy(s) && op.Insert?
    requires op.id in s.tree.elements
             || (op.parent !in s.tree.elements && exists b :: Buffered(s, b) && b.id == op.id)
    ensures Filed(s) && ApplyTo(s, op) == Outcome(s, false)
  {
  }

  // Without unique identifiers the order of arrival decides the text: of two inserts with one
  // identifier a document keeps the first.
  lemma ReusedIdDiverges(id: ElementID, a: char, b: char)
    requires id != ROOT_ID
    ensures Filed(NewDocument())
    ensures var s := ApplyAll(NewDocument(), [Insert(ROOT_ID, id, a), Insert(ROOT_ID, id, b)]);
            var r := ApplyAll(NewDocument(), [Insert(ROOT_ID, id, b), Insert(ROOT_ID, id, a)]);
            s.tree.Char(id) == a && r.tree.Char(id) == b
  {
    RunsStayStructured([]);
    FirstInsertWins(id, a, b);
    FirstInsertWins(id, b, a);
  }

  lemma FirstInsertWins(id: ElementID, a: char, b: char)
    requires id != ROOT_ID
    ensures Filed(NewDocument())
    ensures ApplyAll(NewDocument(), [Insert(ROOT_ID, id, a), Insert(ROOT_ID, id, b)]).tree.Char(id) == a
  {
    var one, two := Insert(ROOT_ID, id, a), Insert(ROOT_ID, id, b);
    RunsStayStructured([]);
    assert [one, two][..1] == [one] && [one][..0] == [];
    assert ApplyAll(NewDocument(), []) == NewDocument();
    OneInsert(NewDocument(), one);
  }
}
