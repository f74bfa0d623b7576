// The two operations replicas exchange, and what is assumed of a set of them.
module Operations {
  import opened ElementIds

  datatype Operation =
    | Insert(parent: ElementID, id: ElementID, ch: char)
    | Remove(target: ElementID)

  // Identifiers are unique: one identifier, one insert. Inserts that reuse the root's
  // identifier are ignored by every document, so they are not constrained.
  ghost predicate Functional(ops: set<Operation>)
  {
    forall a, b | a in ops && b in ops && a.Insert? && b.Insert? && a.id == b.id && a.id != ROOT_ID :: a == b
  }

  lemma FewerOperations(ops: set<Operation>, more: set<Operation>)
    requires ops <= more && Functional(more)
    ensures Functional(ops)
  {
  }

  ghost function InsertedIds(ops: set<Operation>): set<ElementID>
  {
    set op | op in ops && op.Insert? :: op.id
  }

  // Every identifier an operation names.
  function Mentioned(op: Operation): set<ElementID>
  {
    match op
    case Insert(parent, id, _) => {parent, id}
    case Remove(target) => {target}
  }

  ghost function Elements<T>(xs: seq<T>): set<T>
  {
    set x | x in xs
  }
}
