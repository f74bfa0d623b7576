// What a local editor session does, as functions on values: commands, cursors, the Lamport
// clock, duplicate detection and remote cursors.
module Editing {
  import opened Wrappers
  import opened ElementIds
  import opened Operations
  import opened Trees
  import opened Places
  import opened Lines
  import opened VisibleText
  import opened Messages

  datatype Command =
    | InsertCharacter(c: char) | Enter
    | MoveLeft | MoveRight | MoveUp | MoveDown
    | Backspace | DeleteForward
    | ShiftLeft | ShiftRight | ShiftUp | ShiftDown

  datatype CursorState = CursorState(
    anchor: ElementID,
    desiredColumn: Option<nat>,
    selection: Option<ElementID>)
  {
    predicate HasSelection() {
      selection.Some? && selection.value != anchor
    }
  }

  // What a command does before its operations are applied.
  datatype Effect = Effect(cursor: CursorState, clock: nat, ops: seq<Operation>)

  datatype Session = Session(
    received: set<Operation>,
    cursor: CursorState,
    clock: nat,
    remote: map<string, ElementID>,
    pending: map<string, ElementID>,
    outgoing: seq<Message>)

  // The session's document; it is only ever used for functional sets.
  ghost function Meaning(ops: set<Operation>): (t: Tree)
    ensures Shape(t)
    ensures Functional(ops) ==> Represents(t, ops)
  {
    if Functional(ops) then TreeOf(ops) else
      RootTreeShape(false);
      RootTree(false)
  }

  // ----- Commands -----

  ghost function NormalizedRange(t: Tree, cur: CursorState): Option<(ElementID, ElementID)>
  {
    if !cur.HasSelection() then None
    else
      var a, c := cur.selection.value, cur.anchor;
      if a == ROOT_ID then Some((a, c))
      else if c == ROOT_ID then Some((c, a))
      else if a in Visible(t) && (c in Visible(t) ==> IndexOf(Visible(t), a) < IndexOf(Visible(t), c)) then Some((a, c))
      else if c in Visible(t) then Some((c, a))
      else None
  }

  ghost function RemoveEach(ids: seq<ElementID>): (ops: seq<Operation>)
    ensures |ops| == |ids| && forall i | 0 <= i < |ids| :: ops[i] == Remove(ids[i])
  {
    if ids == [] then [] else RemoveEach(ids[..|ids| - 1]) + [Remove(ids[|ids| - 1])]
  }

  ghost function DeleteSelection(t: Tree, cur: CursorState, clock: nat): Effect
  {
    match NormalizedRange(t, cur)
    case None => Effect(cur, clock, [])
    case Some((start, end)) =>
      var selected := VisibleRange(t, start, end);
      if selected == [] then Effect(cur.(selection := None), clock, [])
      else Effect(cur.(selection := None, anchor := VisiblePredecessor(t, selected[0])), clock, RemoveEach(selected))
  }

  ghost function Least(a: nat, b: nat): nat
  {
    if b < a then b else a
  }

  // Moving to another line keeps the desired column, clipped to that line.
  ghost function ToLine(t: Tree, cur: CursorState, line: nat): CursorState
  {
    var ls := LinesOf(Text(t));
    if line >= |ls| then cur
    else
      var wanted := if cur.desiredColumn.Some? then cur.desiredColumn.value else CursorPosition(t, cur.anchor).1;
      var anchor := AnchorOfPosition(t, line, Least(wanted, |ls[line]|));
      cur.(desiredColumn := Some(wanted), anchor := if anchor.Some? then anchor.value else cur.anchor)
  }

  ghost function Moved(t: Tree, cur: CursorState, cmd: Command): CursorState
  {
    match cmd
    case MoveLeft | ShiftLeft => cur.(anchor := VisiblePredecessor(t, cur.anchor))
    case MoveRight | ShiftRight =>
      var next := VisibleSuccessor(t, cur.anchor);
      if next.Some? then cur.(anchor := next.value) else cur
    case MoveUp | ShiftUp =>
      var line := CursorPosition(t, cur.anchor).0;
      if line == 0 then cur else ToLine(t, cur, line - 1)
    case MoveDown | ShiftDown => ToLine(t, cur, CursorPosition(t, cur.anchor).0 + 1)
    case _ => cur
  }

  ghost function StartSelection(cur: CursorState): CursorState
  {
    if cur.HasSelection() then cur else cur.(selection := Some(cur.anchor))
  }

  ghost function Typed(cur: CursorState, clock: nat, site: string, c: char): Effect
  {
    var id := ElementID(clock + 1, site);
    Effect(cur.(selection := None, anchor := id), clock + 1, [Insert(cur.anchor, id, c)])
  }

  // The zero character stands for a command without a character and is refused.
  ghost function Process(t: Tree, cur: CursorState, clock: nat, site: string, cmd: Command): Result<Effect>
  {
    match cmd
    case InsertCharacter(c) =>
      if c == '\0' then Throws("No character in this command.") else Ok(Typed(cur, clock, site, c))
    case Enter => Ok(Typed(cur, clock, site, '\n'))
    case Backspace =>
      if cur.HasSelection() then Ok(DeleteSelection(t, cur, clock))
      else Ok(Effect(cur.(anchor := VisiblePredecessor(t, cur.anchor)), clock, [Remove(cur.anchor)]))
    case DeleteForward =>
      if cur.HasSelection() then Ok(DeleteSelection(t, cur, clock))
      else
        var next := VisibleSuccessor(t, cur.anchor);
        Ok(Effect(cur, clock, if next.Some? then [Remove(next.value)] else []))
    case MoveLeft | MoveRight | MoveUp | MoveDown => Ok(Effect(Moved(t, cur.(selection := None), cmd), clock, []))
    case ShiftLeft | ShiftRight | ShiftUp | ShiftDown => Ok(Effect(Moved(t, StartSelection(cur), cmd), clock, []))
  }

  // ----- Applying operations in a session -----

  // The local cursor follows a local insert at it, and steps back when its anchor is removed.
  ghost function CursorAfter(t: Tree, cur: CursorState, op: Operation, local: bool): CursorState
  {
    match op
    case Insert(parent, id, _) => if local && parent == cur.anchor then cur.(anchor := id) else cur
    case Remove(target) =>
      if target == cur.anchor then cur.(anchor := VisiblePredecessor(t, target)) else cur
  }

  ghost function RemoteAfter(t: Tree, remote: map<string, ElementID>, op: Operation): map<string, ElementID>
  {
    match op
    case Insert(_, _, _) => remote
    case Remove(target) =>
      map k | k in remote :: if remote[k] == target then VisiblePredecessor(t, target) else remote[k]
  }

  // One operation; a duplicate changes nothing.
  ghost function Absorb(s: Session, op: Operation, local: bool): Session
  {
    if op in s.received then s
    else
      var t := Meaning(s.received + {op});
      s.(received := s.received + {op},
         cursor := CursorAfter(t, s.cursor, op, local),
         remote := RemoteAfter(t, s.remote, op))
  }

  function ClockAfter(clock: nat, op: Operation): nat
  {
    if op.Insert? && op.id.lamport > clock then op.id.lamport else clock
  }

  // A remote operation first advances the clock.
  ghost function AbsorbRemote(s: Session, op: Operation): Session
  {
    Absorb(s.(clock := ClockAfter(s.clock, op)), op, false)
  }

  ghost function AbsorbHistory(s: Session, history: seq<Operation>): Session
  {
    if history == [] then s
    else AbsorbRemote(AbsorbHistory(s, history[..|history| - 1]), history[|history| - 1])
  }

  // A local operation is applied and queued for the server, duplicate or not.
  ghost function Perform(s: Session, site: string, op: Operation): Session
  {
    var r := Absorb(s, op, true);
    r.(outgoing := r.outgoing + [OperationMessage(site, op)])
  }

  ghost function PerformAll(s: Session, site: string, ops: seq<Operation>): Session
  {
    if ops == [] then s else Perform(PerformAll(s, site, ops[..|ops| - 1]), site, ops[|ops| - 1])
  }

  // Of the clients looked at, those whose anchor has arrived; and all those that go on waiting.
  ghost function Arrived(t: Tree, pending: map<string, ElementID>, done: set<string>): map<string, ElementID>
  {
    map k | k in pending && k in done && Resolved(t, pending[k]).Some? :: pending[k]
  }

  ghost function StillWaiting(t: Tree, pending: map<string, ElementID>, done: set<string>): map<string, ElementID>
  {
    map k | k in pending && !(k in done && Resolved(t, pending[k]).Some?) :: pending[k]
  }

  // Pending cursor updates whose anchor has arrived become remote cursors.
  ghost function Settle(s: Session): Session
  {
    var t := Meaning(s.received);
    s.(remote := s.remote + Arrived(t, s.pending, s.pending.Keys),
       pending := StillWaiting(t, s.pending, s.pending.Keys))
  }

  // ----- Session steps -----

  ghost function Remember(s: Session): Session
  {
    s.(cursor := s.cursor.(desiredColumn := Some(CursorPosition(Meaning(s.received), s.cursor.anchor).1)))
  }

  ghost function HandleCommand(s: Session, site: string, cmd: Command): Result<Session>
  {
    match Process(Meaning(s.received), s.cursor, s.clock, site, cmd)
    case Throws(why) => Throws(why)
    case Ok(effect) =>
      var r := PerformAll(s.(cursor := effect.cursor, clock := effect.clock), site, effect.ops);
      Ok(if cmd.MoveUp? || cmd.MoveDown? then r else Remember(r))
  }

  ghost function ReceiveCursor(s: Session, sender: string, position: ElementID): Session
  {
    if Resolved(Meaning(s.received), position).None? then s.(pending := s.pending[sender := position])
    else s.(remote := s.remote[sender := position], pending := s.pending - {sender})
  }

  ghost function Receive(s: Session, site: string, m: Message): Session
  {
    match m
    case OperationMessage(_, op) => Settle(AbsorbRemote(s, op))
    case SyncResponse(_, history) =>
      var r := Settle(AbsorbHistory(s, history));
      r.(outgoing := r.outgoing + [SyncComplete(site), CursorUpdate(site, r.cursor.anchor)])
    case CursorUpdate(sender, position) => ReceiveCursor(s, sender, position)
    case _ => s
  }

  // The operations a message carries to a session.
  function Carried(m: Message): set<Operation>
  {
    match m
    case OperationMessage(_, op) => {op}
    case SyncResponse(_, history) => set op | op in history
    case _ => {}
  }

  const FreshSession: Session := Session({}, CursorState(ROOT_ID, None, None), 0, map[], map[], [])
}
