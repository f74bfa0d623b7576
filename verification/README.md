# A verified model of the collaborative editor

The repository is a replicated text editor. Every client holds a tree of characters, turns key
presses into insert and remove operations on it, and exchanges them through a synchronisation
server that keeps a log of operations for each document. This project models that program in Dafny
and proves what it is for: replicas that received the same operations agree, nothing a client
types is lost or displaced, and no client with a document open misses an operation of it.

The model follows the program file by file.

* `element_ids.dfy`, `operations.dfy`: identifiers with their total order, and the two operations.
* `trees.dfy`, `buffers.dfy`: the declarative meaning of a set of operations. The elements are the
  root and the inserts reachable from it through parents; everything else is buffered. The meaning
  exists and is unique.
* `preorder.dfy`, `places.dfy`, `growth.dfy`, `visible.dfy`, `lines.dfy`: the traversal of the
  tree, the block each subtree occupies in it, how it grows, the visible text, the gaps a cursor can
  stand in, and lines and columns.
* `document_states.dfy`: the document as a value, for any sequence of operations whatever: what each
  call does, when it throws, and what survives a throw.
* `document.dfy`, `convergence.dfy`: the class `Document` with the program's six maps, updated in
  place, every method proved against the value; then convergence and exact buffering.
* `editing.dfy`, `session_facts.dfy`, `commands.dfy`, `typing.dfy`, `selections.dfy`,
  `session_steps.dfy`: the session as a state machine on values, what each command and message does
  to text, cursor and clock, and what it keeps.
* `plain_editor.dfy`: an ordinary editor of a text with a cursor, and the proof that every command of
  every session does what it does.
* `cursors.dfy`, `input_handlers.dfy`, `sessions.dfy`: the classes for the identifier generator,
  the cursor, the command handler, the operation log and the session, each method tied to the
  state machine.
* `text_codec.dfy`, `operation_codec.dfy`, `messages.dfy`, `framing.dfy`: the text form of
  operations and messages and the length-prefixed frames, with their inverses. `wire_formats.dfy`:
  what is written, spelled out, and exactly which texts are read.
* `server.dfy`, `server_facts.dfy`, `server_protocol.dfy`, `server_runs.dfy`: the server as a state
  machine over arbitrary traffic, what every step keeps, which messages it accepts, what it answers
  and in which order it delivers, and runs that lead to its rare branches.
* `persistence.dfy`, `server_class.dfy`, `sync_server.dfy`: the database rows, persistent documents,
  the document store, connections and the server as classes; each handler is one step of the state
  machine.
* `collaboration.dfy`, `collaboration_facts.dfy`, `collaboration_theorems.dfy`: any number of honest
  sessions joined to the server by first-in first-out channels of texts, and what holds in every
  reachable state.
* `collaboration_runs.dfy`, `collaboration_restarts.dfy`: where such a system can always be brought,
  namely to rest and agreement, and what a restart of the server or of a client finds.

## What is assumed

* Nothing is assumed of what a document or the server receives; sessions take the messages of honest
  senders (see "Left out"). Results that need unique identifiers say so (`Operations.Functional`: one
  identifier, one insert); in the whole system that is proved
  (`CollaborationTheorems.UniqueHeapOrderedIds`) from the fact that a client's name is used by no other
  client and by no identifier of the database.
* In the whole system, client names are not empty and hold neither a vertical bar nor a newline,
  document names hold no newline, typed characters are bytes and a client's clock is below 2^64 when it
  issues an identifier. `CollaborationTheorems.BarredNameIsCutOff` shows what happens to other names.
* A client edits once it has applied the history of its document. Within one run of the server a name
  is not used again after its client has gone, since all documents share one set of identifiers there;
  `CollaborationRestarts.NamesCanReturn` shows that within a document it can be.
* Channels are reliable and ordered while a connection lasts; a connection may end at any time.
* Distinct texts have distinct digests. Rows are read back in any order.

## What the proofs brought to light

* An operation that reuses nothing can make the server's document throw. It takes an earlier insert
  whose identifier was used by another insert while the earlier one waited for its parent; from then on
  an insert that others wait for throws at the check that ends its release, after it and the inserts it
  released have become elements (`DocumentStates.FourthInsertThrows`, and
  `DocumentStates.ApplyThrows` for the exact condition). The server has stored the row by then, routes
  the operation to no one and disconnects its sender (`ServerFacts.InnocentSenderIsDisconnected`, and
  `ServerRuns.InnocentSenderExists` for a run from an empty database that ends there);
  `ServerFacts.RefusedOperationLeavesGap` says exactly when others miss it. Whether such rows can be
  loaded again depends on the order the database returns them in (`DocumentStates.RowOrderDecides`).
* When the fixed end of a selection is removed by someone else, deleting the selection removes
  everything from the cursor to the end of the document unless that end stood for the end of the
  document anyway (`Selections.SelectionDeletionIsExact`, `Selections.StaleEndDeletesTheRest`).
* The same happens to a user alone: a step right and a step left with shift select nothing but leave a
  fixed end at the cursor; Backspace takes that character away, and the next Backspace deletes
  everything after the cursor (`PlainEditors.CollapsedSelectionDeletesTheRest`, and
  `PlainEditors.MarkIsLostExactly` for when a fixed end is lost).
* Going up or down over a shorter line with shift and coming back does not return to the same column,
  because the session remembers the shorter one; without shift it does (`Commands.LineMovesReturn`).
* A client whose name holds a vertical bar is disconnected at the first character it types
  (`CollaborationTheorems.BarredNameIsCutOff`).
* A history that does not fit in a frame of one mebibyte ends the connection of every client that opens
  the document (`CollaborationTheorems.ServerIsNeverRefused`,
  `CollaborationRuns.LargeDocumentEndsConnection`); such documents do arise
  (`CollaborationRuns.LargeDocumentArises`).
* The newline that ends a message without payload is not needed: the text without it is read as the
  same message, and it is the only shorter text that is (`WireFormats.LastNewlineIsSpare`).
* A `SYNC_REQUEST` can be written but is refused by every reader (`Messages.SyncRequestIsRefused`).
* The zero character cannot be typed: the command throws before anything changes
  (`Commands.CommandKeeps`).
* Backspace at the start of the document sends a removal of the root; it changes no text
  (`Commands.BackspaceRemovesBefore`).

## Model

| member | source | states |
|---|---|---|
| `ElementIds.LessIsStrictTotalOrder` | crdt_editor/src/elementID.cpp:11-18 | the identifier comparison is irreflexive, asymmetric, transitive and total, so all replicas rank any two identifiers alike |
| `ElementIds.LessIsByClockThenSite` | crdt_editor/src/elementID.cpp:11-14 | identifiers are ranked by clock, and with equal clocks by the dictionary order of their sites |
| `ElementIds.SortDescendingSorts` | crdt_editor/src/document.cpp:492 | sorting a duplicate-free sibling list gives a strictly descending list with the same members |
| `ElementIds.DescendingIsCanonical` | crdt_editor/src/document.cpp:492 | a descending sibling list is determined by its members |
| `Trees.ElementsAreReachable` | crdt_editor/src/document.cpp:448-510 | in a tree that represents a set of operations, the elements are exactly the identifiers reachable from the root through parent links |
| `Trees.RepresentationIsUnique` | crdt_editor/src/document.cpp:79-88 | two trees that represent the same operations are equal: elements, tombstones, parents and sibling lists |
| `Trees.TreeOf` | crdt_editor/src/document.cpp:79-88 | every functional set of operations is represented by some tree |
| `Trees.AddLeafRepresents` | crdt_editor/src/document.cpp:462-510 | attaching an insert under a present parent keeps the tree a representation, with the released waiting list left to apply |
| `Trees.BuryRepresents` | crdt_editor/src/document.cpp:536-543 | setting a tombstone turns a representation of the operations into one of the operations and the removal |
| `Buffers.ParkInsert` | crdt_editor/src/document.cpp:454-460 | filing an orphan under its absent parent keeps the document state described by its operations |
| `Buffers.AttachInsert` | crdt_editor/src/document.cpp:462-504 | the map updates of an insert, the consumed early delete and the removed waiting list keep the state described by its operations |
| `Buffers.ChecksPass` | crdt_editor/src/document.cpp:512-533 | in every state a release can reach, none of the consistency checks at its end can throw |
| `Buffers.BuffersAreUnique` | crdt_editor/src/document.cpp:454-504 | the buffers are settled by the operations up to the order inside each waiting list |
| `DocumentStates.InsertHealthy` | crdt_editor/src/document.cpp:448-510 | an insert, released ones included, keeps every buffered operation filed once under its own absent parent, whatever was received; a release buffers nothing new |
| `DocumentStates.InsertThrows` | crdt_editor/src/document.cpp:504-533 | an insert that others wait for throws exactly when some insert buffered outside the lists taken out before the first check names an element; when it does not throw, no buffered insert names an element |
| `DocumentStates.ReleaseThrows` | crdt_editor/src/document.cpp:504-533 | the same for a waiting list applied in order, by induction over nested releases |
| `DocumentStates.ApplyThrows` | crdt_editor/src/document.cpp:448-534 | a call throws if and only if the state before it is blocked for the operation: others wait for it, and an insert buffered elsewhere has the identifier of an element or of the operation itself |
| `DocumentStates.ApplyStructured` | crdt_editor/src/document.cpp:79-88 | every operation, also one that throws, keeps the tree a tree, every element and tombstone traced to a received operation, and the buffers well formed |
| `DocumentStates.ApplyDocumented` | crdt_editor/src/document.cpp:79-88 | as long as no identifier is reused no call throws and the state is the one the received operations describe |
| `DocumentStates.RunsStayStructured` | crdt_editor/src/document.cpp:79-88 | after any sequence of calls, some of which may have thrown, the state is well formed |
| `DocumentStates.SecondInsertIsIgnored` | crdt_editor/src/document.cpp:448-460 | the first insert of an identifier stays: another one changes nothing if the identifier is an element's, or if it would have to wait and the identifier already waits somewhere |
| `DocumentStates.FourthInsertThrows` | crdt_editor/src/document.cpp:512-531 | four operations of which the last reuses nothing and throws; it and its released child are elements when the exception leaves, and the insert whose identifier was taken stays buffered |
| `DocumentStates.RowOrderDecides` | crdt_editor/persistance/persistent_document.cpp:28-37 | the same four operations throw in one order and not in another, so whether stored rows load depends on the order the database returns them in |
| `Documents.Document.constructor` | crdt_editor/src/document.cpp:167-171 | a new document holds only the root, has received nothing, and is settled by what it received |
| `Documents.Document.Apply` | crdt_editor/src/document.cpp:79-88 | applying any operation whatever leaves the state the value semantics says and well formed, and throws exactly when the operation is blocked; as long as no identifier is reused it never throws and the state is that of one more operation; no element is lost and the elements already present keep their traversal order, even after a throw |
| `Documents.Document.ApplyInsert` | crdt_editor/src/document.cpp:448-534 | the recursive release over the waiting list terminates and computes, in place, the state and the throw of the value semantics for any insert |
| `Documents.Document.Park` | crdt_editor/src/document.cpp:454-460 | an insert whose parent is absent is appended to the list under that parent and its identifier kept |
| `Documents.Document.Attach` | crdt_editor/src/document.cpp:462-504 | an insert whose parent is present becomes an element, deleted already if its removal came first, and hands over its whole waiting list |
| `Documents.Document.ApplyDelete` | crdt_editor/src/document.cpp:536-543 | a removal sets the tombstone of a present element or is kept for later |
| `Documents.Document.CheckBuffers` | crdt_editor/src/document.cpp:512-533 | the loops succeed exactly when every buffered operation is an insert filed under its own absent parent and is not an element |
| `Documents.Document.Validate` | crdt_editor/src/document.cpp:43-77 | the audit succeeds exactly when the three maps agree |
| `Documents.Document.ValidPassesAudit` | crdt_editor/src/document.cpp:43-77 | every state a document can get into, whatever it received and whatever it threw, passes the audit |
| `Convergence.Replay` | crdt_editor/src/document.cpp:79-88 | any sequence of calls, continued after a throw, ends in the fold of the calls, and reports a throw exactly when some call was blocked; with unique identifiers nothing throws and the state is described by the set of operations alone |
| `Convergence.StrongConvergence` | crdt_editor/src/document.cpp:79-88 | documents that received the same operations, in any order and with any duplicates, have equal elements, tombstones, parents, sibling lists and text, and equal buffers up to list order |
| `Convergence.ElementsAreExact` | crdt_editor/src/document.cpp:448-543 | the elements are exactly what is reachable, and deleted exactly when a removal was received |
| `Convergence.BuffersAreExact` | crdt_editor/src/document.cpp:448-543 | an insert is buffered under its parent exactly when it is not reachable; buffered deletes are exactly the removals of unreachable targets |
| `DocumentStates.ReusedIdDiverges` | crdt_editor/src/document.cpp:448-452 | two documents that receive two inserts of one identifier in different orders keep different characters, so uniqueness of identifiers is needed |
| `Preorder.SubtreeUnfolds` | crdt_editor/src/document.cpp:11-21 | the visit of a node is the node followed by the visits of its children in order |
| `Preorder.SubtreeIsDescendants` | crdt_editor/src/document.cpp:11-21 | the visit of a node meets exactly its descendants |
| `Preorder.TraversalVisitsAll` | crdt_editor/src/document.cpp:11-21 | the visit from the root meets every element |
| `Places.TraversalIsDistinct` | crdt_editor/src/document.cpp:11-21 | the visit meets no element twice |
| `Places.DescendantsAreABlock` | crdt_editor/src/document.cpp:11-21 | the descendants of a node are exactly one contiguous block of the traversal |
| `Places.RunsDoNotInterleave` | crdt_editor/src/document.cpp:485-492 | everything below the sibling with the greater identifier comes before everything below the other, so concurrent runs never interleave |
| `Places.ClimbFinds` | crdt_editor/src/document.cpp:105-121 | climbing one level either finds the next node of the traversal or shows that the subtree of the parent ends there too |
| `Places.DescentFinds` | crdt_editor/src/document.cpp:157-164 | a last descendant that ends where a node starts is the node before it |
| `Growth.MoreOperationsExtend` | crdt_editor/src/document.cpp:462-510 | whatever arrives, no element disappears, changes its parent or its character, and no tombstone is lifted |
| `Growth.OrderIsStable` | crdt_editor/src/document.cpp:11-21 | the new traversal restricted to the old elements is the old traversal |
| `Growth.FreshInsertAddsLeaf` | crdt_editor/src/document.cpp:462-499 | an insert with an identifier nobody mentioned adds one leaf and releases nothing |
| `Growth.LeafFollowsParent` | crdt_editor/src/document.cpp:485-492 | a new leaf with the greatest identifier among its siblings comes directly after its parent in the traversal |
| `VisibleText.VisibleMembers` | crdt_editor/src/document.cpp:11-21 | the visible sequence holds each element that is neither the root nor deleted, once |
| `VisibleText.AnchorsAreGaps` | crdt_editor/src/document.cpp:347-375 | the root and the visible elements correspond one to one to the gaps of the visible text |
| `VisibleText.StepsMoveOneGap` | crdt_editor/src/document.cpp:90-137 | the visible neighbours of an anchor are one gap away, and stepping right and left again returns |
| `VisibleText.GapAfterNext` | crdt_editor/src/document.cpp:90-123 | moving to the next node of the traversal passes no visible element |
| `VisibleText.GapBeforePrevious` | crdt_editor/src/document.cpp:125-165 | moving to the previous node of the traversal passes no visible element |
| `VisibleText.PositionsAreAnchors` | crdt_editor/src/document.cpp:229-267 | anchors and positions within the lines of the text are mutually inverse, and a position outside them has no anchor |
| `VisibleText.ResolvedIsAnchored` | crdt_editor/src/document.cpp:308-345 | every present anchor resolves to the root or a visible element, and only absent ones do not resolve |
| `VisibleText.PredecessorIsNearest` | crdt_editor/src/document.cpp:125-137 | the visible predecessor of a node is the last visible element before it in the traversal, or the root |
| `VisibleText.ResolvedIsNearest` | crdt_editor/src/document.cpp:308-345 | an anchor in place resolves to itself, a deleted one to the last visible element before it in the traversal |
| `VisibleText.RangeBetweenAnchors` | crdt_editor/src/document.cpp:421-446 | the range between two anchors in order is the visible text between them |
| `VisibleText.RangeToMissingEnd` | crdt_editor/src/document.cpp:421-446 | with an end that is not visible the range runs to the end of the document |
| `VisibleText.OtherRanges` | crdt_editor/src/document.cpp:421-446 | a range from a start that is not in the text is empty, and one whose end stands before its start runs to the end of the document |
| `VisibleText.TypedCharacterLands` | crdt_editor/src/document.cpp:462-499 | the visible sequence and text gain the new character directly after the anchor and nothing else changes |
| `VisibleText.BuriedElementDisappears` | crdt_editor/src/document.cpp:536-543 | a tombstone hides one element and moves no other |
| `Lines.LinesJoin` | crdt_editor/src/document.cpp:408-419 | the lines of a text hold no newline and joined by newlines give the text back |
| `Lines.PlaceToPosition` | crdt_editor/src/document.cpp:173-200 | the counters after any prefix name a position of the grid of lines, whose offset is the length of the prefix |
| `Lines.PositionToPlace` | crdt_editor/src/document.cpp:229-267 | every position of the grid of lines is the counters' value after the prefix its offset names |
| `Lines.PlaceFound` | crdt_editor/src/document.cpp:229-267 | the scan stops at a place exactly when the asked position is the position of that place |
| `Documents.Document.VisitVisible` | crdt_editor/src/document.cpp:11-21 | the recursive visit terminates and yields the undeleted part of the node's block of the traversal |
| `Documents.Document.Render` | crdt_editor/src/document.cpp:3-9 | rendering gives the characters of the visible elements in traversal order |
| `Documents.Document.Successor` | crdt_editor/src/document.cpp:98-123 | the pointer walk finds the next node of the traversal, or none at its end, and throws only for an absent node |
| `Documents.Document.Predecessor` | crdt_editor/src/document.cpp:139-165 | the pointer walk finds the previous node of the traversal and throws only for the root or an absent node |
| `Documents.Document.VisibleSuccessorOf` | crdt_editor/src/document.cpp:90-96 | skipping tombstones finds the next visible element, or none after the last |
| `Documents.Document.VisiblePredecessorOf` | crdt_editor/src/document.cpp:125-137 | skipping tombstones finds the visible element before a node, or the root |
| `Documents.Document.GetLineColumn` | crdt_editor/src/document.cpp:173-200 | the line and column just before a visible element; any other element throws |
| `Documents.Document.GetElementAt` | crdt_editor/src/document.cpp:202-227 | the visible element that starts at a position, if there is one |
| `Documents.Document.GetAnchorAt` | crdt_editor/src/document.cpp:229-267 | the anchor of a position, none exactly when the position is outside the lines of the text |
| `Documents.Document.GetLineCount` | crdt_editor/src/document.cpp:408-419 | the number of lines of the rendered text |
| `Documents.Document.GetLineLength` | crdt_editor/src/document.cpp:273-306 | the length of a line of the rendered text, none past the last line |
| `Documents.Document.GetMaxLineLength` | crdt_editor/src/document.cpp:377-394 | the length of the longest line of the rendered text |
| `Documents.Document.ClampPosition` | crdt_editor/src/document.cpp:396-406 | the nearest line and then the nearest column; the result always has an anchor |
| `Documents.Document.GetCursorPosition` | crdt_editor/src/document.cpp:347-375 | the position of an anchor; it throws exactly for what is neither the root nor visible |
| `Documents.Document.ResolveCursorAnchor` | crdt_editor/src/document.cpp:308-345 | the anchor itself or the visible element before it, none exactly when it is absent; the fallback branches are never taken |
| `Documents.Document.GetVisibleRange` | crdt_editor/src/document.cpp:421-446 | the visible elements after the start through the end, to the end of the text when the end is not met |
| `Cursors.IdGenerator.Next` | crdt_editor/crdt/id_generator.cpp:6-8 | the next identifier carries the incremented clock and the generator's own name |
| `Cursors.IdGenerator.SyncClock` | crdt_editor/crdt/id_generator.cpp:10-12 | the clock becomes the greater of its value and the one received |
| `Cursors.Cursor.UpdateOnDelete` | crdt_editor/editor/cursor.cpp:16-25 | the cursor leaves a removed anchor for the visible element before it, and throws only for an anchor the document never had |
| `Cursors.Cursor.UpdateOnInsert` | crdt_editor/editor/cursor.cpp:10-14 | the cursor follows an insert at its anchor |
| `Cursors.Cursor.Update` | crdt_editor/editor/cursor.cpp:46-55 | a local operation moves the cursor as the state machine says |
| `Cursors.Cursor.UpdateOnRemote` | crdt_editor/editor/cursor.cpp:27-35 | a remote insert never moves the cursor, a remote removal of its anchor does |
| `Cursors.Cursor.UpdateDesiredColumn` | crdt_editor/editor/cursor.cpp:41-44 | the desired column becomes the cursor's own; it throws exactly when the anchor has no position |
| `Cursors.Cursor.SetPosition` | crdt_editor/editor/cursor.cpp:72-76 | the cursor moves and takes its new column; an anchor that is not in the text throws after the move |
| `Cursors.Cursor.NormalizedRange` | crdt_editor/editor/cursor.cpp:99-130 | the selection's two ends in the order the visit meets them, with the root first |
| `InputHandlers.InputHandler.InsertTyped` | crdt_editor/editor/input_handler.cpp:3-14 | one insert under the anchor with the next identifier, the selection cleared and the cursor on the new element |
| `InputHandlers.InputHandler.MoveLeftImpl` | crdt_editor/editor/input_handler.cpp:16-22 | the cursor moves to the visible predecessor and its position is defined |
| `InputHandlers.InputHandler.MoveRightImpl` | crdt_editor/editor/input_handler.cpp:24-33 | the cursor moves to the visible successor if there is one and its position is defined |
| `InputHandlers.InputHandler.MoveUpImpl` | crdt_editor/editor/input_handler.cpp:62-88 | the cursor goes to the line above at the desired column, and stays on the first line |
| `InputHandlers.InputHandler.MoveDownImpl` | crdt_editor/editor/input_handler.cpp:91-118 | the cursor goes to the line below at the desired column, and stays on the last line |
| `InputHandlers.InputHandler.DeleteSelection` | crdt_editor/editor/input_handler.cpp:176-198 | one removal for each element of the selected range, the selection cleared and the cursor before its first element |
| `InputHandlers.InputHandler.BackspacePressed` | crdt_editor/editor/input_handler.cpp:35-45 | a removal of the anchor, or of the selection, with the cursor moved back |
| `InputHandlers.InputHandler.DeletePressed` | crdt_editor/editor/input_handler.cpp:47-60 | a removal of the visible successor, or of the selection |
| `InputHandlers.InputHandler.ProcessCommand` | crdt_editor/editor/input_handler.cpp:200-232 | every command has exactly the effect of the state machine on cursor, clock and operations; a refused one changes nothing |
| `Commands.MovesStayAnchored` | crdt_editor/editor/input_handler.cpp:16-118 | every movement leaves the cursor at the root or on a visible element |
| `Commands.SidewaysMoves` | crdt_editor/editor/input_handler.cpp:16-33 | a sideways move crosses exactly one visible character and stops at the ends |
| `Commands.LineMoveLands` | crdt_editor/editor/input_handler.cpp:62-118 | a vertical move lands on the asked line at the desired column, or at the line's end, and remembers that column |
| `Commands.LineMovesReturn` | crdt_editor/network/editor_session.cpp:4-18 | a vertical command and its opposite return to the same anchor exactly when the column aimed at, cut to the lines passed, is the column left: always without shift for a cursor that aims at its own column, with shift exactly when the other line is long enough |
| `Selections.ShiftMoveSelects` | crdt_editor/editor/input_handler.cpp:147-198 | deleting right after a move with shift takes away exactly the text between the fixed end and the place the move led to |
| `Selections.PlainMoveDeselects` | crdt_editor/editor/input_handler.cpp:35-145 | after a plain move nothing is selected: backspace and delete take away only the character next to the place the move led to |
| `Commands.SelectionInOrder` | crdt_editor/editor/cursor.cpp:99-130 | a selection with both ends in place is ordered by where its ends stand in the text |
| `Commands.SelectionIsDeleted` | crdt_editor/editor/input_handler.cpp:176-198 | once its operations are applied, deleting a selection removes exactly the text between its ends, whichever end the cursor is at, and leaves the cursor on the earlier end |
| `Selections.SelectionDeletionIsExact` | crdt_editor/editor/input_handler.cpp:176-198 | deleting a selection removes exactly the text between the cursor and the visible place of the fixed end if and only if that end is still visible or stands for the end of the document; otherwise everything from the cursor on is lost |
| `Selections.DeletedSpan` | crdt_editor/src/document.cpp:421-446 | the elements picked for deletion are those of the span between cursor and fixed end under exactly the same condition |
| `Selections.StaleEndDeletesTheRest` | crdt_editor/network/editor_session.cpp:4-98 | in any session with the cursor inside the text: select the character before the cursor, receive its removal by someone else, press backspace, and all text after the cursor is gone |
| `Selections.StaleEndHappens` | crdt_editor/network/editor_session.cpp:4-18 | two typed characters and one step left lead a fresh session to such a state |
| `Commands.BackspaceRemovesBefore` | crdt_editor/editor/input_handler.cpp:35-45 | backspace removes the one visible character before the cursor, which steps back; at the start no text changes |
| `Commands.DeleteForwardRemovesAfter` | crdt_editor/editor/input_handler.cpp:47-60 | delete removes the one visible character after the cursor, which stays; at the end nothing changes |
| `Commands.Removals` | crdt_editor/network/editor_session.cpp:8-13 | performing removals of present elements hides exactly those and keeps the session valid |
| `PlainEditors.CommandIsPlain` | crdt_editor/network/editor_session.cpp:4-18 | in every valid session every command has the effect on text, cursor, selection and desired column that it has in a plain editor that shows the same text |
| `PlainEditors.FreshSessionIsPlain` | crdt_editor/network/editor_session.cpp:4-18 | after any commands of a client that has heard of no one else, text, cursor, selection and desired column are those of a plain editor that began empty |
| `PlainEditors.AimsAtOwnColumn` | crdt_editor/network/editor_session.cpp:14-16 | after every accepted command other than a plain vertical move the desired column is the column of the cursor |
| `PlainEditors.MarkIsLostExactly` | crdt_editor/editor/input_handler.cpp:35-45 | the fixed end of a selection is lost exactly when Backspace takes away the character it stands at, where it selects nothing, and stays lost while the user moves with shift |
| `PlainEditors.CollapsedSelectionDeletesTheRest` | crdt_editor/editor/input_handler.cpp:35-45 | in any session with nothing selected and the cursor inside the text, a step right and left with shift and two Backspaces delete everything after the cursor |
| `PlainEditors.DeletionSends` | crdt_editor/network/editor_session.cpp:8-13 | a deletion sends one removal for each character it takes away, in the order of the text, and at the start of the document Backspace sends a removal of the root |
| `Commands.CommandKeeps` | crdt_editor/network/editor_session.cpp:4-18 | every command keeps the session valid, issues only fresh inserts at the anchor and removals of present elements, and is refused only for the zero character |
| `SessionFacts.AnchorSurvives` | crdt_editor/editor/cursor.cpp:16-55 | the local anchor stays at the root or on a visible element through any remote operation and any removal |
| `SessionFacts.RemotesSurvive` | crdt_editor/network/editor_session.cpp:135-153 | every remote cursor stays at a present element through any operation |
| `SessionFacts.RemovalKeepsPlace` | crdt_editor/network/editor_session.cpp:135-153 | a cursor that leaves a removed element goes exactly where it was drawn, and no cursor is left on the removed element |
| `SessionFacts.FreshIsUnheard` | crdt_editor/crdt/id_generator.cpp:6-12 | the identifier issued next is named by no operation received |
| `SessionFacts.FreshIsGreatest` | crdt_editor/crdt/id_generator.cpp:6-12 | the identifier issued next exceeds its parent's clock and every sibling |
| `SessionFacts.TypingLandsAtCursor` | crdt_editor/editor/input_handler.cpp:3-14 | the text gains the typed character right after the anchor and the cursor's gap moves by one |
| `Typing.TypedCommandLands` | crdt_editor/editor/input_handler.cpp:3-14 | a typed character, Enter included, lands right after the anchor, and nothing else moves |
| `Typing.TypedStringLands` | crdt_editor/editor/input_handler.cpp:3-14 | a typed string lands in the text as it was typed, right at the cursor, which ends up behind it |
| `Typing.TypingIsAChain` | crdt_editor/editor/input_handler.cpp:3-14 | whatever messages arrive meanwhile, characters typed in a row form a chain below the place where typing began, unless one of the messages removes the character just typed |
| `Typing.IssuedIsQueued` | crdt_editor/network/editor_session.cpp:4-18 | the session has received and queued for the server every insert it issued, and loses nothing it had |
| `Typing.ChainIsInOrder` | crdt_editor/src/document.cpp:485-492 | in every tree that represents a chain its visible elements stand in the order of the chain |
| `Typing.ChainsStayApart` | crdt_editor/src/document.cpp:485-492 | in every tree that represents two chains below one place, all visible elements of the one with the greater first identifier come before all of the other |
| `Typing.ConcurrentTypingStaysApart` | crdt_editor/src/document.cpp:485-492 | what two sessions type at the same place, each receiving messages meanwhile, stays apart and in order in the text of every session that received both |
| `SessionFacts.ReceiveKeeps` | crdt_editor/network/editor_session.cpp:59-98 | every message keeps the session valid and takes in exactly the operations it carries, and afterwards no waiting cursor could be shown |
| `SessionFacts.ReceiveLeaves` | crdt_editor/network/editor_session.cpp:59-98 | a message changes no selection and no desired column, moves the local cursor only with the first removal of its anchor, and a remote cursor only with the first removal of its anchor, its client's own update, or the arrival of what a waiting update waited for |
| `SessionFacts.CursorUpdateIsShown` | crdt_editor/network/editor_session.cpp:20-31 | a received update with a present anchor replaces whatever was shown of its client, one with an absent anchor waits, and no other cursor is touched |
| `SessionFacts.ReceiveTracks` | crdt_editor/network/editor_session.cpp:20-31 | one received message keeps a waiting cursor update its client's newest one, and every client that is not waiting shown at its newest position unless that was removed since |
| `SessionSteps.NewestUpdateWins` | crdt_editor/network/editor_session.cpp:20-31 | over any run of commands, cursor shares and received messages from a fresh session, a waiting cursor update is its client's newest, every other client heard of, and no one else, is shown, at its newest position unless that was removed since, and an update that stops waiting is shown at its client's newest position |
| `SessionFacts.RestartIsExact` | crdt_editor/network/editor_session.cpp:44-57 | a fresh session that loads a document is sound exactly when every identifier of its own name in the history is one its clock has now reached |
| `SessionFacts.RestartIsSound` | crdt_editor/crdt/id_generator.cpp:6-12 | after loading a history that accounts for what it names, a session under any name is sound and next issues an identifier the history does not name |
| `SessionFacts.SettleTracks` | crdt_editor/network/editor_session.cpp:155-168 | a waiting update that becomes a remote cursor is its client's newest one |
| `SessionSteps.DuplicateByText` | crdt_editor/network/editor_session.cpp:115-120 | whatever the session's own name holds, comparing texts detects exactly the duplicate operations |
| `SessionSteps.CommandReady` | crdt_editor/network/editor_session.cpp:8-13 | each operation of a command can be applied when its turn comes, with every cursor it moves in place |
| `Sessions.OperationLog.Record` | crdt_editor/src/operation_log.cpp:7-13 | an operation is appended exactly when none with its text was recorded, and no text is recorded twice |
| `Sessions.EditorSession.ApplyOperation` | crdt_editor/network/editor_session.cpp:114-133 | a duplicate changes nothing; a new operation is logged, applied, and followed by the local and the remote cursors |
| `Sessions.EditorSession.UpdateRemoteCursors` | crdt_editor/network/editor_session.cpp:135-153 | exactly the remote cursors at a removed element step back |
| `Sessions.EditorSession.ReceiveOperation` | crdt_editor/network/editor_session.cpp:62-73 | the clock is advanced before the operation is applied, and the session stays valid |
| `Sessions.EditorSession.ApplyHistory` | crdt_editor/network/editor_session.cpp:44-57 | a history is taken in operation by operation and the waiting cursors are settled once |
| `Sessions.EditorSession.UpdatePendingCursorUpdates` | crdt_editor/network/editor_session.cpp:155-168 | exactly the waiting updates whose anchor is present become remote cursors, and none is left that could |
| `Sessions.EditorSession.ReceiveCursorUpdate` | crdt_editor/network/editor_session.cpp:20-31 | an update is shown or waits, and replaces an older waiting one either way |
| `Sessions.EditorSession.QueueCursorUpdate` | crdt_editor/network/editor_session.cpp:108-112 | one message with the current anchor is queued and nothing else changes |
| `Sessions.EditorSession.Apply` | crdt_editor/network/editor_session.cpp:59-98 | every message from an honest sender is one step of the state machine, never throws and keeps the session valid |
| `Sessions.EditorSession.FlushIncoming` | crdt_editor/network/editor_session.cpp:37-42 | a batch is applied in order and the queue is empty afterwards |
| `Sessions.EditorSession.HandleEditorCommand` | crdt_editor/network/editor_session.cpp:4-18 | every command is one step of the state machine and keeps the session valid; a refused one changes nothing |
| `TextCodec.ParsePrinted` | crdt_editor/src/elementID.cpp:20-31 | reading a printed 64-bit number gives the number |
| `TextCodec.TokensOfJoin` | crdt_editor/network/message.cpp:39-44 | splitting undoes joining when no token holds the delimiter |
| `TextCodec.SplitTokens` | crdt_editor/src/operation.cpp:21-25 | the token loop computes the split |
| `OperationCodec.IdRoundTrip` | crdt_editor/src/elementID.cpp:20-31 | reading a written identifier with a 64-bit clock gives it back, whatever its name holds |
| `OperationCodec.Deserialize` | crdt_editor/src/operation.cpp:86-98 | the reader computes the operation or throws as specified |
| `OperationCodec.OperationRoundTrip` | crdt_editor/src/operation.cpp:10-98 | reading a written operation gives it back, the character as its decimal code |
| `OperationCodec.ReadBackOrRefused` | crdt_editor/src/operation.cpp:10-98 | a written operation is read back as itself exactly when its names hold no bar, its clocks fit in 64 bits and its character in a byte, and is refused otherwise; it is never read as another operation |
| `OperationCodec.SerializationIsInjective` | crdt_editor/src/operation.cpp:10-57 | for names without a vertical bar two operations with the same text are equal |
| `OperationCodec.SessionTextsAreInjective` | crdt_editor/src/operation.cpp:10-57 | among removals, inserts read from the wire and a session's own inserts, two operations with the same text are equal, whatever the session's name holds |
| `OperationCodec.BarIsRefused` | crdt_editor/src/operation.cpp:20-72 | an operation that names a site with a vertical bar is refused by every reader |
| `OperationCodec.DeserializedIsClean` | crdt_editor/src/operation.cpp:20-72 | whatever is read can be written and read again, and names no character its text does not hold |
| `Messages.Serialize` | crdt_editor/network/message.cpp:10-36 | the writer produces the specified text for every payload |
| `Messages.Deserialize` | crdt_editor/network/message.cpp:38-106 | the reader computes the message or throws as specified |
| `Messages.MessageRoundTrip` | crdt_editor/network/message.cpp:10-106 | reading a written sendable message gives it back |
| `Messages.RoundTripIsExact` | crdt_editor/network/message.cpp:10-106 | a message is read back as it was written exactly when it is sendable |
| `Messages.SyncRequestIsRefused` | crdt_editor/network/message.cpp:102-104 | a written SYNC_REQUEST is never read back, whatever its sender is called |
| `Messages.ReadMessageIsSendable` | crdt_editor/network/message.cpp:38-106 | whatever is read, of any type, can be written again, and its operations can be stored |
| `Messages.WireRoundTrip` | crdt_editor/network/client_connection.cpp:40-86 | a framed stream of written messages is read back as exactly those messages |
| `WireFormats.PrintIsNumeral` | crdt_editor/src/elementID.cpp:20-22 | a number is written as its decimal digits without leading zeros, and as nothing else |
| `WireFormats.NumberIsRead` | crdt_editor/src/elementID.cpp:24-31 | exactly which texts are read as a number: blanks, a sign, digits below 2^64 and anything after them, a negative number wrapped |
| `WireFormats.IdIsRead` | crdt_editor/src/elementID.cpp:24-31 | exactly which texts are read as an identifier: a number up to the first comma, the site after it |
| `WireFormats.OperationIsWritten` | crdt_editor/src/operation.cpp:10-57 | the text of an operation: its keyword, its identifiers and its character code as numerals, with bars between them |
| `WireFormats.OperationIsRead` | crdt_editor/src/operation.cpp:20-98 | exactly which texts are read as an operation |
| `WireFormats.PlainMessagesAreWritten` | crdt_editor/network/message.cpp:10-36 | the text of a message without payload is its keyword, a newline, the sender and a newline |
| `WireFormats.PayloadsAreWritten` | crdt_editor/network/message.cpp:10-36 | the other messages: the payload follows on the third line, and each operation of a history ends its own |
| `WireFormats.MessageIsRead` | crdt_editor/network/message.cpp:38-106 | exactly which texts are read as a message, line by line |
| `WireFormats.LastNewlineIsSpare` | crdt_editor/network/message.cpp:38-56 | a message without payload is read exactly from the texts that begin with its first two lines; the only shorter text that is read as it lacks just the last newline |
| `Framing.LengthRoundTrip` | crdt_editor/network/framing.cpp:5-19 | decoding an encoded 32-bit length gives it back |
| `Framing.HeaderIsBigEndian` | crdt_editor/network/framing.cpp:5-19 | the header is the length in base 256, most significant byte first, both written and read |
| `Framing.StreamRoundTrip` | crdt_editor/network/client_connection.cpp:40-76 | reading concatenated frames of at most one mebibyte each yields exactly their bodies in order, and then waits |
| `Framing.OversizedFrameStops` | crdt_editor/network/client_connection.cpp:50-54 | an oversized header disconnects the reader after the messages before it |
| `Framing.ReadingGoesOn` | crdt_editor/network/client_connection.cpp:40-76 | however the bytes are cut on their way, reading goes on where it stopped, and a reader that has hung up delivers nothing more |
| `Framing.PartOfAStreamIsWaitedFor` | crdt_editor/network/client_connection.cpp:61-76 | no beginning of a stream of frames of at most one mebibyte makes the reader hang up; it delivers complete messages and waits |
| `Framing.ReadingIsExact` | crdt_editor/network/client_connection.cpp:40-76 | what is delivered and where the reader stops are settled by the bytes: they are the frames of the messages followed by an oversized header or the beginning of a frame |
| `ServerFacts.RegistryKept` | crdt_editor/network/server.cpp:12-107 | whatever message arrives on whatever open connection, the registry stays consistent |
| `ServerFacts.LookupsSucceed` | crdt_editor/network/server.cpp:172-179 | a live client always has a presence entry and a document, a syncing one always a waiting list and a document |
| `ServerFacts.DuplicateHelloIsHarmless` | crdt_editor/network/server.cpp:251-257 | a HELLO with a name in use leaves every table and every other connection unchanged and disconnects the newcomer |
| `ServerFacts.CursorReachesOthers` | crdt_editor/network/server.cpp:172-199 | a cursor update of a live client is sent, once and unchanged, to exactly the other live clients of its document, not to its sender, and kept as its presence |
| `ServerFacts.CursorsAreComplete` | crdt_editor/network/server.cpp:201-233 | a client that goes live is told exactly the cursors of the other live clients of its document |
| `ServerFacts.PresenceIsOwn` | crdt_editor/network/server.cpp:172-179 | a presence entry changes only by a cursor update of its own client |
| `ServerFacts.FinishSyncCompletes` | crdt_editor/network/server.cpp:109-142 | going live leaves no operation of the document unheard by anyone |
| `ServerFacts.RouteReachesAll` | crdt_editor/network/server.cpp:270-296 | after routing, each connection on the document knows the operation, live or waiting, and any other learns nothing of it |
| `ServerFacts.LeftBehind` | crdt_editor/network/server.cpp:12-107 | for each connection, whatever arrives and whatever happens on other documents: it goes on having heard exactly its document's operations, unless the message is an operation new to the log for which this very document is blocked, sent by another on it, and then it has not |
| `ServerFacts.NoGapKept` | crdt_editor/network/server.cpp:12-107 | a message no document is blocked for leaves no gap anywhere |
| `ServerFacts.RefusedOperationLeavesGap` | crdt_editor/persistance/persistent_document.cpp:14-22 | a message leaves a gap in a document if and only if, before it, that document is blocked for the operation, the operation is new to its log and another connection has it open; traffic on other documents never does |
| `ServerFacts.RefusalIsThrow` | crdt_editor/network/server.cpp:45-56 | the server's document throws on an operation exactly when the state before the call is blocked for it |
| `ServerFacts.RefusedSenderIsDisconnected` | crdt_editor/network/server.cpp:45-106 | the sender of such an operation is cut off although its row is stored and its element is in the document, and no other connection learns of it |
| `ServerFacts.InnocentSenderIsDisconnected` | crdt_editor/network/server.cpp:45-106 | with the four operations of `FourthInsertThrows` the sender of the last one, which names no identifier twice, is disconnected |
| `ServerFacts.RefusedIsReused` | crdt_editor/network/server.cpp:45-56 | a document is only blocked for an operation when the log uses some identifier for two inserts |
| `ServerFacts.StoredKept` | crdt_editor/network/server.cpp:12-107 | whatever arrives, every document stays well formed against its log, and settled by it while the log reuses no identifier |
| `ServerFacts.LogsGrow` | crdt_editor/network/server.cpp:45-56 | no step loses a row |
| `ServerFacts.RegistryOverRuns` | crdt_editor/network/server.cpp:12-160 | in every state of every server run, over arbitrary texts and disconnections, the registry is consistent and every document fits its log |
| `ServerFacts.NoGapUntilRefused` | crdt_editor/network/server.cpp:109-316 | in every state of a run in which no event so far left a gap in a document, each connection with it open has been told, will be told or has said exactly its operations |
| `ServerFacts.NoGapOverRuns` | crdt_editor/network/server.cpp:109-316 | the same in every state in which the document's own log has reused no identifier, whatever happens on other documents |
| `ServerFacts.NoGapAnywhere` | crdt_editor/network/server.cpp:109-316 | where no log has reused an identifier, there is no gap on any document |
| `ServerProtocol.MessageIsAccepted` | crdt_editor/network/server.cpp:12-107 | a message costs its sender the connection exactly when it is not the one its phase calls for, and otherwise leads to the next phase; a refused one changes no other connection |
| `ServerProtocol.TextIsAccepted` | crdt_editor/network/server.cpp:12-107 | the same for texts, readable or not |
| `ServerProtocol.SenderIsAnswered` | crdt_editor/network/server.cpp:109-142 | the answer to each accepted message: to the end of a synchronisation, each waiting operation in the order it waited and then each other live client's cursor once |
| `ServerProtocol.TablesFollow` | crdt_editor/network/server.cpp:144-199 | who is registered and where each cursor was last seen, after any message |
| `ServerProtocol.OperationsArriveInOrder` | crdt_editor/network/server.cpp:270-296 | in every state of every run, the operations a connection has been sent and those waiting for it are exactly those accepted from others on its document while it was open there, in the order the server handled them |
| `ServerRuns.InnocentSenderExists` | crdt_editor/network/server.cpp:45-106 | from an empty database, a run of texts leads to a live client whose first operation, an insert with an identifier no other insert has, gets it disconnected and leaves a gap |
| `ServerClasses.ClientConnection.SendMessage` | crdt_editor/network/client_connection.cpp:28-37 | a message is queued unless the connection is unregistered or closed |
| `ServerClasses.ClientConnection.Written` | crdt_editor/network/client_connection.cpp:88-102 | writing takes the front of the queue and nothing else |
| `ServerClasses.ClientConnection.Close` | crdt_editor/network/client_connection.cpp:104-126 | closing marks the connection and empties its queue |
| `ServerClasses.DocumentStore.CreateDocument` | crdt_editor/persistance/document_store.cpp:21-33 | a new document starts with an empty log and disturbs no other; it is refused exactly when the document exists |
| `ServerClasses.DocumentStore.ApplyTo` | crdt_editor/persistance/persistent_document.cpp:14-22 | one log gains the operation and its document the state the value semantics says, also when it throws; every other document and its rows are unchanged |
| `ServerClasses.DocumentStore.HistoryOf` | crdt_editor/network/server.cpp:305-310 | the history has exactly the operations of the document's log; document and log are created when missing |
| `SyncServers.SyncServer.AcceptClient` | crdt_editor/network/server.cpp:237-249 | a new connection is unregistered and no table changes |
| `SyncServers.SyncServer.DisconnectClient` | crdt_editor/network/client_connection.cpp:104-126 | the connection is closed and its client forgotten if it is the one registered |
| `SyncServers.SyncServer.UnregisterClient` | crdt_editor/network/server.cpp:144-160 | the three tables lose the client exactly when it is registered by this very connection |
| `SyncServers.SyncServer.HandleHello` | crdt_editor/network/server.cpp:16-32 | registration or disconnection, as the state machine says |
| `SyncServers.SyncServer.OpenDocument` | crdt_editor/network/server.cpp:76-97 | the document is opened, its history sent, or the client disconnected, as the state machine says |
| `SyncServers.SyncServer.HandleOperation` | crdt_editor/network/server.cpp:34-56 | the operation is recorded, applied and routed, or its sender disconnected, before or after the document throws, as the state machine says |
| `SyncServers.SyncServer.RouteMessage` | crdt_editor/network/server.cpp:270-296 | the loop over the clients reaches exactly the others on the document: live ones now, syncing ones in their waiting lists |
| `SyncServers.SyncServer.RouteCursorUpdate` | crdt_editor/network/server.cpp:172-199 | the presence entry is replaced and exactly the other live clients on the document are told |
| `SyncServers.SyncServer.FinishSync` | crdt_editor/network/server.cpp:109-142 | the waiting operations are sent in order, the client goes live, and the cursors of the others follow |
| `SyncServers.SyncServer.SendPresence` | crdt_editor/network/server.cpp:201-233 | exactly the cursors of the other live clients on the document are sent, each once |
| `SyncServers.SyncServer.ReceiveMessage` | crdt_editor/network/server.cpp:12-107 | any text on any open connection is one step of the server's state machine and keeps the registry |
| `SyncServers.SyncServer.ValidIsStored` | crdt_editor/network/server.cpp:45-56 | the documents the server object holds fit their logs, so the results about stored documents hold of it |
| `SyncServers.SyncServer.DropConnection` | crdt_editor/network/client_connection.cpp:104-126 | the end of a connection is one step of the server's state machine and keeps the registry |
| `Persistence.RowsDetermineOperations` | crdt_editor/persistance/persistance_log.cpp:9-26 | the rows of a document determine its operations |
| `Persistence.InsertedRow` | crdt_editor/persistance/sqlite_database.cpp:40-83 | inserting or ignoring a row stores exactly one more operation, and is ignored exactly for a duplicate |
| `Persistence.Database.InsertOperation` | crdt_editor/persistance/sqlite_database.cpp:40-83 | a row is added unless its key is taken; only an unknown document throws |
| `Persistence.Database.GetOperations` | crdt_editor/persistance/sqlite_database.cpp:224-258 | every row of the document is returned once, in any order |
| `Persistence.PersistentOperationLog.Record` | crdt_editor/persistance/persistance_log.cpp:21-33 | the log holds one more operation and other documents keep their rows |
| `Persistence.PersistentOperationLog.Load` | crdt_editor/persistance/persistance_log.cpp:9-19 | loading returns exactly the recorded operations and never throws |
| `Persistence.PersistentDocument.ApplyOperation` | crdt_editor/persistance/persistent_document.cpp:14-22 | the row is written and the document takes any operation as the value semantics says; it throws exactly when the document is blocked, and the row stays |
| `Persistence.PersistentDocument.GetHistory` | crdt_editor/persistance/persistent_document.cpp:24-26 | the history has exactly the operations the document received |
| `Persistence.PersistentDocument.Load` | crdt_editor/persistance/persistent_document.cpp:28-37 | replaying the rows in whatever order they come throws exactly when some call of that order is blocked, and otherwise rebuilds a document of exactly the stored operations; rows that reuse no identifier always load |
| `Persistence.ReloadMatchesLive` | crdt_editor/persistance/persistent_document.cpp:14-37 | a reloaded document has the live document's tree and text, the same buffered identifiers and deletes, and the same waiting lists up to their order |
| `Persistence.FreshSessionMatchesLive` | crdt_editor/network/editor_session.cpp:44-57 | a fresh session that applies the stored history, whatever names it mentions, renders the live document's text |
| `CollaborationFacts.IssuedIdIsNew` | crdt_editor/crdt/id_generator.cpp:6-12 | an identifier issued by a client is named by no operation anywhere in the system and exceeds its parent's clock |
| `CollaborationFacts.InboxIsTrusted` | crdt_editor/network/editor_session.cpp:59-98 | whatever the server sends an honest client names no identifier the client could issue again |
| `CollaborationFacts.CommandStepKeeps` | crdt_editor/network/editor_session.cpp:4-18 | a command of any client keeps every invariant of the system |
| `CollaborationFacts.ClientTurnKeeps` | crdt_editor/network/editor_session.cpp:59-98 | a text reaching a client, or one too large for a frame, keeps every invariant of the system |
| `CollaborationFacts.ServerTurnKeeps` | crdt_editor/network/server.cpp:12-107 | a text reaching the server, or one too large for a frame, keeps every invariant of the system |
| `CollaborationFacts.OutboxReads` | crdt_editor/network/server.cpp:12-15 | every text an honest client has under way is read by the server as the message that was written |
| `CollaborationFacts.InboxReads` | crdt_editor/network/network_client.cpp:264-268 | every text the server has under way is read by the client as the message that was written |
| `CollaborationFacts.ClockStaysBounded` | crdt_editor/crdt/id_generator.cpp:6-12 | no received message takes a client's clock beyond 64 bits |
| `CollaborationFacts.NeverBlocked` | crdt_editor/network/server.cpp:45-56 | no document of the server ever throws on an operation of an honest client |
| `CollaborationTheorems.StepKeeps` | crdt_editor/network/server.cpp:12-107 | every step an honest system can take keeps every invariant |
| `CollaborationTheorems.GoodForever` | crdt_editor/network/server.cpp:12-107 | every state along an honest run satisfies every invariant |
| `CollaborationTheorems.UniqueHeapOrderedIds` | crdt_editor/crdt/id_generator.cpp:6-12 | in every reachable state inserts have unique identifiers, never the root's, each above its parent's clock, and a client's clock bounds what it received |
| `CollaborationTheorems.CursorsStayValid` | crdt_editor/network/editor_session.cpp:114-168 | in every reachable state the local anchor is at the root or visible, every remote cursor resolves to such an anchor, and no waiting one does |
| `CollaborationTheorems.TypedTextLands` | crdt_editor/editor/input_handler.cpp:3-14 | in every reachable state a typed character or newline appears directly after the cursor anchor and the cursor moves behind it |
| `CollaborationTheorems.HonestIsNeverRefused` | crdt_editor/network/server.cpp:12-107 | neither the reader nor any state check of the server disconnects an honest client: a turn ends its connection if and only if the text does not fit in a frame |
| `CollaborationTheorems.ServerIsNeverRefused` | crdt_editor/network/network_client.cpp:201-232 | a client's reader refuses a text of the server if and only if it does not fit in a frame |
| `CollaborationTheorems.StaysUnlessClosed` | crdt_editor/network/server.cpp:12-107 | a step of anyone ends a client's connection if and only if someone hangs up on it or a text to or from it does not fit in a frame |
| `CollaborationTheorems.BarredNameIsCutOff` | crdt_editor/network/server.cpp:12-107 | the server disconnects a client whose name holds a bar at its first typed character |
| `CollaborationTheorems.OnlyLeavingDisconnects` | crdt_editor/network/server.cpp:34-74 | however long an honest system goes on, a connection lasts as long as nobody hangs up and every text to and from it fits in a frame |
| `CollaborationTheorems.ReachedIsGood` | crdt_editor/network/server.cpp:12-107 | every state an honest run leads to satisfies every invariant of server, channels, sessions and identifiers |
| `CollaborationTheorems.NothingGetsStuck` | crdt_editor/network/server.cpp:12-107 | in every reachable state a text under way to or from a connected client can be taken, and taking it keeps the connection if and only if it fits in a frame |
| `CollaborationTheorems.AtRestHasTheLog` | crdt_editor/network/server.cpp:109-142 | a client with empty channels and nothing waiting has received exactly its document's log |
| `CollaborationTheorems.EndToEndConvergence` | crdt_editor/network/server.cpp:270-316 | in every reachable state, clients at rest on a document have the same tree and text, and these are the server's own document's |
| `CollaborationTheorems.ServerHoldsTheTree` | crdt_editor/network/server.cpp:45-56 | the document the server holds is the tree of its log |
| `CollaborationRuns.ServerTurnLeavesLess` | crdt_editor/network/server.cpp:12-107 | a turn of the server leaves its client less to send and no other client more |
| `CollaborationRuns.ClientTurnLeavesLess` | crdt_editor/network/editor_session.cpp:59-98 | a turn of a client leaves it less to read and nobody more to send or to read |
| `CollaborationRuns.EveryoneComesToRest` | crdt_editor/network/server.cpp:109-316 | from every reachable state finitely many turns, with nobody typing, lead to one where every client is at rest, except those whose connection a text too large for a frame ended |
| `CollaborationRuns.EveryoneAgrees` | crdt_editor/network/server.cpp:270-316 | and there every client with a document open has the tree and the text of the server's own |
| `CollaborationRuns.LargeDocumentEndsConnection` | crdt_editor/network/network_client.cpp:205-210 | a document with more than 524288 operations cannot be opened: the answer ends the connection |
| `CollaborationRuns.LargeDocumentArises` | crdt_editor/network/network_client.cpp:205-210 | an honest past and four steps lead to a client about to open such a document |
| `CollaborationRestarts.LogsStayGrounded` | crdt_editor/network/server.cpp:45-56 | along an honest run every log keeps accounting for each identifier its operations name, and every queued operation names only what its session had heard or queued |
| `CollaborationRestarts.NamesCanReturn` | crdt_editor/app/main.cpp:41-50 | in every such state a fresh session under any name, also one used before, is sound after loading a document and next issues an identifier no operation of the document names |
| `CollaborationRestarts.PastStaysHonest` | crdt_editor/persistance/document_store.cpp:53-66 | what an honest run leaves in the database is an honest past for the next run of the server, however the documents are rebuilt |

## Left out

- Sockets, asynchronous callbacks, buffer lifetimes and the reconnection logic of `network_client.cpp`: a connection is two ordered queues of texts, and a client that has gone comes back, if at all, as a fresh session.
- The phase checks of `network_client.cpp` on what the server sends: the order of the server's messages they ask for is part of the invariant of `collaboration.dfy`.
- Threads: one event loop handles the server's messages, and the thread-safe queue is an atomic queue.
- Frames inside the whole-system model: channels hold one text per frame, as `Framing.StreamRoundTrip` and `Messages.WireRoundTrip` justify, and a text larger than a frame ends the connection.
- SQLite and SHA-256: the database is a table of rows with its key and its reference to the documents, the digest an injective function; text with embedded zero bytes, which the C interface would cut, is not modelled.
- Removing and listing documents, and the loop that loads all documents when the server starts: `Persistence.PersistentDocument.Load` models the load of one.
- Overflow of the clock at 2^64: clocks are naturals except in the text form, and `unsigned long` is taken to have 64 bits where a character code is read.
- Characters beyond one byte, which a `char` cannot hold.
- Client names that hold a newline: the whole-system model excludes them, and what the server makes of the cut HELLO is not described.
- Widgets, painting, mouse dragging, the viewport, console and error output, debug printing, hashing of identifiers, the string helpers of the operation log, and `FakeNetwork`, whose bodies are commented out.
- Sessions.EditorSession.Apply: asks for a message of an honest sender, one that reuses no identifier and names none this client could issue again, because the session state machine describes the document by the set of operations received; `CollaborationFacts.InboxIsTrusted` shows that a server in an honest system sends no others, and `Documents.Document.Apply` covers the document in every other case.
- Sessions.EditorSession.FlushIncoming: asks the same of each message of the batch.
- Sessions.EditorSession.ReceiveOperation: asks the same of its operation, and that it was read from the wire.
- Sessions.EditorSession.ApplyHistory: asks the same of its operations.
- Persistence.PersistentOperationLog.Record: asks for an operation whose names hold no vertical bar, with 64-bit clocks and a byte as character, because only such rows can be read again; every operation read from the wire is one (`OperationCodec.DeserializedIsClean`).
- Persistence.PersistentDocument.ApplyOperation: asks the same of its operation.
- ServerClasses.DocumentStore.ApplyTo: asks the same of its operation, which the server has read from the wire.
- Sessions.EditorSession.ApplyOperation: asks for an operation that reuses no identifier, and is this session's own, a removal or read from the wire.
