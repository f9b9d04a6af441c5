# Tactical board undo engine, in Dafny

This project models the core of a volleyball tactical board. On the board a
user places numbered player tokens and ball tokens, drags them around, and
draws freehand ink over a court. It has two parts.

- **The undo engine** of the board component. There are two entity lists
  (`players` and `elements`). There is a raster history of canvas snapshots
  with its own cursor (`drawingHistory`, `historyIndex`). There is one
  action log with a cursor (`actionHistory`, `actionHistoryIndex`).
  - Adding or deleting an entity, and ending a stroke, record an entry. Each
    record drops the entries after the cursor, appends one tagged entry and
    moves the cursor onto it.
  - `undo` applies the inverse of the entry under the cursor, then steps the
    cursor back. The inverse filters out an added entity, re-appends a
    removed one, or moves the raster cursor back.
  - There is no redo. Moves and edits are never recorded.
  - `clearCanvas` resets everything.
- **The drop clamp** of the two token components. A dropped token lands at
  its old position plus the drag offset. Each axis is then clamped to
  `max(r, min(v, dim - r))`, where `r` is the token's radius.

Modules, one per concern:

- `Geometry` (geometry.dfy): points, the container size, the clamp.
- `Labels` (labels.dfy): decimal numbers, the default name
  "Jogador {number}", the name-tag width.
- `Entities` (entities.dfy): players, elements, and the `filter`, `map` and
  `find` by id that the board applies to its lists.
- `ActionLog` (action_log.dfy): the tagged entries, `slice(0, end)`, the
  truncate-then-append record step, and the count of `drawing` entries.
- `TacticalBoard` (tactical_board.dfy): the class `Board`, one method per
  board operation.
- `PlayerIcon` (player_icon.dfy) and `VolleyballIcon` (volleyball_icon.dfy):
  the tokens' drop handlers and sizes.
- `UndoScenarios` (undo_scenarios.dfy): operation sequences and what undo
  makes of them.

`Board.Valid()` is the object invariant. It has three parts.

- Both cursors are in range: `-1 <= actionHistoryIndex < |actionHistory|`
  and `0 <= historyIndex < |drawingHistory|`.
- The histories move in lockstep. The raster cursor equals the number of
  `drawing` entries up to the log cursor.
- Every `drawing` entry holds the raster index that its stroke produced.

Every method preserves it. One consequence is that the `historyIndex > 0`
guard in `undo` always holds for a board that started from the mount state.
So undoing a `drawing` entry always rolls back exactly one snapshot.

Inputs that the source reads from the browser are parameters:

- the id (the source builds it from the clock);
- the board's client size (0 stands for both "not mounted" and "zero
  width", which the source treats alike);
- the captured canvas image, as an opaque `Snapshot` token;
- whether a stroke is in progress;
- the container size measured by a token;
- whether the window counts as mobile;
- the measured text width of a name.

The model keeps these behaviours exactly as the code has them:

- The default name is "Jogador {number}".
- Undoing a removal appends the entity at the end of its list. It does not
  return to its old index (`Entities.ReappendMovesToEnd`).
- There is no redo operation.
- Deleting an id removes every entity with that id. Only the first one
  found is recorded.

## Model

| member | source | states |
|---|---|---|
| Geometry.BoundAxis | components/player-icon.tsx:102-103 | the clamped coordinate is at least r; it is at most dim - r when the container fits the token; an in-range target is unchanged; a target below r gives r, one above dim - r gives dim - r; a container narrower than the token gives r |
| Geometry.BoundPoint | components/volleyball-icon.tsx:86-87 | each axis of the result is that axis's clamp (`BoundAxis`: the target when it lies in [r, dim - r], r below that or when the container is narrower than 2r, dim - r above it), against its own dimension; an in-bounds point is returned unchanged |
| Geometry.DropTarget | components/volleyball-icon.tsx:83-84 | the target is the old position moved by exactly the drag offset on each axis |
| Geometry.BoundAxisIdempotent | components/player-icon.tsx:102-103 | clamping twice equals clamping once, on every input including degenerate containers |
| Geometry.BoundPointIdempotent | components/volleyball-icon.tsx:86-87 | the two-axis clamp is idempotent |
| Geometry.BoundPointFixesExactlyInBounds | components/volleyball-icon.tsx:86-87 | when the container fits the token, every result is in bounds, and a point is left unchanged if and only if it is in bounds |
| Geometry.BoundPointAxesIndependent | components/player-icon.tsx:102-103 | x depends only on the target's x and the width; y depends only on the target's y and the height |
| Geometry.BoundAxisMonotone | components/player-icon.tsx:102-103 | a larger target never gives a smaller clamped coordinate |
| Labels.NatToString | components/player-icon.tsx:57 | the decimal form of a number is a non-empty string of digits with no leading zero |
| Labels.IntToString | components/player-icon.tsx:57 | the decimal form starts with '-' exactly when the number is negative, and the rest is a digit string, without a leading zero unless the number is 0, whose value is the number's magnitude |
| Labels.NatToStringRoundTrip | components/player-icon.tsx:57 | reading back the decimal form of n gives n |
| Labels.IntToStringInjective | components/player-icon.tsx:57 | different numbers are written differently |
| Labels.DefaultName | components/tactical-board.tsx:262 | the default name is "Jogador " followed by the number in decimal |
| Labels.DefaultNameInjective | components/tactical-board.tsx:262 | two default names are equal only if their numbers are equal |
| Labels.DisplayName | components/player-icon.tsx:57 | the shown name is never empty; it is the player's name when that is present and non-empty, and the default name otherwise |
| Labels.TagWidth | components/player-icon.tsx:53 | the tag width lies in [40, 120]; it equals measured + 16 when that fits, 40 below and 120 above |
| Labels.TagWidthMonotone | components/player-icon.tsx:53 | a wider text never gets a narrower tag |
| Entities.RemoveById | components/tactical-board.tsx:331 | no entity with the id is left; every entity without the id is still present; when no entity has the id the list is unchanged |
| Entities.RemoveByIdMultiplicity | components/tactical-board.tsx:346 | after the filter, each entity without the id occurs as often as before, and each entity with the id does not occur |
| Entities.ReplaceById | components/tactical-board.tsx:300 | the list keeps its length; each entity with the id is replaced in place by its image, and every other entity is untouched |
| Entities.ReplaceByIdKeepsIds | components/tactical-board.tsx:304 | a position update keeps every entity's id at its index |
| Entities.ReplaceMissingIdIsIdentity | components/tactical-board.tsx:316 | moving or editing an id that no entity has changes nothing |
| Entities.Find | components/tactical-board.tsx:321 | the result is absent exactly when no entity has the id; otherwise it is the first entity with the id |
| Entities.RemoveByIdAppend | components/tactical-board.tsx:451 | filtering by id distributes over concatenation |
| Entities.RemoveFreshAppended | components/tactical-board.tsx:451 | filtering out the id of an entity just appended to a list without that id restores the list exactly |
| Entities.RemoveThenAppendFound | components/tactical-board.tsx:453 | with unique ids, filtering an id out and then appending the entity found for it gives the same entities as a multiset |
| Entities.ReappendMovesToEnd | components/tactical-board.tsx:457 | a removed and re-appended entity ends up last: [a, b] becomes [b, a], which differs from [a, b] |
| ActionLog.SliceTo | components/tactical-board.tsx:270 | `slice(0, end)` gives a prefix; its length is end cut to the length, or the length plus end (at least 0) for a negative end |
| ActionLog.Record | components/tactical-board.tsx:269-274 | the record step ends with the new entry and keeps a prefix of the log before it; from a cursor inside the log it keeps entries 0..cursor and has length cursor + 2 |
| ActionLog.DrawingCountStep | components/tactical-board.tsx:472 | stepping the log cursor back over an entry lowers the `drawing` count by one exactly when that entry is a `drawing` |
| ActionLog.RecordKeepsNumbering | components/tactical-board.tsx:435-440 | recording keeps each `drawing` entry's data equal to its raster index; the `drawing` count then grows by one for a stroke and by nothing for other entries |
| ActionLog.DrawingUndoSteps | components/tactical-board.tsx:458-461 | when the entry under the cursor is a `drawing`, the raster cursor is positive, and one step back matches the count before that entry |
| TacticalBoard.CentreOr200 | components/tactical-board.tsx:264-265 | a new entity is placed at half the board's client size, or at 200 when that size is 0 or the board is absent |
| TacticalBoard.NewPlayer | components/tactical-board.tsx:258-267 | a new player with `count` players present has number count + 1, palette colour count mod 7, the name `Some("Jogador " + decimal(count + 1))`, and the board centre as its position |
| TacticalBoard.NewPlayerColorCycles | components/tactical-board.tsx:261 | player colours repeat every seven players |
| TacticalBoard.NewElement | components/tactical-board.tsx:280-287 | a new element has the given id and type, and the board centre as its position |
| TacticalBoard.Board.constructor | components/tactical-board.tsx:108-110 | the mount state has one snapshot with raster cursor 0, no entities, and an empty log with cursor -1 |
| TacticalBoard.Board.AddPlayer | components/tactical-board.tsx:257-277 | appends the new player and leaves existing players alone; the log keeps entries 0..cursor and appends one `addPlayer` entry; the cursor moves onto it; elements and raster history are unchanged |
| TacticalBoard.Board.AddElement | components/tactical-board.tsx:279-297 | appends the new ball and records one `addElement` entry, in the same way |
| TacticalBoard.Board.HandlePlayerDrag | components/tactical-board.tsx:299-301 | only players with the id get the new position; the log, both cursors, the raster history and the elements are unchanged |
| TacticalBoard.Board.HandleElementDrag | components/tactical-board.tsx:303-305 | only elements with the id get the new position; nothing is recorded |
| TacticalBoard.Board.UpdatePlayer | components/tactical-board.tsx:315-318 | every player with the edited id is replaced by the edited player; nothing is recorded |
| TacticalBoard.Board.DeletePlayer | components/tactical-board.tsx:320-333 | removes every player with the id; records a `removePlayer` entry carrying the first match only if one exists; a missing id leaves the list and the log unchanged |
| TacticalBoard.Board.DeleteElement | components/tactical-board.tsx:335-348 | the same for elements, with a `removeElement` entry |
| TacticalBoard.Board.HandleCanvasMouseUp | components/tactical-board.tsx:413-444 | at the end of a stroke, snapshots after the raster cursor are dropped and one is appended; the raster cursor moves onto it; a `drawing` entry holding that index is recorded; with no stroke in progress nothing changes |
| TacticalBoard.Board.Undo | components/tactical-board.tsx:446-475 | with cursor -1 nothing changes; otherwise an add is undone by filtering its id out, a removal by appending the captured entity, and a `drawing` by moving the raster cursor back by one; the log cursor drops by one; neither history loses an entry |
| TacticalBoard.Board.ClearCanvas | components/tactical-board.tsx:477-501 | leaves one blank snapshot with cursor 0, no players or elements, and an empty log with cursor -1 |
| PlayerIcon.PlayerSize | components/player-icon.tsx:58-59 | the token radius is 14 on mobile and 18 otherwise |
| PlayerIcon.OnDragEnd | components/player-icon.tsx:98-106 | the drop is reported with the player's own id; each coordinate is at least the radius and at most dim - radius when the container fits; a narrower container gives the radius; an in-bounds target (position plus offset) is kept as is; in every case the reported position is the per-axis clamp of position plus offset with radius = player size / 2 |
| PlayerIcon.RedropIsStable | components/player-icon.tsx:102-103 | dropping a token again at its landing point, without moving it, leaves it there |
| PlayerIcon.UnmeasuredContainerPinsToCorner | components/player-icon.tsx:23 | while the container size is still 0 x 0, every drop lands at (radius, radius) |
| VolleyballIcon.BallSize | components/volleyball-icon.tsx:60-61 | the ball radius is 12 on mobile and 15 otherwise |
| VolleyballIcon.OnDragEnd | components/volleyball-icon.tsx:82-90 | the drop is reported with the element's id; the bounds hold per axis, and the narrow-container and in-bounds cases behave as for players; the reported position is the per-axis clamp of position plus offset with radius = ball size / 2 |
| VolleyballIcon.RedropIsStable | components/volleyball-icon.tsx:86-87 | dropping a ball again at its landing point, without moving it, leaves it there |
| VolleyballIcon.DropPastCornerExample | components/volleyball-icon.tsx:86-87 | on a 400 x 300 desktop board a ball aimed at (1000, 1000) lands at (385, 285) |
| VolleyballIcon.UnmeasuredContainerPinsToCorner | components/volleyball-icon.tsx:21 | while the container size is still 0 x 0, every drop lands at (radius, radius) |
| UndoScenarios.AddPlayerThenUndo | components/tactical-board.tsx:446-451 | adding a player with a fresh id and undoing restores the player list exactly, the log entries 0..cursor, the log cursor and the raster history with its cursor |
| UndoScenarios.AddElementThenUndo | components/tactical-board.tsx:454-455 | the same for a ball: the element list, the log entries 0..cursor, both cursors and the raster history come back |
| UndoScenarios.DeletePlayerThenUndo | components/tactical-board.tsx:452-453 | with unique ids, deleting and undoing restores the same players as a multiset, with the restored player last; the elements, the log entries 0..cursor, the log cursor and the raster history with its cursor are unchanged |
| UndoScenarios.DeleteElementThenUndo | components/tactical-board.tsx:456-457 | the same for a ball: the same elements as a multiset, the restored one last, and players, log prefix, cursors and raster history unchanged |
| UndoScenarios.AddPlayersThenUndoAll | components/tactical-board.tsx:446-451 | adding any number of players with fresh, distinct ids and then undoing once per add restores the player list, the log entries 0..cursor, both cursors and the raster history: the add/undo round trip nests |
| UndoScenarios.AddDragUndo | components/tactical-board.tsx:299-301 | add, drag, undo: the player is gone, because the drag was never recorded |
| UndoScenarios.StrokeBallUndoUndo | components/tactical-board.tsx:458-461 | from mount: stroke, add ball, undo twice leaves the blank snapshot current, no ball, and log cursor -1 |
| UndoScenarios.CommitAfterUndoDropsBranch | components/tactical-board.tsx:427-433 | from mount: stroke, undo, stroke drops the first stroke's snapshot for good |

## Left out

- Entities.RemoveById: states which entities remain and how often, but not that they keep their relative order.
- Saving to and loading from local storage (components/tactical-board.tsx:117-184, 442, 473, 496-500). This is browser I/O, JSON and asynchronous image decoding. A load replaces the raster history with one snapshot while the restored log may still hold `drawing` entries. That would break the lockstep part of `Board.Valid()`, which holds only for boards started from the mount state.
- Pixel work: stroking paths, composite modes, `getImageData`/`putImageData` and resizing the canvas (components/tactical-board.tsx:93-103, 350-411). Snapshots are opaque tokens supplied by the caller.
- The image export (components/tactical-board.tsx:503-640). It is canvas drawing with font-metric-driven text trimming.
- The early returns when the canvas or its context is missing (components/tactical-board.tsx:417-421, 462-466, 478-482). The model assumes a canvas. In the source, the early return at 462-466 would also skip the cursor decrement at 472.
- The tool and gesture state (`selectedTool`, `drawMode`, `isDrawing`). It reaches the model only as the `strokeInProgress` flag of `HandleCanvasMouseUp`.
- The modal state (`editingPlayer`, `deletingElement`) and the edit modal. The modal's merge of the edited fields reaches the model as the argument of `UpdatePlayer`.
- Id generation from the clock (components/tactical-board.tsx:259, 281). Ids are parameters. The source does not check that they are unique, so the undo scenarios assume fresh or unique ids.
- React's asynchronous state updates. Each list update is applied at once, in the order the handler issues it.
- Long-press timers, resize listeners, mobile detection and the first-visit alert. The mobile flag, the measured container size and the measured text width are parameters.
- JavaScript number corner cases: NaN, infinities, non-integer jersey numbers and the decimal form of non-integers. Positions are `real` and jersey numbers are `int`.
