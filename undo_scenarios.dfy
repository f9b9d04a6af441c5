/** Sequences of board operations and what undo makes of them, proved from
    the contracts of the board's methods alone. */
module UndoScenarios {

  import opened Geometry
  import opened Entities
  import opened ActionLog
  import opened TacticalBoard

  /** Adding a player with a fresh id and undoing restores the player list
      exactly and returns the log cursor to where it was. */
  method AddPlayerThenUndo(b: Board, id: Id, clientWidth: nat, clientHeight: nat)
    requires b.Valid()
    requires !HasId(b.players, id, PlayerId)
    modifies b
    ensures b.Valid()
    ensures b.players == old(b.players) && b.elements == old(b.elements)
    ensures b.actionHistoryIndex == old(b.actionHistoryIndex)
    ensures b.drawingHistory == old(b.drawingHistory) && b.historyIndex == old(b.historyIndex)
    ensures b.actionHistory[..b.actionHistoryIndex + 1] == old(b.actionHistory[..b.actionHistoryIndex + 1])
  {
    b.AddPlayer(id, clientWidth, clientHeight);
    var p := b.players[|b.players| - 1];
    RemoveFreshAppended(old(b.players), p, PlayerId);
    b.Undo();
  }

  /** The same for a ball. */
  method AddElementThenUndo(b: Board, id: Id, clientWidth: nat, clientHeight: nat)
    requires b.Valid()
    requires !HasId(b.elements, id, ElementId)
    modifies b
    ensures b.Valid()
    ensures b.players == old(b.players) && b.elements == old(b.elements)
    ensures b.actionHistoryIndex == old(b.actionHistoryIndex)
    ensures b.drawingHistory == old(b.drawingHistory) && b.historyIndex == old(b.historyIndex)
    ensures b.actionHistory[..b.actionHistoryIndex + 1] == old(b.actionHistory[..b.actionHistoryIndex + 1])
  {
    b.AddElement(id, clientWidth, clientHeight);
    var e := b.elements[|b.elements| - 1];
    RemoveFreshAppended(old(b.elements), e, ElementId);
    b.Undo();
  }

  /** Deleting a player and undoing brings back the same players when ids
      are unique, with the restored player moved to the end of the list. */
  method DeletePlayerThenUndo(b: Board, id: Id)
    requires b.Valid()
    requires UniqueIds(b.players, PlayerId) && HasId(b.players, id, PlayerId)
    modifies b
    ensures b.Valid()
    ensures multiset(b.players) == multiset(old(b.players))
    ensures b.players == RemoveById(old(b.players), id, PlayerId) + [Find(old(b.players), id, PlayerId).value]
    ensures b.elements == old(b.elements) && b.actionHistoryIndex == old(b.actionHistoryIndex)
    ensures b.actionHistory[..b.actionHistoryIndex + 1] == old(b.actionHistory[..b.actionHistoryIndex + 1])
    ensures b.drawingHistory == old(b.drawingHistory) && b.historyIndex == old(b.historyIndex)
  {
    b.DeletePlayer(id);
    b.Undo();
    RemoveThenAppendFound(old(b.players), id, PlayerId);
  }

  /** The same for a ball: deleting and undoing brings back the same
      elements, with the restored one last. */
  method DeleteElementThenUndo(b: Board, id: Id)
    requires b.Valid()
    requires UniqueIds(b.elements, ElementId) && HasId(b.elements, id, ElementId)
    modifies b
    ensures b.Valid()
    ensures multiset(b.elements) == multiset(old(b.elements))
    ensures b.elements == RemoveById(old(b.elements), id, ElementId) + [Find(old(b.elements), id, ElementId).value]
    ensures b.players == old(b.players) && b.actionHistoryIndex == old(b.actionHistoryIndex)
    ensures b.actionHistory[..b.actionHistoryIndex + 1] == old(b.actionHistory[..b.actionHistoryIndex + 1])
    ensures b.drawingHistory == old(b.drawingHistory) && b.historyIndex == old(b.historyIndex)
  {
    b.DeleteElement(id);
    b.Undo();
    RemoveThenAppendFound(old(b.elements), id, ElementId);
  }

  /** Adding players with fresh, distinct ids one after another and then
      undoing once per add restores the player list, the log up to the
      cursor and the cursor: the one-step round trip nests. */
  method AddPlayersThenUndoAll(b: Board, ids: seq<Id>, clientWidth: nat, clientHeight: nat)
    requires b.Valid()
    requires FreshDistinctIds(b.players, ids, PlayerId)
    modifies b
    decreases |ids|
    ensures b.Valid()
    ensures b.players == old(b.players) && b.elements == old(b.elements)
    ensures b.actionHistoryIndex == old(b.actionHistoryIndex)
    ensures b.actionHistory[..b.actionHistoryIndex + 1] == old(b.actionHistory[..b.actionHistoryIndex + 1])
    ensures b.drawingHistory == old(b.drawingHistory) && b.historyIndex == old(b.historyIndex)
  {
    if ids != [] {
      b.AddPlayer(ids[0], clientWidth, clientHeight);
      ghost var added := b.players;
      ghost var p := added[|added| - 1];
      ghost var log := b.actionHistory[..b.actionHistoryIndex + 1];
      assert log[b.actionHistoryIndex] == Action.AddPlayer(p);
      FreshIdsAfterAppend(old(b.players), p, ids, PlayerId);
      AddPlayersThenUndoAll(b, ids[1..], clientWidth, clientHeight);
      PrefixStepBack(b.actionHistory, b.actionHistoryIndex, log);
      assert b.actionHistory[b.actionHistoryIndex] == Action.AddPlayer(p);
      RemoveFreshAppended(old(b.players), p, PlayerId);
      b.Undo();
    }
  }

  /** No entity of xs has any of the ids, and the ids are pairwise distinct. */
  predicate FreshDistinctIds<T>(xs: seq<T>, ids: seq<Id>, key: T -> Id)
  {
    && (forall i :: 0 <= i < |ids| ==> !HasId(xs, ids[i], key))
    && (forall i, j :: 0 <= i < j < |ids| ==> ids[i] != ids[j])
  }

  /** Once an entity with the first id is appended, the remaining ids are
      still fresh and distinct. */
  lemma FreshIdsAfterAppend<T>(xs: seq<T>, x: T, ids: seq<Id>, key: T -> Id)
    requires |ids| >= 1 && key(x) == ids[0]
    requires FreshDistinctIds(xs, ids, key)
    ensures FreshDistinctIds(xs + [x], ids[1..], key)
  {
    forall i | 0 <= i < |ids[1..]|
      ensures !HasId(xs + [x], ids[1..][i], key)
    {
      assert ids[1..][i] == ids[i + 1];
    }
  }

  /** A log whose entries 0..cursor are a known sequence: the entry under
      the cursor is its last one, and the entries before are the rest. */
  lemma PrefixStepBack<T>(log: seq<T>, cursor: int, prefix: seq<T>)
    requires 0 <= cursor < |log| && log[..cursor + 1] == prefix
    ensures log[cursor] == prefix[cursor]
    ensures log[..cursor] == prefix[..cursor]
  {
  }

  /** Add a player, drag it, undo once: the player is gone. The drag was not
      recorded, so the undo reverts the add. */
  method AddDragUndo(b: Board, id: Id, clientWidth: nat, clientHeight: nat, target: Point)
    requires b.Valid()
    requires !HasId(b.players, id, PlayerId)
    modifies b
    ensures b.Valid()
    ensures b.players == old(b.players)
    ensures b.actionHistoryIndex == old(b.actionHistoryIndex)
  {
    b.AddPlayer(id, clientWidth, clientHeight);
    ghost var added := b.players;
    b.HandlePlayerDrag(id, target);
    var moved := old(b.players) + [added[|added| - 1].(position := target)];
    assert b.players == moved;
    RemoveFreshAppended(old(b.players), moved[|moved| - 1], PlayerId);
    b.Undo();
  }

  /** On a fresh board: draw a stroke, add a ball, undo twice. The blank
      snapshot is back on screen, the ball is gone and the log cursor is -1. */
  method StrokeBallUndoUndo(blank: Snapshot, stroke: Snapshot, ballId: Id) returns (b: Board)
    ensures b.Valid()
    ensures b.historyIndex == 0 && b.drawingHistory == [blank, stroke]
    ensures b.players == [] && b.elements == []
    ensures b.actionHistoryIndex == -1 && |b.actionHistory| == 2
  {
    b := new Board(blank);
    b.HandleCanvasMouseUp(true, stroke);
    b.AddElement(ballId, 400, 300);
    b.Undo();
    b.Undo();
  }

  /** On a fresh board: draw, undo, draw again. The first stroke's snapshot
      is discarded and cannot come back. */
  method CommitAfterUndoDropsBranch(blank: Snapshot, first: Snapshot, second: Snapshot) returns (b: Board)
    ensures b.Valid()
    ensures b.drawingHistory == [blank, second] && b.historyIndex == 1
    ensures b.actionHistory == [Drawing(1)] && b.actionHistoryIndex == 0
  {
    b := new Board(blank);
    b.HandleCanvasMouseUp(true, first);
    b.Undo();
    b.HandleCanvasMouseUp(true, second);
  }
}
