/** The board's undo engine: the two entity lists, the raster snapshot
    history with its cursor, and the unified action log with its cursor.
    Adds, deletes and stroke ends are recorded in the log; `Undo` applies the
    inverse of the entry under the log cursor and steps the cursor back. Moves
    and edits are not recorded, and there is no redo. */
module TacticalBoard {

  import opened Geometry
  import opened Options
  import opened Labels
  import opened Entities
  import opened ActionLog

  /** A captured canvas image (`getImageData`), treated as an opaque token. */
  datatype Snapshot = Snapshot(token: nat)

  /** The palette new players cycle through. */
  const Colors: seq<string> := ["#ff6b6b", "#ffa06b", "#ffd56b", "#c2e076", "#6bceff", "#9f7aea", "#ff7eb3"]

  /** Where a new entity is placed on one axis: the middle of the board, or
      200 when the board's client size is 0 or the board is not mounted. */
  function CentreOr200(clientSize: nat): (c: real)
    ensures clientSize > 0 ==> 2.0 * c == clientSize as real
    ensures clientSize == 0 ==> c == 200.0
  {
    if clientSize > 0 then clientSize as real / 2.0 else 200.0
  }

  /** The player `addPlayer` creates when `count` players are on the board. */
  function NewPlayer(id: Id, count: nat, clientWidth: nat, clientHeight: nat): (p: Player)
    ensures p.id == id && p.number == count + 1
    ensures p.color in Colors && p.color == Colors[count % 7]
    ensures p.name == Some(DefaultName(count + 1))
    ensures DisplayName(p.name, p.number) == DefaultName(p.number)
    ensures p.position == Point(CentreOr200(clientWidth), CentreOr200(clientHeight))
  {
    Player(id, count + 1, Colors[count % |Colors|], Point(CentreOr200(clientWidth), CentreOr200(clientHeight)),
           Some(DefaultName(count + 1)))
  }

  /** Player colours repeat every seven players. */
  lemma NewPlayerColorCycles(id: Id, id': Id, count: nat, w: nat, h: nat)
    ensures NewPlayer(id', count + 7, w, h).color == NewPlayer(id, count, w, h).color
  {
    assert NewPlayer(id', count + 7, w, h).color == Colors[(count + 7) % 7];
    assert (count + 7) % 7 == count % 7;
  }

  /** The ball `addElement` creates. */
  function NewElement(id: Id, kind: ElementKind, clientWidth: nat, clientHeight: nat): (e: Element)
    ensures e.id == id && e.kind == kind
    ensures e.position == Point(CentreOr200(clientWidth), CentreOr200(clientHeight))
  {
    Element(id, kind, Point(CentreOr200(clientWidth), CentreOr200(clientHeight)))
  }

  class Board {
    var players: seq<Player>
    var elements: seq<Element>
    /** Raster snapshots; the one at `historyIndex` is on screen. */
    var drawingHistory: seq<Snapshot>
    var historyIndex: int
    /** The action log; the entry at `actionHistoryIndex` is the next one undo reverts. */
    var actionHistory: seq<Action>
    var actionHistoryIndex: int

    /** The cursors stay in range, and the raster cursor equals the number of
        `drawing` entries up to the log cursor: the two histories move in
        lockstep. */
    ghost predicate Valid()
      reads this
    {
      && -1 <= actionHistoryIndex < |actionHistory|
      && 0 <= historyIndex < |drawingHistory|
      && historyIndex == DrawingCount(actionHistory[..actionHistoryIndex + 1])
      && DrawingsNumbered(actionHistory)
    }

    /** The board after mounting: the blank canvas as the only snapshot, no
        entities, an empty log. */
    constructor (initialState: Snapshot)
      ensures Valid()
      ensures players == [] && elements == []
      ensures drawingHistory == [initialState] && historyIndex == 0
      ensures actionHistory == [] && actionHistoryIndex == -1
    {
      players, elements := [], [];
      drawingHistory, historyIndex := [initialState], 0;
      actionHistory, actionHistoryIndex := [], -1;
    }

    /** Appends a new player and records it. */
    method AddPlayer(id: Id, clientWidth: nat, clientHeight: nat)
      requires Valid()
      modifies this
      ensures Valid()
      ensures players == old(players) + [NewPlayer(id, |old(players)|, clientWidth, clientHeight)]
      ensures actionHistory == old(actionHistory[..actionHistoryIndex + 1]) + [Action.AddPlayer(players[|players| - 1])]
      ensures actionHistoryIndex == |actionHistory| - 1 == old(actionHistoryIndex) + 1
      ensures elements == old(elements)
      ensures drawingHistory == old(drawingHistory) && historyIndex == old(historyIndex)
    {
      var newPlayer := NewPlayer(id, |players|, clientWidth, clientHeight);
      RecordKeepsNumbering(actionHistory, actionHistoryIndex, Action.AddPlayer(newPlayer));
      actionHistory := Record(actionHistory, actionHistoryIndex, Action.AddPlayer(newPlayer));
      actionHistoryIndex := |actionHistory| - 1;
      players := players + [newPlayer];
    }

    /** Appends a new ball and records it. */
    method AddElement(id: Id, clientWidth: nat, clientHeight: nat)
      requires Valid()
      modifies this
      ensures Valid()
      ensures elements == old(elements) + [NewElement(id, Volleyball, clientWidth, clientHeight)]
      ensures actionHistory == old(actionHistory[..actionHistoryIndex + 1]) + [Action.AddElement(elements[|elements| - 1])]
      ensures actionHistoryIndex == |actionHistory| - 1 == old(actionHistoryIndex) + 1
      ensures players == old(players)
      ensures drawingHistory == old(drawingHistory) && historyIndex == old(historyIndex)
    {
      var newElement := NewElement(id, Volleyball, clientWidth, clientHeight);
      RecordKeepsNumbering(actionHistory, actionHistoryIndex, Action.AddElement(newElement));
      actionHistory := Record(actionHistory, actionHistoryIndex, Action.AddElement(newElement));
      actionHistoryIndex := |actionHistory| - 1;
      elements := elements + [newElement];
    }

    /** Moves every player with the id to the dropped position; not recorded. */
    method HandlePlayerDrag(id: Id, position: Point)
      requires Valid()
      modifies this
      ensures Valid()
      ensures |players| == |old(players)|
      ensures forall i :: 0 <= i < |players| ==>
                players[i] == if old(players[i]).id == id then old(players[i]).(position := position) else old(players[i])
      ensures elements == old(elements)
      ensures actionHistory == old(actionHistory) && actionHistoryIndex == old(actionHistoryIndex)
      ensures drawingHistory == old(drawingHistory) && historyIndex == old(historyIndex)
    {
      players := ReplaceById(players, id, PlayerId, (p: Player) => p.(position := position));
    }

    /** Moves every element with the id to the dropped position; not recorded. */
    method HandleElementDrag(id: Id, position: Point)
      requires Valid()
      modifies this
      ensures Valid()
      ensures |elements| == |old(elements)|
      ensures forall i :: 0 <= i < |elements| ==>
                elements[i] == if old(elements[i]).id == id then old(elements[i]).(position := position) else old(elements[i])
      ensures players == old(players)
      ensures actionHistory == old(actionHistory) && actionHistoryIndex == old(actionHistoryIndex)
      ensures drawingHistory == old(drawingHistory) && historyIndex == old(historyIndex)
    {
      elements := ReplaceById(elements, id, ElementId, (e: Element) => e.(position := position));
    }

    /** Replaces every player with the edited player's id by the edited
        player; not recorded. */
    method UpdatePlayer(updatedPlayer: Player)
      requires Valid()
      modifies this
      ensures Valid()
      ensures |players| == |old(players)|
      ensures forall i :: 0 <= i < |players| ==>
                players[i] == if old(players[i]).id == updatedPlayer.id then updatedPlayer else old(players[i])
      ensures elements == old(elements)
      ensures actionHistory == old(actionHistory) && actionHistoryIndex == old(actionHistoryIndex)
      ensures drawingHistory == old(drawingHistory) && historyIndex == old(historyIndex)
    {
      players := ReplaceById(players, updatedPlayer.id, PlayerId, (p: Player) => updatedPlayer);
    }

    /** Removes every player with the id; records the first one found, and
        records nothing when no player has the id. */
    method DeletePlayer(playerId: Id)
      requires Valid()
      modifies this
      ensures Valid()
      ensures players == RemoveById(old(players), playerId, PlayerId)
      ensures Find(old(players), playerId, PlayerId).None? ==>
                players == old(players) && actionHistory == old(actionHistory) && actionHistoryIndex == old(actionHistoryIndex)
      ensures Find(old(players), playerId, PlayerId).Some? ==>
                && actionHistory == old(actionHistory[..actionHistoryIndex + 1])
                                    + [Action.RemovePlayer(Find(old(players), playerId, PlayerId).value)]
                && actionHistoryIndex == |actionHistory| - 1 == old(actionHistoryIndex) + 1
      ensures elements == old(elements)
      ensures drawingHistory == old(drawingHistory) && historyIndex == old(historyIndex)
    {
      var playerToDelete := Find(players, playerId, PlayerId);
      if playerToDelete.Some? {
        RecordKeepsNumbering(actionHistory, actionHistoryIndex, Action.RemovePlayer(playerToDelete.value));
        actionHistory := Record(actionHistory, actionHistoryIndex, Action.RemovePlayer(playerToDelete.value));
        actionHistoryIndex := |actionHistory| - 1;
      }
      players := RemoveById(players, playerId, PlayerId);
    }

    /** Removes every element with the id; records the first one found, and
        records nothing when no element has the id. */
    method DeleteElement(elementId: Id)
      requires Valid()
      modifies this
      ensures Valid()
      ensures elements == RemoveById(old(elements), elementId, ElementId)
      ensures Find(old(elements), elementId, ElementId).None? ==>
                elements == old(elements) && actionHistory == old(actionHistory) && actionHistoryIndex == old(actionHistoryIndex)
      ensures Find(old(elements), elementId, ElementId).Some? ==>
                && actionHistory == old(actionHistory[..actionHistoryIndex + 1])
                                    + [Action.RemoveElement(Find(old(elements), elementId, ElementId).value)]
                && actionHistoryIndex == |actionHistory| - 1 == old(actionHistoryIndex) + 1
      ensures players == old(players)
      ensures drawingHistory == old(drawingHistory) && historyIndex == old(historyIndex)
    {
      var elementToDelete := Find(elements, elementId, ElementId);
      if elementToDelete.Some? {
        RecordKeepsNumbering(actionHistory, actionHistoryIndex, Action.RemoveElement(elementToDelete.value));
        actionHistory := Record(actionHistory, actionHistoryIndex, Action.RemoveElement(elementToDelete.value));
        actionHistoryIndex := |actionHistory| - 1;
      }
      elements := RemoveById(elements, elementId, ElementId);
    }

    /** The end of a stroke. When a stroke was in progress, the snapshots
        after the raster cursor are dropped, the current canvas is appended
        and becomes current, and a `drawing` entry holding its index is
        recorded. Otherwise nothing happens. */
    method HandleCanvasMouseUp(strokeInProgress: bool, currentState: Snapshot)
      requires Valid()
      modifies this
      ensures Valid()
      ensures !strokeInProgress ==>
                && drawingHistory == old(drawingHistory) && historyIndex == old(historyIndex)
                && actionHistory == old(actionHistory) && actionHistoryIndex == old(actionHistoryIndex)
      ensures strokeInProgress ==>
                && drawingHistory == old(drawingHistory[..historyIndex + 1]) + [currentState]
                && historyIndex == |drawingHistory| - 1 == old(historyIndex) + 1
                && actionHistory == old(actionHistory[..actionHistoryIndex + 1]) + [Action.Drawing(historyIndex)]
                && actionHistoryIndex == |actionHistory| - 1 == old(actionHistoryIndex) + 1
      ensures players == old(players) && elements == old(elements)
    {
      if strokeInProgress {
        if historyIndex < |drawingHistory| - 1 {
          drawingHistory := SliceTo(drawingHistory, historyIndex + 1);
        }
        drawingHistory := drawingHistory + [currentState];
        historyIndex := |drawingHistory| - 1;
        RecordKeepsNumbering(actionHistory, actionHistoryIndex, Action.Drawing(historyIndex));
        actionHistory := Record(actionHistory, actionHistoryIndex, Action.Drawing(historyIndex));
        actionHistoryIndex := |actionHistory| - 1;
      }
    }

    /** Reverts the entry under the log cursor and steps the cursor back by
        one; with the cursor at -1 nothing happens. Undoing an add removes the
        entities with the added id; undoing a removal appends the captured
        entity at the end of its list; undoing a `drawing` moves the raster
        cursor back when it is positive, which the lockstep invariant makes
        always the case. No entry is deleted from either history. */
    method Undo()
      requires Valid()
      modifies this
      ensures Valid()
      ensures actionHistory == old(actionHistory) && drawingHistory == old(drawingHistory)
      ensures old(actionHistoryIndex) < 0 ==>
                && actionHistoryIndex == old(actionHistoryIndex) && historyIndex == old(historyIndex)
                && players == old(players) && elements == old(elements)
      ensures old(actionHistoryIndex) >= 0 ==> actionHistoryIndex == old(actionHistoryIndex) - 1
      ensures old(actionHistoryIndex) >= 0 ==>
                match old(actionHistory[actionHistoryIndex])
                case AddPlayer(p) =>
                  players == RemoveById(old(players), p.id, PlayerId)
                  && elements == old(elements) && historyIndex == old(historyIndex)
                case RemovePlayer(p) =>
                  players == old(players) + [p]
                  && elements == old(elements) && historyIndex == old(historyIndex)
                case AddElement(e) =>
                  elements == RemoveById(old(elements), e.id, ElementId)
                  && players == old(players) && historyIndex == old(historyIndex)
                case RemoveElement(e) =>
                  elements == old(elements) + [e]
                  && players == old(players) && historyIndex == old(historyIndex)
                case Drawing(_) =>
                  historyIndex == old(historyIndex) - 1
                  && players == old(players) && elements == old(elements)
    {
      if actionHistoryIndex >= 0 {
        var lastAction := actionHistory[actionHistoryIndex];
        DrawingCountStep(actionHistory, actionHistoryIndex);
        match lastAction {
          case AddPlayer(p) =>
            players := RemoveById(players, p.id, PlayerId);
          case RemovePlayer(p) =>
            players := players + [p];
          case AddElement(e) =>
            elements := RemoveById(elements, e.id, ElementId);
          case RemoveElement(e) =>
            elements := elements + [e];
          case Drawing(_) =>
            if historyIndex > 0 {
              historyIndex := historyIndex - 1;
            }
        }
        actionHistoryIndex := actionHistoryIndex - 1;
      }
    }

    /** Wipes the board: a single blank snapshot, no entities, an empty log. */
    method ClearCanvas(blankState: Snapshot)
      requires Valid()
      modifies this
      ensures Valid()
      ensures drawingHistory == [blankState] && historyIndex == 0
      ensures players == [] && elements == []
      ensures actionHistory == [] && actionHistoryIndex == -1
    {
      drawingHistory := [blankState];
      historyIndex := 0;
      players := [];
      elements := [];
      actionHistory := [];
      actionHistoryIndex := -1;
    }
  }
}
