/** The unified action log of the board: one chronological list of tagged
    entries with a cursor on the last entry that is in effect. Recording an
    action drops the entries after the cursor and appends the new one. */
module ActionLog {

  import opened Entities

  /** One undoable action, carrying what its undo needs: the entity that was
      added or removed, or the raster index a stroke produced. */
  datatype Action =
    | AddPlayer(player: Player)
    | RemovePlayer(player: Player)
    | AddElement(element: Element)
    | RemoveElement(element: Element)
    | Drawing(index: int)

  /** `s.slice(0, end)`: a prefix of s; a negative end counts back from the
      end of s, and an end past the end is cut to the length of s. */
  function SliceTo<T>(s: seq<T>, end: int): (r: seq<T>)
    ensures r <= s
    ensures 0 <= end ==> |r| == if end <= |s| then end else |s|
    ensures end < 0 ==> |r| == if |s| + end >= 0 then |s| + end else 0
  {
    var n := if end < 0 then (if |s| + end >= 0 then |s| + end else 0)
             else if end <= |s| then end else |s|;
    s[..n]
  }

  /** The record step shared by every logged action:
      `[...log.slice(0, cursor + 1), action]`. From a cursor inside the log
      it keeps the entries up to the cursor and adds exactly one. */
  function Record(log: seq<Action>, cursor: int, action: Action): (r: seq<Action>)
    ensures |r| >= 1 && r[|r| - 1] == action && r[..|r| - 1] <= log
    ensures -1 <= cursor < |log| ==> |r| == cursor + 2 && r[..cursor + 1] == log[..cursor + 1]
  {
    SliceTo(log, cursor + 1) + [action]
  }

  /** The number of `drawing` entries in a log. */
  function DrawingCount(log: seq<Action>): nat
  {
    if log == [] then 0
    else DrawingCount(log[..|log| - 1]) + (if log[|log| - 1].Drawing? then 1 else 0)
  }

  /** Each `drawing` entry holds the number of `drawing` entries up to and
      including itself: the raster index its stroke was committed at. */
  ghost predicate DrawingsNumbered(log: seq<Action>)
  {
    forall i :: 0 <= i < |log| && log[i].Drawing? ==> log[i].index == DrawingCount(log[..i + 1])
  }

  /** Stepping the cursor back over one entry drops exactly that entry from
      the count. */
  lemma DrawingCountStep(log: seq<Action>, cursor: int)
    requires 0 <= cursor < |log|
    ensures DrawingCount(log[..cursor + 1]) == DrawingCount(log[..cursor]) + (if log[cursor].Drawing? then 1 else 0)
  {
    assert log[..cursor + 1][..cursor] == log[..cursor];
  }

  /** Recording from a cursor inside the log keeps the numbering of `drawing`
      entries, provided a new `drawing` entry carries the next number; the
      count then grows by one for a `drawing` entry and by nothing otherwise. */
  lemma RecordKeepsNumbering(log: seq<Action>, cursor: int, action: Action)
    requires -1 <= cursor < |log|
    requires DrawingsNumbered(log)
    requires action.Drawing? ==> action.index == DrawingCount(log[..cursor + 1]) + 1
    ensures DrawingsNumbered(Record(log, cursor, action))
    ensures DrawingCount(Record(log, cursor, action)[..cursor + 2])
            == DrawingCount(log[..cursor + 1]) + (if action.Drawing? then 1 else 0)
  {
    var r := Record(log, cursor, action);
    assert r[..|r| - 1] == log[..cursor + 1];
    assert r[..cursor + 2] == r;
    forall i | 0 <= i < |r| && r[i].Drawing?
      ensures r[i].index == DrawingCount(r[..i + 1])
    {
      if i < |r| - 1 {
        assert r[..i + 1] == log[..i + 1];
      } else {
        assert r[..i + 1] == r;
      }
    }
  }

  /** Under the numbering, the raster cursor is positive whenever the entry
      under the log cursor is a `drawing`, so undoing it always steps the
      raster cursor back by one. */
  lemma DrawingUndoSteps(log: seq<Action>, cursor: int, rasterIndex: int)
    requires 0 <= cursor < |log|
    requires log[cursor].Drawing?
    requires rasterIndex == DrawingCount(log[..cursor + 1])
    ensures rasterIndex > 0
    ensures rasterIndex - 1 == DrawingCount(log[..cursor])
  {
    DrawingCountStep(log, cursor);
  }
}
