/**
 * The undo/redo history of the puzzle board: a linear list of snapshots and the
 * index of the current one. Recording a new snapshot discards everything after
 * the current index, so the history never branches.
 */
module History {

  datatype History<S> = History(snapshots: seq<S>, index: int) {
    predicate Valid() {
      0 <= index < |snapshots|
    }

    function Current(): (s: S)
      requires Valid()
    {
      snapshots[index]
    }

    predicate CanUndo() {
      index > 0
    }

    predicate CanRedo() {
      index < |snapshots| - 1
    }
  }

  /** A fresh history holding one snapshot. */
  function Start<S>(s: S): (h: History<S>)
    ensures h.Valid() && h.Current() == s
    ensures !h.CanUndo() && !h.CanRedo()
  {
    History([s], 0)
  }

  /** Records s as the new current snapshot, discarding every snapshot after the current one. */
  function Push<S>(h: History<S>, s: S): (r: History<S>)
    requires h.Valid()
    ensures r.Valid() && r.Current() == s && !r.CanRedo()
    ensures |r.snapshots| == h.index + 2
    ensures r.snapshots[..h.index + 1] == h.snapshots[..h.index + 1]
  {
    var kept := h.snapshots[..h.index + 1];
    assert (kept + [s])[..h.index + 1] == kept;
    History(kept + [s], |kept|)
  }

  /** Steps back one snapshot; at the first snapshot nothing changes. */
  function Undo<S>(h: History<S>): (r: History<S>)
    requires h.Valid()
    ensures r.Valid() && r.snapshots == h.snapshots
    ensures h.CanUndo() ==> r.index == h.index - 1
    ensures !h.CanUndo() ==> r == h
  {
    if h.index > 0 then h.(index := h.index - 1) else h
  }

  /** Steps forward one snapshot; at the last snapshot nothing changes. */
  function Redo<S>(h: History<S>): (r: History<S>)
    requires h.Valid()
    ensures r.Valid() && r.snapshots == h.snapshots
    ensures h.CanRedo() ==> r.index == h.index + 1
    ensures !h.CanRedo() ==> r == h
  {
    if h.index < |h.snapshots| - 1 then h.(index := h.index + 1) else h
  }

  /** n successive undos. */
  function UndoTimes<S>(h: History<S>, n: nat): (r: History<S>)
    requires h.Valid()
    ensures r.Valid() && r.snapshots == h.snapshots
    ensures r.index == if n <= h.index then h.index - n else 0
    decreases n
  {
    if n == 0 then h else UndoTimes(Undo(h), n - 1)
  }

  /** Undo followed by redo gives back the same history. */
  lemma RedoAfterUndo<S>(h: History<S>)
    requires h.Valid() && h.CanUndo()
    ensures Redo(Undo(h)) == h
  {
  }

  /** Redo followed by undo gives back the same history. */
  lemma UndoAfterRedo<S>(h: History<S>)
    requires h.Valid() && h.CanRedo()
    ensures Undo(Redo(h)) == h
  {
  }

  /** Undoing a recorded snapshot returns to the snapshot that was current before it. */
  lemma UndoAfterPush<S>(h: History<S>, s: S)
    requires h.Valid()
    ensures Undo(Push(h, s)).Current() == h.Current()
    ensures Undo(Push(h, s)).index == h.index
  {
    var r := Push(h, s);
    assert r.snapshots[h.index] == r.snapshots[..h.index + 1][h.index];
  }

  /**
   * Recording after n undos (n at most the index) keeps the snapshots up to the one
   * the undos reached and drops every later one: the n undone snapshots and whatever
   * was redoable before the undos.
   */
  lemma PushAfterUndos<S>(h: History<S>, n: nat, s: S)
    requires h.Valid() && n <= h.index
    ensures Push(UndoTimes(h, n), s).snapshots == h.snapshots[..h.index - n + 1] + [s]
    ensures Push(UndoTimes(h, n), s).index == h.index - n + 1
  {
  }
}
