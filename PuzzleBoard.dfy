/**
 * The board engine of the puzzle component: block placements, the drag-end
 * handler (snap, clamp, record), undo/redo, the check of every block against its
 * correct position, and the hint with its cooldown.
 *
 * The constants TOLERANCE, INDENT_WIDTH and LINE_HEIGHT are fields of the board
 * fixed at construction; DOM sizes, the random value and the cooldown timer are
 * inputs of the handlers.
 */
module PuzzleBoard {
  import opened Geometry
  import opened Random
  import H = History

  datatype Option<T> = None | Some(value: T)

  datatype Point = Point(x: int, y: int)

  datatype PuzzleBlock = PuzzleBlock(id: string, code: string, explanation: string, correctPosition: Point)

  datatype BlockPosition = BlockPosition(id: string, x: int, y: int)

  /**
   * The sizes the drag-end handler reads from the DOM. blockWidth is the width of the
   * element in the one block ref that every rendered block writes, so it is the
   * width of whichever block attached last, not necessarily the dragged one.
   */
  datatype Measures = Measures(canvasWidth: int, canvasHeight: int, blockWidth: int)

  datatype Hint = Hint(blockId: string, direction: Point)

  /** The left column and the first row of the initial stack, and the stack's pitch. */
  const StackX: int := 20
  const StackTop: int := 20
  const StackPitch: int := 60

  /** `Array.prototype.find`: the first element satisfying p, if any. */
  function Find<T>(s: seq<T>, p: T -> bool): (r: Option<T>)
    ensures r.None? <==> forall k :: 0 <= k < |s| ==> !p(s[k])
    ensures r.Some? ==> r.value in s && p(r.value)
  {
    if |s| == 0 then None
    else if p(s[0]) then Some(s[0])
    else Find(s[1..], p)
  }

  /** What Find returns is the first element satisfying p: every element before it fails p. */
  lemma {:induction false} FindFirst<T>(s: seq<T>, p: T -> bool)
    requires Find(s, p).Some?
    ensures exists k :: 0 <= k < |s| && s[k] == Find(s, p).value && forall l :: 0 <= l < k ==> !p(s[l])
  {
    if !p(s[0]) {
      FindFirst(s[1..], p);
      var k :| 0 <= k < |s| - 1 && s[1..][k] == Find(s, p).value && forall l :: 0 <= l < k ==> !p(s[1..][l]);
      assert s[k + 1] == Find(s, p).value;
      forall l | 0 <= l < k + 1
        ensures !p(s[l])
      {
        if l > 0 {
          assert s[l] == s[1..][l - 1];
        }
      }
    }
  }

  function PositionOf(positions: seq<BlockPosition>, id: string): (r: Option<BlockPosition>) {
    Find(positions, (p: BlockPosition) => p.id == id)
  }

  function BlockOf(blocks: seq<PuzzleBlock>, id: string): (r: Option<PuzzleBlock>) {
    Find(blocks, (b: PuzzleBlock) => b.id == id)
  }

  /** The ids of a sequence of entries, in order. */
  function Ids<T>(s: seq<T>, id: T -> string): (ids: seq<string>)
    ensures |ids| == |s|
    ensures forall k :: 0 <= k < |s| ==> ids[k] == id(s[k])
  {
    seq(|s|, k requires 0 <= k < |s| => id(s[k]))
  }

  function PositionIds(positions: seq<BlockPosition>): (ids: seq<string>) {
    Ids(positions, (p: BlockPosition) => p.id)
  }

  function BlockIds(blocks: seq<PuzzleBlock>): (ids: seq<string>) {
    Ids(blocks, (b: PuzzleBlock) => b.id)
  }

  /** Every block stacked in puzzle order at the left of the board. */
  function InitialPositions(blocks: seq<PuzzleBlock>): (r: seq<BlockPosition>)
    ensures PositionIds(r) == BlockIds(blocks)
    ensures forall k :: 0 <= k < |r| ==> r[k].x == StackX && r[k].y == StackTop + StackPitch * k
  {
    seq(|blocks|, k requires 0 <= k < |blocks| => BlockPosition(blocks[k].id, StackX, StackTop + StackPitch * k))
  }

  /**
   * A block is flagged when it has a placement and that placement is farther than
   * the tolerance from its correct position on at least one axis.
   */
  predicate IsIncorrect(b: PuzzleBlock, positions: seq<BlockPosition>, tolerance: nat)
    ensures IsIncorrect(b, positions, tolerance) <==>
              PositionOf(positions, b.id).Some?
              && Direction(PositionOf(positions, b.id).value, b.correctPosition, tolerance) != Point(0, 0)
  {
    match PositionOf(positions, b.id)
    case None => false
    case Some(p) =>
      Abs(p.x - b.correctPosition.x) > tolerance || Abs(p.y - b.correctPosition.y) > tolerance
  }

  /** The flagged blocks, in puzzle order. */
  function IncorrectBlocks(blocks: seq<PuzzleBlock>, positions: seq<BlockPosition>, tolerance: nat): (r: seq<PuzzleBlock>)
    ensures |r| <= |blocks|
    ensures forall b :: b in r <==> b in blocks && IsIncorrect(b, positions, tolerance)
  {
    if |blocks| == 0 then []
    else
      var rest := IncorrectBlocks(blocks[1..], positions, tolerance);
      assert forall b :: b in blocks <==> b == blocks[0] || b in blocks[1..];
      if IsIncorrect(blocks[0], positions, tolerance) then [blocks[0]] + rest else rest
  }

  /** The flagged blocks of a concatenation are those of each part, in order. */
  lemma {:induction false} IncorrectBlocksAppend(a: seq<PuzzleBlock>, b: seq<PuzzleBlock>, positions: seq<BlockPosition>, tolerance: nat)
    ensures IncorrectBlocks(a + b, positions, tolerance)
         == IncorrectBlocks(a, positions, tolerance) + IncorrectBlocks(b, positions, tolerance)
  {
    if |a| > 0 {
      assert (a + b)[1..] == a[1..] + b;
      IncorrectBlocksAppend(a[1..], b, positions, tolerance);
    } else {
      assert a + b == b;
    }
  }

  /** One more block of the puzzle adds its id to the flagged ids exactly when it is flagged. */
  lemma FlaggedStep(blocks: seq<PuzzleBlock>, i: nat, positions: seq<BlockPosition>, tolerance: nat)
    requires i < |blocks|
    ensures BlockIds(IncorrectBlocks(blocks[..i + 1], positions, tolerance))
         == BlockIds(IncorrectBlocks(blocks[..i], positions, tolerance))
            + (if IsIncorrect(blocks[i], positions, tolerance) then [blocks[i].id] else [])
  {
    var b := blocks[i];
    assert blocks[..i + 1] == blocks[..i] + [b];
    IncorrectBlocksAppend(blocks[..i], [b], positions, tolerance);
    var single := IncorrectBlocks([b], positions, tolerance);
    assert single == if IsIncorrect(b, positions, tolerance) then [b] else [] by {
      assert [b][1..] == [];
    }
    var prefix := IncorrectBlocks(blocks[..i], positions, tolerance);
    assert BlockIds(prefix + single) == BlockIds(prefix) + BlockIds(single);
  }

  /** The puzzle is solved exactly when no block is flagged. */
  lemma SolvedIffNoneFlagged(blocks: seq<PuzzleBlock>, positions: seq<BlockPosition>, tolerance: nat)
    ensures IncorrectBlocks(blocks, positions, tolerance) == []
        <==> forall k :: 0 <= k < |blocks| ==> !IsIncorrect(blocks[k], positions, tolerance)
  {
    var r := IncorrectBlocks(blocks, positions, tolerance);
    if r != [] {
      assert r[0] in blocks && IsIncorrect(r[0], positions, tolerance);
    }
  }

  /**
   * The direction a hint shows for a block at current whose target is target:
   * per axis 0 within tolerance, otherwise the sign of target minus current.
   */
  function Direction(current: BlockPosition, target: Point, tolerance: nat): (d: Point)
    ensures d.x == 0 <==> Abs(target.x - current.x) <= tolerance
    ensures d.y == 0 <==> Abs(target.y - current.y) <= tolerance
    ensures d.x == 1 <==> target.x - current.x > tolerance
    ensures d.x == -1 <==> target.x - current.x + tolerance < 0
    ensures d.y == 1 <==> target.y - current.y > tolerance
    ensures d.y == -1 <==> target.y - current.y + tolerance < 0
  {
    Point(HintAxis(target.x - current.x, tolerance), HintAxis(target.y - current.y, tolerance))
  }

  predicate IsUnitDirection(d: Point) {
    -1 <= d.x <= 1 && -1 <= d.y <= 1
  }

  /**
   * The hint for the draw: a flagged block chosen by `floor(random * count)` and the
   * direction toward its correct position; None when no block is flagged.
   */
  function ChooseHint(blocks: seq<PuzzleBlock>, positions: seq<BlockPosition>, tolerance: nat, draw: Draw): (r: Option<Hint>)
    requires draw.Valid()
    ensures r.None? <==> forall k :: 0 <= k < |blocks| ==> !IsIncorrect(blocks[k], positions, tolerance)
    ensures r.Some? ==> IsUnitDirection(r.value.direction) && r.value.direction != Point(0, 0)
    ensures r.Some? ==> exists b :: b in blocks && b.id == r.value.blockId && IsIncorrect(b, positions, tolerance)
                                  && PositionOf(positions, b.id).Some?
                                  && r.value.direction == Direction(PositionOf(positions, b.id).value, b.correctPosition, tolerance)
  {
    var flagged := IncorrectBlocks(blocks, positions, tolerance);
    SolvedIffNoneFlagged(blocks, positions, tolerance);
    if flagged == [] then None
    else
      var b := flagged[Pick(draw, |flagged|)];
      var p := PositionOf(positions, b.id);
      assert b in blocks && IsIncorrect(b, positions, tolerance);
      Some(Hint(b.id, Direction(p.value, b.correctPosition, tolerance)))
  }

  /** The farthest left edge of a block: a block of the measured width placed there ends at the board's right edge. */
  function XMax(m: Measures): (r: int) {
    m.canvasWidth - m.blockWidth
  }

  /** The lowest top edge of a block: a line placed there leaves the bottom padding free below it. */
  function YMax(m: Measures, lineHeight: int): (r: int) {
    m.canvasHeight - lineHeight - BottomPadding
  }

  /**
   * Where a placement stands after a drop, given the board measures: at least one
   * cell from the top-left, inside the board whenever the board leaves room, and on
   * the grid unless pushed back to the far edge.
   */
  predicate InBoard(p: BlockPosition, m: Measures, indentWidth: int, lineHeight: int)
    requires indentWidth > 0 && lineHeight > 0
  {
    && p.x >= indentWidth
    && p.y >= lineHeight
    && (indentWidth <= XMax(m) ==> p.x <= XMax(m))
    && (lineHeight <= YMax(m, lineHeight) ==> p.y <= YMax(m, lineHeight))
    && (OnGrid(p.x, indentWidth) || p.x == XMax(m))
    && (OnGrid(p.y, lineHeight) || p.y == YMax(m, lineHeight))
  }

  /** One entry of the drop: only the dragged block moves, and only if it is a puzzle block and the board is measured. */
  function DropEntry(pos: BlockPosition, id: string, dx: int, dy: int, blocks: seq<PuzzleBlock>,
                     measures: Option<Measures>, indentWidth: int, lineHeight: int): (r: BlockPosition)
    requires indentWidth > 0 && lineHeight > 0
    ensures r.id == pos.id
    ensures pos.id != id || BlockOf(blocks, id).None? || measures.None? ==> r == pos
    ensures pos.id == id && BlockOf(blocks, id).Some? && measures.Some? ==>
              r.x >= indentWidth && r.y >= lineHeight
  {
    if pos.id != id || BlockOf(blocks, id).None? || measures.None? then pos
    else
      var m := measures.value;
      pos.(x := Land(pos.x + dx, indentWidth, XMax(m)),
           y := Land(pos.y + dy, lineHeight, YMax(m, lineHeight)))
  }

  /** The placements after the block id is dropped at its position plus (dx, dy). */
  function Drop(positions: seq<BlockPosition>, id: string, dx: int, dy: int, blocks: seq<PuzzleBlock>,
                measures: Option<Measures>, indentWidth: int, lineHeight: int): (r: seq<BlockPosition>)
    requires indentWidth > 0 && lineHeight > 0
    ensures PositionIds(r) == PositionIds(positions)
    ensures forall k :: 0 <= k < |r| && positions[k].id != id ==> r[k] == positions[k]
    ensures BlockOf(blocks, id).None? || measures.None? ==> r == positions
  {
    seq(|positions|, k requires 0 <= k < |positions| =>
        DropEntry(positions[k], id, dx, dy, blocks, measures, indentWidth, lineHeight))
  }

  /**
   * Wherever it is released, a dropped puzzle block's top-left corner lands inside
   * the measured bounds. Its right edge stays inside the board only when it is no
   * wider than the measured block width.
   */
  lemma DropLandsInBoard(positions: seq<BlockPosition>, id: string, dx: int, dy: int, blocks: seq<PuzzleBlock>,
                         m: Measures, indentWidth: int, lineHeight: int)
    requires indentWidth > 0 && lineHeight > 0 && BlockOf(blocks, id).Some?
    ensures forall k :: 0 <= k < |positions| && positions[k].id == id ==>
              InBoard(Drop(positions, id, dx, dy, blocks, Some(m), indentWidth, lineHeight)[k], m, indentWidth, lineHeight)
  {
    forall k | 0 <= k < |positions| && positions[k].id == id
      ensures InBoard(Drop(positions, id, dx, dy, blocks, Some(m), indentWidth, lineHeight)[k], m, indentWidth, lineHeight)
    {
      var r := DropEntry(positions[k], id, dx, dy, blocks, Some(m), indentWidth, lineHeight);
      assert r.x == Land(positions[k].x + dx, indentWidth, XMax(m));
      assert r.y == Land(positions[k].y + dy, lineHeight, YMax(m, lineHeight));
      LandInBounds(positions[k].x + dx, indentWidth, XMax(m));
      LandInBounds(positions[k].y + dy, lineHeight, YMax(m, lineHeight));
    }
  }

  /**
   * Dropping a block where it stands, when it stands on the grid inside the board,
   * changes nothing.
   */
  lemma DropInPlaceOnGrid(positions: seq<BlockPosition>, id: string, blocks: seq<PuzzleBlock>, m: Measures,
                          indentWidth: int, lineHeight: int)
    requires indentWidth > 0 && lineHeight > 0
    requires forall k :: 0 <= k < |positions| && positions[k].id == id ==>
               && OnGrid(positions[k].x, indentWidth) && indentWidth <= positions[k].x <= XMax(m)
               && OnGrid(positions[k].y, lineHeight) && lineHeight <= positions[k].y <= YMax(m, lineHeight)
    ensures Drop(positions, id, 0, 0, blocks, Some(m), indentWidth, lineHeight) == positions
  {
    var r := Drop(positions, id, 0, 0, blocks, Some(m), indentWidth, lineHeight);
    forall k | 0 <= k < |positions| && positions[k].id == id
      ensures r[k] == positions[k]
    {
      LandFixesGridInBounds(positions[k].x, indentWidth, XMax(m));
      LandFixesGridInBounds(positions[k].y, lineHeight, YMax(m, lineHeight));
    }
  }

  /** Recording placements with the puzzle's ids keeps every snapshot's ids those of the puzzle. */
  lemma PushKeepsIds(h: H.History<seq<BlockPosition>>, p: seq<BlockPosition>, ids: seq<string>)
    requires h.Valid() && PositionIds(p) == ids
    requires forall s :: s in h.snapshots ==> PositionIds(s) == ids
    ensures forall s :: s in H.Push(h, p).snapshots ==> PositionIds(s) == ids
  {
    var r := H.Push(h, p);
    forall s | s in r.snapshots
      ensures PositionIds(s) == ids
    {
      if s != p {
        assert s in r.snapshots[..h.index + 1];
      }
    }
  }

  /**
   * The mutable state of the puzzle component. The history holds snapshots of the
   * placements; the current snapshot is always the current placements.
   */
  class Board {
    const tolerance: nat
    const indentWidth: nat
    const lineHeight: nat

    var puzzle: seq<PuzzleBlock>
    var positions: seq<BlockPosition>
    var activeId: Option<string>
    var incorrectBlocks: seq<string>
    var showSuccess: bool
    var hintBlock: Option<string>
    var hintDirection: Option<Point>
    var hintDisabled: bool
    var history: seq<seq<BlockPosition>>
    var historyIndex: int

    ghost function Timeline(): (h: H.History<seq<BlockPosition>>)
      reads this
    {
      H.History(history, historyIndex)
    }

    ghost predicate Valid()
      reads this
    {
      && indentWidth > 0 && lineHeight > 0
      && Timeline().Valid()
      && positions == Timeline().Current()
      && (forall s :: s in history ==> PositionIds(s) == BlockIds(puzzle))
      && (hintBlock.Some? <==> hintDirection.Some?)
      && (hintDirection.Some? ==> IsUnitDirection(hintDirection.value))
    }

    /** The state after the component mounts and its initialisation effect has run for blocks. */
    constructor (tolerance: nat, indentWidth: nat, lineHeight: nat, blocks: seq<PuzzleBlock>)
      requires indentWidth > 0 && lineHeight > 0
      ensures Valid()
      ensures this.tolerance == tolerance && this.indentWidth == indentWidth && this.lineHeight == lineHeight
      ensures puzzle == blocks && positions == InitialPositions(blocks)
      ensures Timeline() == H.Start(positions)
      ensures incorrectBlocks == [] && hintBlock.None? && hintDirection.None?
      ensures activeId.None? && !showSuccess && !hintDisabled
    {
      this.tolerance := tolerance;
      this.indentWidth := indentWidth;
      this.lineHeight := lineHeight;
      var initial := InitialPositions(blocks);
      puzzle := blocks;
      positions := initial;
      history := [initial];
      historyIndex := 0;
      activeId := None;
      incorrectBlocks := [];
      showSuccess := false;
      hintBlock := None;
      hintDirection := None;
      hintDisabled := false;
    }

    /** A new puzzle: placements stacked afresh, history restarted, highlights and hint cleared. */
    method Load(blocks: seq<PuzzleBlock>)
      requires Valid()
      modifies this
      ensures Valid()
      ensures puzzle == blocks && positions == InitialPositions(blocks)
      ensures Timeline() == H.Start(positions)
      ensures incorrectBlocks == [] && hintBlock.None? && hintDirection.None?
      ensures activeId == old(activeId) && showSuccess == old(showSuccess) && hintDisabled == old(hintDisabled)
    {
      var initial := InitialPositions(blocks);
      puzzle := blocks;
      positions := initial;
      history := [initial];
      historyIndex := 0;
      incorrectBlocks := [];
      hintBlock := None;
      hintDirection := None;
    }

    /** Marks the dragged block as active; nothing else changes. */
    method DragStart(id: string)
      modifies this`activeId
      ensures activeId == Some(id)
    {
      activeId := Some(id);
    }

    /** Steps back one snapshot unless at the first; a step clears highlights and hint. */
    method Undo()
      requires Valid()
      modifies this
      ensures Valid()
      ensures Timeline() == H.Undo(old(Timeline()))
      ensures !old(Timeline()).CanUndo() ==> unchanged(this)
      ensures old(Timeline()).CanUndo() ==>
                && incorrectBlocks == [] && hintBlock.None? && hintDirection.None?
                && puzzle == old(puzzle) && activeId == old(activeId)
                && showSuccess == old(showSuccess) && hintDisabled == old(hintDisabled)
    {
      if historyIndex > 0 {
        historyIndex := historyIndex - 1;
        positions := history[historyIndex];
        incorrectBlocks := [];
        hintBlock := None;
        hintDirection := None;
      }
    }

    /** Steps forward one snapshot unless at the last; a step clears highlights and hint. */
    method Redo()
      requires Valid()
      modifies this
      ensures Valid()
      ensures Timeline() == H.Redo(old(Timeline()))
      ensures !old(Timeline()).CanRedo() ==> unchanged(this)
      ensures old(Timeline()).CanRedo() ==>
                && incorrectBlocks == [] && hintBlock.None? && hintDirection.None?
                && puzzle == old(puzzle) && activeId == old(activeId)
                && showSuccess == old(showSuccess) && hintDisabled == old(hintDisabled)
    {
      if historyIndex < |history| - 1 {
        historyIndex := historyIndex + 1;
        positions := history[historyIndex];
        incorrectBlocks := [];
        hintBlock := None;
        hintDirection := None;
      }
    }

    /** The ids of the flagged blocks, collected block by block in puzzle order. */
    method FlaggedIds() returns (incorrect: seq<string>)
      ensures incorrect == BlockIds(IncorrectBlocks(puzzle, positions, tolerance))
    {
      incorrect := [];
      var i := 0;
      while i < |puzzle|
        invariant 0 <= i <= |puzzle|
        invariant incorrect == BlockIds(IncorrectBlocks(puzzle[..i], positions, tolerance))
      {
        var block := puzzle[i];
        var current := PositionOf(positions, block.id);
        FlaggedStep(puzzle, i, positions, tolerance);
        if current.Some? {
          var p := current.value;
          var isCorrectX := Abs(p.x - block.correctPosition.x) <= tolerance;
          var isCorrectY := Abs(p.y - block.correctPosition.y) <= tolerance;
          if !isCorrectX || !isCorrectY {
            incorrect := incorrect + [block.id];
          }
        }
        i := i + 1;
      }
      assert puzzle[..i] == puzzle;
    }

    /** Flags the misplaced blocks; with none flagged the success dialog opens. */
    method Check()
      modifies this`incorrectBlocks, this`showSuccess
      ensures incorrectBlocks == BlockIds(IncorrectBlocks(puzzle, positions, tolerance))
      ensures showSuccess == (old(showSuccess) || incorrectBlocks == [])
    {
      var incorrect := FlaggedIds();
      incorrectBlocks := incorrect;
      if |incorrect| == 0 {
        showSuccess := true;
      }
    }

    /**
     * Shows a hint for a random flagged block and starts the cooldown. During the
     * cooldown, or when no block is flagged, nothing changes.
     */
    method GiveHint(draw: Draw)
      requires Valid() && draw.Valid()
      modifies this`hintBlock, this`hintDirection, this`hintDisabled
      ensures Valid()
      ensures old(hintDisabled) ==> unchanged(this)
      ensures !old(hintDisabled) ==>
                match ChooseHint(puzzle, positions, tolerance, draw)
                case None => unchanged(this)
                case Some(h) => hintBlock == Some(h.blockId) && hintDirection == Some(h.direction) && hintDisabled
    {
      if hintDisabled {
        return;
      }
      var hint := ChooseHint(puzzle, positions, tolerance, draw);
      if hint.None? {
        return;
      }
      hintBlock := Some(hint.value.blockId);
      hintDirection := Some(hint.value.direction);
      hintDisabled := true;
    }

    /** The cooldown timer fires: hints are available again. */
    method CooldownExpired()
      modifies this`hintDisabled
      ensures !hintDisabled
    {
      hintDisabled := false;
    }

    /**
     * Makes newPositions current and records it right after the current snapshot,
     * discarding the redo tail; highlights and hint are cleared.
     */
    method Record(newPositions: seq<BlockPosition>)
      requires Valid() && PositionIds(newPositions) == BlockIds(puzzle)
      modifies this
      ensures Valid()
      ensures positions == newPositions
      ensures Timeline() == H.Push(old(Timeline()), newPositions)
      ensures incorrectBlocks == [] && hintBlock.None? && hintDirection.None?
      ensures puzzle == old(puzzle) && activeId == old(activeId)
      ensures showSuccess == old(showSuccess) && hintDisabled == old(hintDisabled)
    {
      var next := H.Push(H.History(history, historyIndex), newPositions);
      PushKeepsIds(Timeline(), newPositions, BlockIds(puzzle));
      history := next.snapshots;
      historyIndex := next.index;
      positions := newPositions;
      incorrectBlocks := [];
      hintBlock := None;
      hintDirection := None;
    }

    /**
     * Drops the block id at its position plus (dx, dy), snapped and clamped, records the
     * new placements (discarding the redo tail, even when nothing moved) and clears
     * highlights and hint.
     */
    method DragEnd(id: string, dx: int, dy: int, measures: Option<Measures>)
      requires Valid()
      modifies this
      ensures Valid()
      ensures positions == Drop(old(positions), id, dx, dy, puzzle, measures, indentWidth, lineHeight)
      ensures Timeline() == H.Push(old(Timeline()), positions)
      ensures activeId.None? && incorrectBlocks == [] && hintBlock.None? && hintDirection.None?
      ensures puzzle == old(puzzle) && showSuccess == old(showSuccess) && hintDisabled == old(hintDisabled)
    {
      activeId := None;
      var newPositions := Drop(positions, id, dx, dy, puzzle, measures, indentWidth, lineHeight);
      assert positions in history;
      Record(newPositions);
    }
  }
}
