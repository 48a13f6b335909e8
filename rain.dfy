/**
 * The "matrix rain" effect shared by the terminal page and the VNC page:
 * one `Trail` per canvas column, each a fixed column of cells with a
 * bright head that cycles down the column, and the `MatrixRain` object that
 * owns the trails, throttles redraws to one every 50 ms and is started and
 * stopped by its animation-frame handle.
 *
 * `Math.random()` results are parameters (reals in [0, 1)), and so are
 * `Date.now()` and the handle `requestAnimationFrame` returns. Canvas
 * drawing itself (colours, shadows, fonts) is not modelled: `Trail.Draw`
 * reports which rows it writes.
 */
module Rain {
  import opened Base

  /** A value `Math.random()` can return. */
  type Random = r: real | 0.0 <= r < 1.0

  /** `Math.floor(r * n)`: an index below `n`, or 0 when `n` is 0. */
  function Pick(r: Random, n: nat): (k: int)
    ensures n == 0 ==> k == 0
    ensures n > 0 ==> 0 <= k < n
  {
    assert r * n as real <= 1.0 * n as real;
    (r * n as real).Floor
  }

  /** `Math.ceil(a / b)` for a non-negative `a` and positive `b`. */
  function CeilDiv(a: nat, b: int): (q: nat)
    requires b > 0
    ensures (q - 1) * b < a <= q * b
  {
    var q := (a + b - 1) / b;
    var m := (a + b - 1) % b;
    assert q * b + m == a + b - 1;
    assert (q - 1) * b == q * b - b;
    q
  }

  /** A trail's number of rows: enough to cover the canvas, plus two. */
  function RowsFor(canvasHeight: nat, fontSize: int): (rows: nat)
    requires fontSize > 0
    ensures rows >= 2
    ensures (rows - 3) * fontSize < canvasHeight <= (rows - 2) * fontSize
  {
    CeilDiv(canvasHeight, fontSize) + 2
  }

  /** `Math.floor(Math.random() * 20) + 10`: a trail length from 10 to 29. */
  function TrailSize(r: Random): (size: int)
    ensures 10 <= size <= 29
  {
    Pick(r, 20) + 10
  }

  /** `getRandomChar`: one character of the set, or the empty string for an empty set (`charAt` out of range). */
  function RandomChar(chars: string, r: Random): (c: string)
    ensures |c| <= 1
    ensures c == [] <==> chars == []
    ensures c != [] ==> c[0] in chars
  {
    var k := Pick(r, |chars|);
    if k < |chars| then [chars[k]] else ""
  }

  /** A cell of a trail: the character shown, and whether `update` may change it. */
  datatype Cell = Cell(ch: string, mutate: bool)

  /** The cell `build` pushes for one pair of draws: a character, then `Math.random() < 0.5`. */
  function NewCell(chars: string, d: (Random, Random)): Cell
  {
    Cell(RandomChar(chars, d.0), d.1 < 0.5)
  }

  function BuildBody(chars: string, draws: seq<(Random, Random)>): seq<Cell>
  {
    seq(|draws|, i requires 0 <= i < |draws| => NewCell(chars, draws[i]))
  }

  /** `build` gives one cell per draw; each cell's character comes from the set, and half the draws make a mutable cell. */
  lemma BuildBodyShape(chars: string, draws: seq<(Random, Random)>)
    ensures |BuildBody(chars, draws)| == |draws|
    ensures forall i :: 0 <= i < |draws| ==>
      (BuildBody(chars, draws)[i].mutate <==> draws[i].1 < 0.5)
      && (chars != [] ==> |BuildBody(chars, draws)[i].ch| == 1 && BuildBody(chars, draws)[i].ch[0] in chars)
  {
  }

  /** The per-update chance that a mutable cell changes: 0.3 for the binary set, 0.02 otherwise. */
  function MutationRate(isBinary: bool): real {
    if isBinary then 0.3 else 0.02
  }

  /** One cell after `update`: a mutable cell whose first draw is below the rate gets a new character. */
  function Mutated(c: Cell, chars: string, rate: real, d: (Random, Random)): Cell
  {
    if c.mutate && d.0 < rate then c.(ch := RandomChar(chars, d.1)) else c
  }

  function UpdatedBody(body: seq<Cell>, chars: string, rate: real, draws: seq<(Random, Random)>): seq<Cell>
    requires |draws| == |body|
  {
    seq(|body|, i requires 0 <= i < |body| => Mutated(body[i], chars, rate, draws[i]))
  }

  /** `update` keeps the length and every cell's `mutate` flag, and never touches an immutable cell. */
  lemma UpdateOnlyMutatesMutableCells(body: seq<Cell>, chars: string, rate: real, draws: seq<(Random, Random)>)
    requires |draws| == |body|
    ensures |UpdatedBody(body, chars, rate, draws)| == |body|
    ensures forall i :: 0 <= i < |body| ==> UpdatedBody(body, chars, rate, draws)[i].mutate == body[i].mutate
    ensures forall i :: 0 <= i < |body| && !body[i].mutate ==> UpdatedBody(body, chars, rate, draws)[i] == body[i]
    ensures forall i :: 0 <= i < |body| && UpdatedBody(body, chars, rate, draws)[i] != body[i] ==>
      body[i].mutate && draws[i].0 < rate
  {
  }

  /** `draw` gives the head cell, when it lies on the canvas, a new character. */
  function HeadRefreshed(body: seq<Cell>, offset: int, chars: string, r: Random): seq<Cell>
  {
    if 0 <= offset < |body| then body[offset := body[offset].(ch := RandomChar(chars, r))] else body
  }

  /** Only the head row changes, and only its character. */
  lemma HeadRefreshedOnlyHead(body: seq<Cell>, offset: int, chars: string, r: Random)
    ensures |HeadRefreshed(body, offset, chars, r)| == |body|
    ensures forall j :: 0 <= j < |body| && j != offset ==> HeadRefreshed(body, offset, chars, r)[j] == body[j]
    ensures forall j :: 0 <= j < |body| ==> HeadRefreshed(body, offset, chars, r)[j].mutate == body[j].mutate
  {
  }

  /** The integers `lo`, `lo + 1`, ..., `hi - 1` (empty when `hi <= lo`). */
  function Range(lo: int, hi: int): seq<int> {
    seq(Max(hi - lo, 0), k => lo + k)
  }

  /** The rows `draw` writes: from `offset - size + 1` to `offset`, clipped to the canvas rows. */
  function VisibleRows(offset: int, size: int, rows: int): seq<int> {
    Range(Max(offset - size + 1, 0), Min(offset + 1, rows))
  }

  /** A row is drawn exactly when it lies in the trail's window and on the canvas; rows come top to bottom, each once. */
  lemma VisibleRowsWindow(offset: int, size: int, rows: int)
    ensures forall j :: j in VisibleRows(offset, size, rows) <==> offset - size + 1 <= j <= offset && 0 <= j < rows
    ensures forall a, b :: 0 <= a < b < |VisibleRows(offset, size, rows)| ==>
      VisibleRows(offset, size, rows)[a] < VisibleRows(offset, size, rows)[b]
  {
    var v := VisibleRows(offset, size, rows);
    var lo := Max(offset - size + 1, 0);
    forall j | offset - size + 1 <= j <= offset && 0 <= j < rows
      ensures j in v
    {
      assert v[j - lo] == j;
    }
  }

  /** `update`'s offset step: one row further along a cycle of `rows + size` positions. */
  function Advance(offset: int, period: int): int
    requires period > 0
  {
    (offset + 1) % period
  }

  function AdvanceTimes(offset: int, period: int, n: nat): int
    requires period > 0
  {
    if n == 0 then offset else Advance(AdvanceTimes(offset, period, n - 1), period)
  }

  lemma MulAwayFromZero(d: int, p: int)
    requires p > 0
    ensures d == 0 || d * p >= p || d * p <= -p
  {
    if d >= 1 {
      assert d * p == p + (d - 1) * p;
    } else if d <= -1 {
      assert d * p == -p + (d + 1) * p;
    }
  }

  /** Division by a positive number has one quotient and one remainder. */
  lemma DivModUnique(x: int, p: int, q: int, m: int)
    requires p > 0 && 0 <= m < p && x == q * p + m
    ensures x / p == q && x % p == m
  {
    var d := q - x / p;
    assert d * p == q * p - (x / p) * p;
    MulAwayFromZero(d, p);
  }

  lemma ModAddOne(x: int, p: int)
    requires x >= 0 && p > 0
    ensures (x % p + 1) % p == (x + 1) % p
  {
    var q, m := x / p, x % p;
    if m + 1 < p {
      DivModUnique(x + 1, p, q, m + 1);
      DivModUnique(m + 1, p, 0, m + 1);
    } else {
      assert x + 1 == (q + 1) * p + 0;
      DivModUnique(x + 1, p, q + 1, 0);
      DivModUnique(m + 1, p, 1, 0);
    }
  }

  /** After `n` updates the offset is `(offset + n) mod (rows + size)`. */
  lemma {:induction false} AdvanceTimesIs(offset: int, period: int, n: nat)
    requires period > 0 && 0 <= offset < period
    ensures AdvanceTimes(offset, period, n) == (offset + n) % period
  {
    if n == 0 {
      DivModUnique(offset, period, 0, offset);
    } else {
      var prev := AdvanceTimes(offset, period, n - 1);
      assert AdvanceTimes(offset, period, n) == (prev + 1) % period;
      AdvanceTimesIs(offset, period, n - 1);
      ModAddOne(offset + n - 1, period);
    }
  }

  /** Every trail comes back to its starting offset after `rows + size` updates: the rain is periodic. */
  lemma {:induction false} OffsetCycle(offset: int, period: int)
    requires 0 <= offset < period
    ensures AdvanceTimes(offset, period, period) == offset
    ensures forall n: nat :: 0 <= AdvanceTimes(offset, period, n) < period
  {
    AdvanceTimesIs(offset, period, period);
    DivModUnique(offset + period, period, 1, offset);
    forall n: nat
      ensures 0 <= AdvanceTimes(offset, period, n) < period
    {
      AdvanceTimesIs(offset, period, n);
    }
  }

  /** One column of rain. */
  class Trail {
    const column: int
    const fontSize: int
    const canvasHeight: nat
    const rows: nat
    /** `options.size`, fixed when the trail is made. */
    const size: int
    var chars: string
    var body: seq<Cell>
    var isBinary: bool
    /** `options.offset`: the row of the head, running on past the last row while the tail drains. */
    var offset: int

    predicate Valid()
      reads this
    {
      fontSize > 0 && rows == RowsFor(canvasHeight, fontSize) && |body| == rows
      && 10 <= size <= 29 && 0 <= offset < rows + size
    }

    /**
     * `new Trail(column, fontSize, canvasHeight, chars)`: the draws are the
     * trail length, the starting offset, then one pair per row for `build`.
     */
    constructor (column: int, fontSize: int, canvasHeight: nat, chars: string,
                 sizeDraw: Random, offsetDraw: Random, cellDraws: seq<(Random, Random)>)
      requires fontSize > 0
      requires |cellDraws| == RowsFor(canvasHeight, fontSize)
      ensures Valid()
      ensures this.column == column && this.fontSize == fontSize && this.canvasHeight == canvasHeight
      ensures this.chars == chars && !isBinary
      ensures size == TrailSize(sizeDraw)
      ensures offset == Pick(offsetDraw, rows) && 0 <= offset < rows
      ensures body == BuildBody(chars, cellDraws)
    {
      this.column := column;
      this.fontSize := fontSize;
      this.canvasHeight := canvasHeight;
      this.chars := chars;
      rows := RowsFor(canvasHeight, fontSize);
      body := [];
      isBinary := false;
      size := TrailSize(sizeDraw);
      offset := Pick(offsetDraw, RowsFor(canvasHeight, fontSize));
      new;
      Build(cellDraws);
    }

    /** `build`: a fresh body of `rows` cells. */
    method Build(cellDraws: seq<(Random, Random)>)
      requires |cellDraws| == rows
      modifies this
      ensures body == BuildBody(chars, cellDraws)
      ensures chars == old(chars) && isBinary == old(isBinary) && offset == old(offset)
    {
      var cells: seq<Cell> := [];
      var i := 0;
      while i < rows
        invariant 0 <= i <= rows && |cells| == i
        invariant forall k :: 0 <= k < i ==> cells[k] == NewCell(chars, cellDraws[k])
      {
        cells := cells + [NewCell(chars, cellDraws[i])];
        i := i + 1;
      }
      body := cells;
    }

    /**
     * `update`: advance the head one row along its cycle, then give each
     * mutable cell whose draw falls below the mutation rate a new character.
     */
    method Update(draws: seq<(Random, Random)>)
      requires Valid() && |draws| == |body|
      modifies this
      ensures Valid()
      ensures offset == Advance(old(offset), rows + size)
      ensures body == UpdatedBody(old(body), chars, MutationRate(isBinary), draws)
      ensures chars == old(chars) && isBinary == old(isBinary)
    {
      offset := (offset + 1) % (rows + size);
      var rate := MutationRate(isBinary);
      var cells := body;
      var i := 0;
      while i < |cells|
        invariant 0 <= i <= |cells| && |cells| == |body|
        invariant forall k :: 0 <= k < i ==> cells[k] == Mutated(body[k], chars, rate, draws[k])
        invariant forall k :: i <= k < |cells| ==> cells[k] == body[k]
      {
        if cells[i].mutate && draws[i].0 < rate {
          cells := cells[i := cells[i].(ch := RandomChar(chars, draws[i].1))];
        }
        i := i + 1;
      }
      body := cells;
    }

    /**
     * `draw`: walks the `size` rows ending at the head and writes those on
     * the canvas; the head, written last, first gets a new character.
     * `drawn` lists the rows written, in order.
     */
    method Draw(headDraw: Random) returns (drawn: seq<int>)
      requires Valid()
      modifies this
      ensures Valid()
      ensures drawn == VisibleRows(offset, size, rows)
      ensures body == HeadRefreshed(old(body), offset, chars, headDraw)
      ensures offset == old(offset) && chars == old(chars) && isBinary == old(isBinary)
    {
      var lo := offset - size + 1;
      var cells := body;
      drawn := [];
      var i := 0;
      while i < size
        invariant 0 <= i <= size
        invariant drawn == Range(Max(lo, 0), Min(lo + i, rows))
        invariant i < size ==> cells == body
        invariant i == size ==> cells == HeadRefreshed(body, offset, chars, headDraw)
      {
        var index := offset + i - size + 1;
        if 0 <= index < rows {
          assert Range(Max(lo, 0), index + 1) == Range(Max(lo, 0), index) + [index];
          drawn := drawn + [index];
          if i == size - 1 {
            cells := cells[index := cells[index].(ch := RandomChar(chars, headDraw))];
          }
        } else if index < 0 {
          assert Range(Max(lo, 0), Min(index + 1, rows)) == [];
        }
        i := i + 1;
      }
      body := cells;
    }

    /** One trail's turn in a repaint: `trail.update(); trail.draw(ctx);`. */
    method Repaint(mutations: seq<(Random, Random)>, headDraw: Random)
      requires Valid() && |mutations| == |body|
      modifies this
      ensures Valid()
      ensures offset == Advance(old(offset), rows + size)
      ensures body == HeadRefreshed(UpdatedBody(old(body), chars, MutationRate(isBinary), mutations), offset, chars, headDraw)
      ensures chars == old(chars) && isBinary == old(isBinary)
    {
      Update(mutations);
      var _ := Draw(headDraw);
    }
  }

  const FontSize := 16

  /** The redraw throttle, in milliseconds. */
  const FrameDelayMs := 50

  /** Whether `draw` repaints: no usable previous frame time (`!lastFrameTime`), or 50 ms since it. */
  predicate FrameDue(lastFrameTime: Option<int>, now: int) {
    match lastFrameTime
    case None => true
    case Some(t) => t == 0 || now - t >= FrameDelayMs
  }

  /** The times at which a run of `draw` calls repaints, starting from a given last frame time. */
  function Repaints(lastFrameTime: Option<int>, nows: seq<int>): seq<int>
    decreases |nows|
  {
    if nows == [] then []
    else if FrameDue(lastFrameTime, nows[0]) then [nows[0]] + Repaints(Some(nows[0]), nows[1..])
    else Repaints(lastFrameTime, nows[1..])
  }

  /**
   * With a real clock (positive times), repaints are at least 50 ms apart,
   * and the first comes at least 50 ms after an earlier repaint.
   */
  lemma {:induction false} RepaintsAreSpaced(lastFrameTime: Option<int>, nows: seq<int>)
    requires forall k :: 0 <= k < |nows| ==> nows[k] > 0
    requires lastFrameTime.Some? ==> lastFrameTime.value > 0
    ensures forall k :: 0 <= k < |Repaints(lastFrameTime, nows)| ==> Repaints(lastFrameTime, nows)[k] in nows
    ensures lastFrameTime.Some? ==>
      forall k :: 0 <= k < |Repaints(lastFrameTime, nows)| ==> Repaints(lastFrameTime, nows)[k] >= lastFrameTime.value + FrameDelayMs
    ensures forall k :: 0 <= k < |Repaints(lastFrameTime, nows)| - 1 ==>
      Repaints(lastFrameTime, nows)[k] + FrameDelayMs <= Repaints(lastFrameTime, nows)[k + 1]
    decreases |nows|
  {
    if nows != [] {
      var r := Repaints(lastFrameTime, nows);
      if FrameDue(lastFrameTime, nows[0]) {
        var rest := Repaints(Some(nows[0]), nows[1..]);
        RepaintsAreSpaced(Some(nows[0]), nows[1..]);
        assert r == [nows[0]] + rest;
        forall k | 0 <= k < |r| - 1
          ensures r[k] + FrameDelayMs <= r[k + 1]
        {
          if k > 0 {
            assert r[k] == rest[k - 1] && r[k + 1] == rest[k];
          } else {
            assert r[1] == rest[0];
          }
        }
      } else {
        RepaintsAreSpaced(lastFrameTime, nows[1..]);
      }
      forall k | 0 <= k < |r|
        ensures r[k] in nows
      {
        assert nows == [nows[0]] + nows[1..];
      }
    }
  }

  /** The draws one trail consumes when it is made: its length, its offset, and its cells. */
  datatype TrailDraw = TrailDraw(size: Random, offset: Random, cells: seq<(Random, Random)>)

  predicate FitsColumn(d: TrailDraw, canvasHeight: nat) {
    |d.cells| == RowsFor(canvasHeight, FontSize)
  }

  /** The draws one trail consumes in a repaint: `update`'s pair per row, then the head's character. */
  datatype TrailStep = TrailStep(mutations: seq<(Random, Random)>, head: Random)

  /**
   * A trail after its turn in a repaint, against its state before: the
   * head one step further on, the mutable cells redrawn, the head cell
   * given a new character; set and mode as they were.
   */
  twostate predicate Repainted(t: Trail, step: TrailStep)
    reads t
  {
    t.rows + t.size > 0 && |step.mutations| == |old(t.body)|
    && t.offset == Advance(old(t.offset), t.rows + t.size)
    && t.body == HeadRefreshed(
         UpdatedBody(old(t.body), t.chars, MutationRate(t.isBinary), step.mutations),
         t.offset, t.chars, step.head)
    && t.chars == old(t.chars) && t.isBinary == old(t.isBinary)
  }

  /** The rain's trails, character set, mode and canvas size are as they were. */
  twostate predicate SameSettings(r: MatrixRain)
    reads r
  {
    r.trails == old(r.trails) && r.chars == old(r.chars) && r.isBinary == old(r.isBinary)
    && r.width == old(r.width) && r.height == old(r.height)
  }

  /**
   * The rain after one `draw()` at `now`, over the same trails: when a
   * frame was due every trail took its repaint step and the frame time is
   * `now`; otherwise the trails and the frame time are as they were.
   */
  twostate predicate DrewFrame(r: MatrixRain, now: int, steps: seq<TrailStep>)
    reads r, r.trails
  {
    r.trails == old(r.trails) && |steps| == |r.trails|
    && r.lastFrameTime == (if FrameDue(old(r.lastFrameTime), now) then Some(now) else old(r.lastFrameTime))
    && forall i :: 0 <= i < |r.trails| ==>
         if FrameDue(old(r.lastFrameTime), now) then Repainted(r.trails[i], steps[i]) else unchanged(r.trails[i])
  }

  /** No frame ran: the trails, their state and the frame time are as they were. */
  twostate predicate Idle(r: MatrixRain)
    reads r, r.trails
  {
    r.trails == old(r.trails) && r.lastFrameTime == old(r.lastFrameTime)
    && forall i :: 0 <= i < |r.trails| ==> unchanged(r.trails[i])
  }

  /**
   * The rain after `start()`: settings as they were, a frame pending and
   * the canvas shown; if a frame was already pending nothing else changed,
   * otherwise the new handle is `frame` and one `draw()` ran.
   */
  twostate predicate Started(r: MatrixRain, now: int, frame: int, steps: seq<TrailStep>)
    reads r, r.trails
  {
    SameSettings(r) && r.animationId != 0 && r.displayed
    && (old(r.animationId) != 0 ==> r.animationId == old(r.animationId) && r.displayed == old(r.displayed) && Idle(r))
    && (old(r.animationId) == 0 ==> r.animationId == frame && DrewFrame(r, now, steps))
  }

  /**
   * The rain after leaving screensaver mode: settings as they were, out of
   * screensaver mode, and either restarted (a fresh frame handle, the
   * canvas shown, one `draw()`) or stopped (no frame pending, the canvas
   * hidden unless it was shown with no frame pending, nothing drawn).
   */
  twostate predicate LeftScreensaver(r: MatrixRain, restart: bool, now: int, frame: int, steps: seq<TrailStep>)
    reads r, r.trails
  {
    SameSettings(r) && !r.isScreensaver
    && (restart ==> r.animationId == frame && r.displayed && DrewFrame(r, now, steps))
    && (!restart ==> r.animationId == 0 && r.displayed == (old(r.displayed) && old(r.animationId) == 0) && Idle(r))
  }

  /** The canvas's `matrix` rain. */
  class MatrixRain {
    var trails: seq<Trail>
    const fontSize: int
    var isBinary: bool
    var isScreensaver: bool
    var chars: string
    /** The pending animation-frame handle; 0 stands for `null`. */
    var animationId: int
    var lastFrameTime: Option<int>
    /** `canvas.width` and `canvas.height`. */
    var width: nat
    var height: nat
    /** Whether `canvas.style.display` is `block` (shown) rather than `none`. */
    var displayed: bool

    predicate Valid()
      reads this, trails
    {
      fontSize == FontSize && animationId >= 0 && (animationId != 0 ==> displayed)
      && |trails| == width / fontSize
      && (forall i :: 0 <= i < |trails| ==>
            trails[i].Valid() && trails[i].column == i
            && trails[i].fontSize == fontSize && trails[i].canvasHeight == height)
    }

    /** Whether a repaint's draws match the trails one for one. */
    predicate StepsFit(steps: seq<TrailStep>)
      reads this, trails
    {
      |steps| == |trails|
      && forall i :: 0 <= i < |trails| ==>
        |steps[i].mutations| == |trails[i].body|
    }

    /**
     * `new MatrixRain('matrix')`: the full character set (its composition
     * is not modelled), no animation, and trails for a window of the given
     * size. `displayed` is the canvas's initial style.
     */
    constructor (width: nat, height: nat, sampleCharSet: string, draws: seq<TrailDraw>, displayed: bool)
      requires |draws| == width / FontSize && forall i :: 0 <= i < |draws| ==> FitsColumn(draws[i], height)
      ensures Valid() && forall i :: 0 <= i < |trails| ==> fresh(trails[i])
      ensures chars == sampleCharSet && !isBinary && !isScreensaver
      ensures animationId == 0 && lastFrameTime == None && this.displayed == displayed
      ensures this.width == width && this.height == height
      ensures |trails| == |draws| && forall i :: 0 <= i < |trails| ==>
        trails[i].chars == chars && !trails[i].isBinary && trails[i].size == TrailSize(draws[i].size) && trails[i].offset == Pick(draws[i].offset, trails[i].rows)
        && trails[i].body == BuildBody(chars, draws[i].cells)
    {
      trails := [];
      fontSize := FontSize;
      isBinary := false;
      isScreensaver := false;
      chars := sampleCharSet;
      animationId := 0;
      lastFrameTime := None;
      this.width := width;
      this.height := height;
      this.displayed := displayed;
      new;
      Resize(width, height, draws);
    }

    /**
     * `resize`: the canvas takes the window's size, and the trails are
     * replaced by `floor(width / fontSize)` new ones, one per column, each
     * with the current characters and mode.
     */
    method Resize(width: nat, height: nat, draws: seq<TrailDraw>)
      requires fontSize == FontSize && animationId >= 0 && (animationId != 0 ==> displayed)
      requires |draws| == width / FontSize && forall i :: 0 <= i < |draws| ==> FitsColumn(draws[i], height)
      modifies this
      ensures Valid()
      ensures this.width == width && this.height == height
      ensures |trails| == width / fontSize == |draws|
      ensures forall i :: 0 <= i < |trails| ==>
        fresh(trails[i]) && trails[i].column == i && trails[i].chars == chars && trails[i].isBinary == isBinary
        && trails[i].size == TrailSize(draws[i].size) && trails[i].offset == Pick(draws[i].offset, trails[i].rows)
        && trails[i].body == BuildBody(chars, draws[i].cells)
      ensures chars == old(chars) && isBinary == old(isBinary) && isScreensaver == old(isScreensaver)
      ensures animationId == old(animationId) && lastFrameTime == old(lastFrameTime) && displayed == old(displayed)
    {
      this.width := width;
      this.height := height;
      var columns := width / fontSize;
      var set_ := chars;
      var binary := isBinary;
      var ts: seq<Trail> := [];
      var i := 0;
      while i < columns
        modifies {}
        invariant 0 <= i <= columns && |ts| == i
        invariant forall k :: 0 <= k < i ==>
          fresh(ts[k]) && ts[k].Valid() && ts[k].column == k && ts[k].fontSize == fontSize
          && ts[k].canvasHeight == height && ts[k].chars == set_ && ts[k].isBinary == binary
          && ts[k].size == TrailSize(draws[k].size) && ts[k].offset == Pick(draws[k].offset, ts[k].rows)
          && ts[k].body == BuildBody(set_, draws[k].cells)
      {
        var d := draws[i];
        var t := new Trail(i, fontSize, height, set_, d.size, d.offset, d.cells);
        t.isBinary := binary;
        ts := ts + [t];
        i := i + 1;
      }
      trails := ts;
    }

    /**
     * `setCharSet(type)`: binary mode exactly for `'binary'`, with the set
     * `01`; otherwise the full set. Every trail takes the new set and mode.
     */
    method SetCharSet(kind: string, sampleCharSet: string)
      requires Valid()
      modifies this, trails
      ensures Valid()
      ensures isBinary <==> kind == "binary"
      ensures chars == if kind == "binary" then "01" else sampleCharSet
      ensures trails == old(trails)
      ensures forall i :: 0 <= i < |trails| ==>
        trails[i].chars == chars && trails[i].isBinary == isBinary
        && trails[i].body == old(trails[i].body) && trails[i].offset == old(trails[i].offset)
      ensures isScreensaver == old(isScreensaver) && width == old(width) && height == old(height)
      ensures animationId == old(animationId) && lastFrameTime == old(lastFrameTime) && displayed == old(displayed)
    {
      isBinary := kind == "binary";
      chars := if isBinary then "01" else sampleCharSet;
      RetagTrails();
    }

    /** The `forEach` of `setCharSet`: every trail takes the rain's set and mode, in column order. */
    method RetagTrails()
      requires Valid()
      modifies trails
      ensures Valid()
      ensures forall i :: 0 <= i < |trails| ==>
        trails[i].chars == chars && trails[i].isBinary == isBinary
        && trails[i].body == old(trails[i].body) && trails[i].offset == old(trails[i].offset)
    {
      var i := 0;
      while i < |trails|
        invariant 0 <= i <= |trails|
        invariant forall k :: 0 <= k < i ==> trails[k].chars == chars && trails[k].isBinary == isBinary
        invariant forall k :: 0 <= k < |trails| ==>
          trails[k].body == old(trails[k].body) && trails[k].offset == old(trails[k].offset)
        invariant Valid()
      {
        trails[i].chars := chars;
        trails[i].isBinary := isBinary;
        i := i + 1;
      }
    }

    /**
     * `draw()`: when a repaint is due, every trail is updated and drawn in
     * column order and the frame time is recorded; in any case the next
     * frame is requested and its handle (`frame`, never 0) kept.
     */
    method Draw(now: int, frame: int, steps: seq<TrailStep>) returns (repainted: bool)
      requires Valid() && frame > 0 && StepsFit(steps) && displayed
      modifies this, trails
      ensures Valid() && SameSettings(this)
      ensures repainted <==> FrameDue(old(lastFrameTime), now)
      ensures DrewFrame(this, now, steps)
      ensures animationId == frame
      ensures isScreensaver == old(isScreensaver) && displayed == old(displayed)
    {
      repainted := FrameDue(lastFrameTime, now);
      if repainted {
        RepaintTrails(steps);
        lastFrameTime := Some(now);
      }
      animationId := frame;
    }

    /** The `forEach` of `draw`: `update` then `draw` on each trail, in column order. */
    method RepaintTrails(steps: seq<TrailStep>)
      requires Valid() && StepsFit(steps)
      modifies trails
      ensures Valid()
      ensures forall i :: 0 <= i < |trails| ==> Repainted(trails[i], steps[i])
    {
      var i := 0;
      while i < |trails|
        invariant 0 <= i <= |trails|
        invariant Valid()
        invariant forall k :: 0 <= k < i ==> Repainted(trails[k], steps[k])
        invariant forall k :: i <= k < |trails| ==> unchanged(trails[k])
      {
        trails[i].Repaint(steps[i].mutations, steps[i].head);
        i := i + 1;
      }
    }

    /** `start()`: only when no frame is pending, show the canvas and draw. */
    method Start(now: int, frame: int, steps: seq<TrailStep>)
      requires Valid() && frame > 0 && StepsFit(steps)
      modifies this, trails
      ensures Valid() && isScreensaver == old(isScreensaver)
      ensures Started(this, now, frame, steps)
    {
      if animationId == 0 {
        displayed := true;
        var _ := Draw(now, frame, steps);
      }
    }

    /** `stop()`: only when a frame is pending, cancel it, clear the handle and hide the canvas. */
    method Stop()
      requires Valid()
      modifies this
      ensures Valid() && SameSettings(this)
      ensures animationId == 0
      ensures displayed == (old(displayed) && old(animationId) == 0)
      ensures isScreensaver == old(isScreensaver) && lastFrameTime == old(lastFrameTime)
    {
      if animationId != 0 {
        animationId := 0;
        displayed := false;
      }
    }

    /**
     * The block both branches of `resetScreensaverTimer` share: note
     * whether the screensaver was on, stop, leave screensaver mode, and
     * (with effects on) start again in the background.
     */
    method LeaveScreensaver(restart: bool, now: int, frame: int, steps: seq<TrailStep>) returns (wasScreensaver: bool)
      requires Valid() && frame > 0 && StepsFit(steps)
      modifies this, trails
      ensures Valid() && wasScreensaver == old(isScreensaver)
      ensures LeftScreensaver(this, restart, now, frame, steps)
    {
      wasScreensaver := isScreensaver;
      Stop();
      isScreensaver := false;
      label stopped:
      if restart {
        Start(now, frame, steps);
        assert forall i :: 0 <= i < |trails| ==> unchanged@stopped(trails[i]) ==> unchanged(trails[i]);
      }
    }

    /** The pending `requestAnimationFrame` callback: it runs `draw` unless `stop` cancelled it. */
    method AnimationFrame(now: int, frame: int, steps: seq<TrailStep>)
      requires Valid() && frame > 0 && StepsFit(steps)
      modifies this, trails
      ensures Valid() && SameSettings(this)
      ensures isScreensaver == old(isScreensaver) && displayed == old(displayed)
      ensures old(animationId) == 0 ==> animationId == 0 && Idle(this)
      ensures old(animationId) != 0 ==> animationId == frame && DrewFrame(this, now, steps)
    {
      if animationId != 0 {
        var _ := Draw(now, frame, steps);
      }
    }
  }
}
