/** The history ring `val[X]` and the strip-chart traversal of the main loop:
    which slot each of the X screen columns shows, and the grid pixels each
    column receives. Pixels themselves are not modelled, only indices and rows. */
module StripChart {

  /** Number of slots in the history ring, and of screen columns (X). */
  const X: int := 320

  /** Row of the centre grid line, drawn in every column. */
  const CENTRE_ROW: int := 120
  /** Rows of the secondary grid lines, drawn in every 4th column. */
  const UPPER_ROW: int := 60
  const LOWER_ROW: int := 180

  /** What the chronological window of the ring must hold after the samples
      `h` were recorded into a zero-filled ring of `n` slots: the last `n`
      values of `h`, preceded by zeros while fewer than `n` were recorded. */
  function Window(n: nat, h: seq<int>): (w: seq<int>)
    ensures |w| == n
  {
    (seq(n, _ => 0) + h)[|h|..]
  }

  /** The window always has exactly `n` entries; its newest entries are the
      most recently recorded samples in order, and the rest are zeros. */
  lemma WindowAt(n: nat, h: seq<int>, k: int)
    requires 0 <= k < n
    ensures |Window(n, h)| == n
    ensures k < |h| ==> Window(n, h)[n - 1 - k] == h[|h| - 1 - k]
    ensures k >= |h| ==> Window(n, h)[n - 1 - k] == 0
  {
  }

  /** Recording one more sample drops the oldest entry of the window and
      appends the new one. */
  lemma WindowSnoc(n: nat, h: seq<int>, v: int)
    requires n > 0
    ensures Window(n, h + [v]) == Window(n, h)[1..] + [v]
  {
  }

  /** Three samples recorded into a zero-filled ring of five slots. */
  lemma WindowScenario()
    ensures Window(5, [10, 20, 30]) == [0, 0, 10, 20, 30]
  {
  }

  /** The slot shown at column `x` once the cursor stands at `px`. */
  function SlotAt(px: int, x: int): (s: int)
    requires 0 <= px < X && 0 <= x < X
    ensures 0 <= s < X
  {
    (px + x) % X
  }

  /** The column that shows slot `s`: the inverse of `SlotAt`. */
  function ColumnOf(px: int, s: int): (x: int)
    requires 0 <= px < X && 0 <= s < X
    ensures 0 <= x < X
  {
    (s - px) % X
  }

  /** The traversal visits every slot exactly once: `SlotAt` and `ColumnOf`
      are inverse bijections between columns and slots. */
  lemma TraversalIsBijection(px: int)
    requires 0 <= px < X
    ensures forall x :: 0 <= x < X ==> ColumnOf(px, SlotAt(px, x)) == x
    ensures forall s :: 0 <= s < X ==> SlotAt(px, ColumnOf(px, s)) == s
    ensures forall x, y :: 0 <= x < X && 0 <= y < X && SlotAt(px, x) == SlotAt(px, y) ==> x == y
  {
  }

  /** After the cursor advanced past slot `w`, the rightmost column shows `w`:
      the newest sample is drawn last. */
  lemma NewestInLastColumn(w: int)
    requires 0 <= w < X
    ensures SlotAt((w + 1) % X, X - 1) == w
  {
  }

  /** Advancing the cursor by one shifts every column one slot to the right
      in the ring, and the last column now shows the slot just written. */
  lemma AdvanceShiftsColumns(q: int, x: int)
    requires 0 <= q < X && 0 <= x < X
    ensures x < X - 1 ==> SlotAt((q + 1) % X, x) == SlotAt(q, x + 1) != q
    ensures x == X - 1 ==> SlotAt((q + 1) % X, x) == q
  {
  }

  /** One step of the drawing of a column. */
  datatype Draw = ClearColumn | GridPixel(row: int)

  /** What one column of the chart shows: the ring slot it reads and the
      drawing steps it performs, in order. */
  datatype Column = Column(slot: int, steps: seq<Draw>)

  /** The grid drawn in column `x`: each column is cleared, gets the centre
      line, and every 4th column also gets the two secondary lines. */
  function ColumnSteps(x: int): (d: seq<Draw>)
    ensures |d| > 0 && d[0] == ClearColumn
    ensures GridPixel(CENTRE_ROW) in d
    ensures GridPixel(UPPER_ROW) in d <==> x % 4 == 0
    ensures GridPixel(LOWER_ROW) in d <==> x % 4 == 0
    ensures forall i :: 1 <= i < |d| ==> d[i].GridPixel? && d[i].row in {UPPER_ROW, CENTRE_ROW, LOWER_ROW}
  {
    [ClearColumn, GridPixel(CENTRE_ROW)]
      + (if x % 4 == 0 then [GridPixel(UPPER_ROW), GridPixel(LOWER_ROW)] else [])
  }

  /** The column loop: a second cursor `p` starts at `px` and advances modulo
      X once per screen column. */
  method Traverse(px: int) returns (cols: seq<Column>)
    requires 0 <= px < X
    ensures |cols| == X
    ensures forall x :: 0 <= x < X ==> cols[x].slot == SlotAt(px, x)
    ensures forall x :: 0 <= x < X ==> cols[x].steps == ColumnSteps(x)
  {
    var p := px;
    var x := 0;
    cols := [];
    while x < X
      invariant 0 <= x <= X
      invariant |cols| == x
      invariant p == (px + x) % X
      invariant forall y :: 0 <= y < x ==> cols[y] == Column(SlotAt(px, y), ColumnSteps(y))
    {
      var steps := [ClearColumn, GridPixel(CENTRE_ROW)];
      if x % 4 == 0 {
        steps := steps + [GridPixel(UPPER_ROW), GridPixel(LOWER_ROW)];
      }
      cols := cols + [Column(p, steps)];
      p := (p + 1) % X;
      x := x + 1;
    }
  }
}
