/** The lane x timing x voltage grid and the order in which it is swept. */
module Grid {

  datatype Cell = Cell(lane: nat, timing: int, volt: int)

  /** A rectangle of steps: `timings` columns from `left`, `volts` rows from `low`. */
  datatype Window = Window(left: int, timings: nat, low: int, volts: nat)

  /** How many steps range(-max, max + 1) has. */
  function StepsUpTo(max: int): nat {
    if max < 0 then 0 else 2 * max + 1
  }

  /** The window of all steps in [-timingMax, timingMax] x [-voltMax, voltMax]. */
  function FullWindow(timingMax: int, voltMax: int): Window {
    Window(-timingMax, StepsUpTo(timingMax), -voltMax, StepsUpTo(voltMax))
  }

  predicate InWindow(w: Window, timing: int, volt: int) {
    w.left <= timing < w.left + w.timings && w.low <= volt < w.low + w.volts
  }

  // ----- The sweep, built up one cell, one column, one lane at a time -----

  function Column(lane: nat, timing: int, low: int, volts: nat): seq<Cell> {
    if volts == 0 then [] else Column(lane, timing, low, volts - 1) + [Cell(lane, timing, low + volts - 1)]
  }

  function Columns(lane: nat, w: Window, timings: nat): seq<Cell> {
    if timings == 0 then []
    else Columns(lane, w, timings - 1) + Column(lane, w.left + timings - 1, w.low, w.volts)
  }

  function LaneCells(lane: nat, w: Window): seq<Cell> {
    Columns(lane, w, w.timings)
  }

  function AllCells(lane: nat, lanes: nat, w: Window): seq<Cell> {
    if lanes == 0 then [] else AllCells(lane, lanes - 1, w) + LaneCells(lane + lanes - 1, w)
  }

  // ----- Which cell stands where -----

  /** Where the sweep that starts at lane `first` puts a cell. */
  function Index(first: nat, w: Window, c: Cell): int {
    ((c.lane - first) * w.timings + (c.timing - w.left)) * w.volts + (c.volt - w.low)
  }

  predicate InSweep(first: nat, lanes: nat, w: Window, c: Cell) {
    first <= c.lane < first + lanes && InWindow(w, c.timing, c.volt)
  }

  lemma {:induction false} ColumnAt(lane: nat, timing: int, low: int, volts: nat)
    ensures |Column(lane, timing, low, volts)| == volts
    ensures forall i | 0 <= i < volts :: Column(lane, timing, low, volts)[i] == Cell(lane, timing, low + i)
  {
    if volts > 0 {
      ColumnAt(lane, timing, low, volts - 1);
    }
  }

  lemma {:induction false} ColumnsSize(lane: nat, w: Window, timings: nat)
    ensures |Columns(lane, w, timings)| == timings * w.volts
  {
    if timings > 0 {
      ColumnsSize(lane, w, timings - 1);
      ColumnAt(lane, w.left + timings - 1, w.low, w.volts);
      assert timings * w.volts == (timings - 1) * w.volts + w.volts;
    }
  }

  lemma {:induction false} AllCellsSize(lane: nat, lanes: nat, w: Window)
    ensures |AllCells(lane, lanes, w)| == lanes * (w.timings * w.volts)
  {
    if lanes > 0 {
      AllCellsSize(lane, lanes - 1, w);
      ColumnsSize(lane + lanes - 1, w, w.timings);
      OneMore(lanes - 1, w.timings * w.volts);
    }
  }

  lemma OneMore(n: int, k: int)
    ensures (n + 1) * k == n * k + k
  {
  }

  lemma Nested(l: int, timings: int, t: int, volts: int)
    ensures (l * timings + t) * volts == l * (timings * volts) + t * volts
  {
  }

  lemma {:induction false} ColumnsAt(lane: nat, w: Window, timings: nat, t: nat, v: nat)
    requires t < timings && v < w.volts
    ensures t * w.volts + v < |Columns(lane, w, timings)|
    ensures Columns(lane, w, timings)[t * w.volts + v] == Cell(lane, w.left + t, w.low + v)
  {
    ColumnsSize(lane, w, timings - 1);
    ColumnAt(lane, w.left + timings - 1, w.low, w.volts);
    if t < timings - 1 {
      ColumnsAt(lane, w, timings - 1, t, v);
    }
  }

  lemma {:induction false} AllCellsAt(lane: nat, lanes: nat, w: Window, l: nat, t: nat, v: nat)
    requires l < lanes && t < w.timings && v < w.volts
    ensures 0 <= (l * w.timings + t) * w.volts + v < |AllCells(lane, lanes, w)|
    ensures AllCells(lane, lanes, w)[(l * w.timings + t) * w.volts + v] == Cell(lane + l, w.left + t, w.low + v)
  {
    AllCellsSize(lane, lanes - 1, w);
    var i := t * w.volts + v;
    Nested(l, w.timings, t, w.volts);
    if l == lanes - 1 {
      ColumnsAt(lane + l, w, w.timings, t, v);
    } else {
      AllCellsAt(lane, lanes - 1, w, l, t, v);
    }
  }

  /** Every cell of the sweep stands at its index. */
  lemma CellAtIndex(first: nat, lanes: nat, w: Window, c: Cell)
    requires InSweep(first, lanes, w, c)
    ensures 0 <= Index(first, w, c) < |AllCells(first, lanes, w)|
    ensures AllCells(first, lanes, w)[Index(first, w, c)] == c
  {
    AllCellsAt(first, lanes, w, c.lane - first, c.timing - w.left, c.volt - w.low);
  }

  /** Division with remainder; below m * d the quotient stays below m. */
  lemma Divide(n: nat, m: nat, d: nat) returns (q: nat, r: nat)
    requires d > 0 && n < m * d
    ensures n == q * d + r && r < d && q < m
  {
    q, r := n / d, n % d;
    QuotientAndRemainder(n, d);
    if q >= m {
      OrderedProducts(m, q, d);
    }
  }

  lemma OrderedProducts(a: nat, b: nat, d: nat)
    requires a <= b
    ensures a * d <= b * d
  {
  }

  /** The converse: at place i stands a cell of the sweep whose index is i, so no cell stands
      at two places. */
  lemma PlaceHoldsCell(first: nat, lanes: nat, w: Window, i: nat)
    requires i < |AllCells(first, lanes, w)|
    ensures InSweep(first, lanes, w, AllCells(first, lanes, w)[i])
    ensures Index(first, w, AllCells(first, lanes, w)[i]) == i
  {
    AllCellsSize(first, lanes, w);
    ProductPositive(lanes, w.timings, w.volts);
    Nested(lanes, w.timings, 0, w.volts);
    var l, t, v := SplitIndex(i, lanes, w.timings, w.volts);
    AllCellsAt(first, lanes, w, l, t, v);
  }

  lemma SplitIndex(i: nat, lanes: nat, timings: nat, volts: nat) returns (l: nat, t: nat, v: nat)
    requires timings > 0 && volts > 0 && i < (lanes * timings) * volts
    ensures l < lanes && t < timings && v < volts
    ensures i == (l * timings + t) * volts + v
  {
    var q;
    q, v := Divide(i, lanes * timings, volts);
    l, t := Divide(q, lanes, timings);
  }

  lemma QuotientAndRemainder(n: nat, d: nat)
    requires d > 0
    ensures n == n / d * d + n % d && n % d < d
  {
  }

  lemma ProductPositive(a: nat, b: nat, c: nat)
    requires a * (b * c) > 0
    ensures b > 0 && c > 0
  {
  }

  /** The sweep visits exactly the cells of the grid, each once. */
  lemma SweepIsGrid(first: nat, lanes: nat, w: Window)
    ensures forall c :: c in AllCells(first, lanes, w) <==> InSweep(first, lanes, w, c)
    ensures forall i, j | 0 <= i < j < |AllCells(first, lanes, w)| ::
      AllCells(first, lanes, w)[i] != AllCells(first, lanes, w)[j]
  {
    var cells := AllCells(first, lanes, w);
    forall i | 0 <= i < |cells|
      ensures InSweep(first, lanes, w, cells[i]) && Index(first, w, cells[i]) == i
    {
      PlaceHoldsCell(first, lanes, w, i);
    }
    forall c | InSweep(first, lanes, w, c)
      ensures c in cells
    {
      CellAtIndex(first, lanes, w, c);
    }
  }

  // ----- An interrupted sweep -----

  /** The sweep stopped in lane first + l, after t columns and v cells of the next one. */
  function Progress(first: nat, w: Window, l: nat, t: nat, v: nat): seq<Cell> {
    AllCells(first, l, w) + Columns(first + l, w, t) + Column(first + l, w.left + t, w.low, v)
  }

  lemma {:induction false} ColumnPrefix(lane: nat, timing: int, low: int, v: nat, volts: nat)
    requires v <= volts
    ensures Column(lane, timing, low, v) <= Column(lane, timing, low, volts)
  {
    if v < volts {
      ColumnPrefix(lane, timing, low, v, volts - 1);
    }
  }

  lemma {:induction false} ColumnsPrefix(lane: nat, w: Window, t: nat, timings: nat)
    requires t <= timings
    ensures Columns(lane, w, t) <= Columns(lane, w, timings)
  {
    if t < timings {
      ColumnsPrefix(lane, w, t, timings - 1);
    }
  }

  lemma {:induction false} AllCellsPrefix(first: nat, w: Window, l: nat, lanes: nat)
    requires l <= lanes
    ensures AllCells(first, l, w) <= AllCells(first, lanes, w)
  {
    if l < lanes {
      AllCellsPrefix(first, w, l, lanes - 1);
    }
  }

  /** However far it got, an interrupted sweep is a proper prefix of the whole one. */
  lemma ProgressIsPrefix(first: nat, w: Window, lanes: nat, l: nat, t: nat, v: nat)
    requires l < lanes && t < w.timings && v < w.volts
    ensures Progress(first, w, l, t, v) < AllCells(first, lanes, w)
  {
    var lane, timing := first + l, w.left + t;
    ColumnPrefix(lane, timing, w.low, v, w.volts);
    ColumnAt(lane, timing, w.low, v);
    ColumnAt(lane, timing, w.low, w.volts);
    NextColumn(lane, w, t);
    ColumnsPrefix(lane, w, t + 1, w.timings);
    NextLane(first, w, l);
    AllCellsPrefix(first, w, l + 1, lanes);
    hide Column, Columns, AllCells;
    var sofar := Columns(lane, w, t) + Column(lane, timing, w.low, v);
    assert sofar < LaneCells(lane, w);
    assert Progress(first, w, l, t, v) == AllCells(first, l, w) + sofar;
  }

  lemma NextColumn(lane: nat, w: Window, t: nat)
    ensures Columns(lane, w, t + 1) == Columns(lane, w, t) + Column(lane, w.left + t, w.low, w.volts)
  {
  }

  lemma NextLane(first: nat, w: Window, l: nat)
    ensures AllCells(first, l + 1, w) == AllCells(first, l, w) + LaneCells(first + l, w)
  {
  }
}
