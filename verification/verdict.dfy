/** The plotter's decision: filling the grid, finding the eye, and the mask test. */
module Verdict {
  import opened Wrappers
  import opened Grid
  import opened ReportParser

  const INVALID_ERROR_COUNT: int := 999
  const T_EYE_HS_G5_RX: real := 0.3
  const T_EYE_HS_G4_RX: real := 0.48
  const V_DIF_AC_HS_G5_RX: real := 30.0
  const V_DIF_AC_HS_G4_RX: real := 40.0

  // ----- Filling the grid -----

  function KeyOf(c: Cell): Key {
    Key(c.timing, c.volt)
  }

  /** The dictionary after the given cells were visited: a cell without data gets 999. */
  function Fill(data: map<Key, int>, cells: seq<Cell>): map<Key, int> {
    if cells == [] then data
    else
      var before, k := Fill(data, cells[..|cells| - 1]), KeyOf(cells[|cells| - 1]);
      if k in before then before else before[k := INVALID_ERROR_COUNT]
  }

  /** The dictionary after the whole grid of a lane was visited. */
  function Filled(data: map<Key, int>, timingMax: int, voltMax: int): map<Key, int> {
    Fill(data, LaneCells(0, FullWindow(timingMax, voltMax)))
  }

  /** What was parsed keeps its value, every other visited cell holds 999, and nothing else is
      added. */
  lemma {:induction false} FillExact(data: map<Key, int>, cells: seq<Cell>, k: Key)
    ensures k in Fill(data, cells) <==> k in data || exists c :: c in cells && KeyOf(c) == k
    ensures k in data ==> Fill(data, cells)[k] == data[k]
    ensures k in Fill(data, cells) && k !in data ==> Fill(data, cells)[k] == INVALID_ERROR_COUNT
  {
    if cells != [] {
      var before, last := cells[..|cells| - 1], cells[|cells| - 1];
      FillExact(data, before, k);
      assert cells == before + [last];
      assert last in cells;
    }
  }

  predicate InGrid(timingMax: int, voltMax: int, k: Key) {
    -timingMax <= k.timing <= timingMax && -voltMax <= k.volt <= voltMax
  }

  lemma GridOfLane(lane: nat, timingMax: int, voltMax: int, c: Cell)
    ensures c in LaneCells(lane, FullWindow(timingMax, voltMax)) <==>
      c.lane == lane && InGrid(timingMax, voltMax, KeyOf(c))
  {
    var w := FullWindow(timingMax, voltMax);
    assert AllCells(lane, 0, w) == [];
    assert AllCells(lane, 1, w) == [] + LaneCells(lane, w);
    SweepIsGrid(lane, 1, w);
    assert c in AllCells(lane, 1, w) <==> InSweep(lane, 1, w, c);
  }

  /** After the fill the dictionary covers the grid, whichever lane was visited. */
  lemma FilledExact(data: map<Key, int>, lane: nat, timingMax: int, voltMax: int, k: Key)
    ensures
      var filled := Fill(data, LaneCells(lane, FullWindow(timingMax, voltMax)));
      && (k in filled <==> k in data || InGrid(timingMax, voltMax, k))
      && (k in data ==> filled[k] == data[k])
      && (k in filled && k !in data ==> filled[k] == INVALID_ERROR_COUNT)
  {
    var cells := LaneCells(lane, FullWindow(timingMax, voltMax));
    FillExact(data, cells, k);
    GridOfLane(lane, timingMax, voltMax, Cell(lane, k.timing, k.volt));
    forall c | c in cells
      ensures InGrid(timingMax, voltMax, KeyOf(c))
    {
      GridOfLane(lane, timingMax, voltMax, c);
    }
  }

  // ----- The eye's width at zero voltage -----

  datatype Direction = Right | Left

  /** n columns out, in the given direction. */
  function Out(d: Direction, n: int): int {
    if d == Right then n else -n
  }

  /** The grid column n steps from the middle, at zero voltage. */
  function Column0(d: Direction, n: nat): Key {
    Key(Out(d, n), 0)
  }

  predicate HasRow(data: map<Key, int>, timingMax: nat) {
    forall t | 0 - timingMax <= t <= timingMax :: Key(t, 0) in data
  }

  lemma RowHasColumn(data: map<Key, int>, timingMax: nat, d: Direction, n: nat)
    requires HasRow(data, timingMax) && n <= timingMax
    ensures Column0(d, n) in data
  {
  }

  /** The search, from the n-th column on. */
  function BoundaryFrom(data: map<Key, int>, timingMax: nat, d: Direction, n: nat): Option<int>
    requires HasRow(data, timingMax) && n <= timingMax + 1
    decreases timingMax + 1 - n
  {
    if n > timingMax then Some(Out(d, timingMax))
    else
      RowHasColumn(data, timingMax, d, n);
      var errors := data[Column0(d, n)];
      if errors == INVALID_ERROR_COUNT then None
      else if errors > 0 then Some(Out(d, if n > 0 then n - 1 else 0))
      else BoundaryFrom(data, timingMax, d, n + 1)
  }

  function Boundary(data: map<Key, int>, timingMax: nat, d: Direction): Option<int>
    requires HasRow(data, timingMax)
  {
    BoundaryFrom(data, timingMax, d, 0)
  }

  predicate CleanColumn(data: map<Key, int>, d: Direction, n: nat) {
    Column0(d, n) in data && data[Column0(d, n)] <= 0
  }

  predicate ErrorColumn(data: map<Key, int>, d: Direction, n: nat) {
    Column0(d, n) in data && data[Column0(d, n)] > 0 && data[Column0(d, n)] != INVALID_ERROR_COUNT
  }

  predicate MissingColumn(data: map<Key, int>, d: Direction, n: nat) {
    Column0(d, n) in data && data[Column0(d, n)] == INVALID_ERROR_COUNT
  }

  predicate CleanUpTo(data: map<Key, int>, d: Direction, n: nat) {
    forall j: nat | j < n :: CleanColumn(data, d, j)
  }

  /** m columns out lies the far end of the error-free run that starts in the middle: the run
      cannot be extended, or the middle itself has errors and m is 0. */
  predicate MaximalRun(data: map<Key, int>, timingMax: nat, d: Direction, m: nat) {
    && m <= timingMax
    && ((CleanUpTo(data, d, m + 1) && (m < timingMax ==> ErrorColumn(data, d, m + 1)))
        || (m == 0 && ErrorColumn(data, d, 0)))
  }

  lemma CleanAt(data: map<Key, int>, d: Direction, n: nat, j: nat)
    requires CleanUpTo(data, d, n) && j < n
    ensures CleanColumn(data, d, j)
  {
  }

  lemma ErrorFirst(data: map<Key, int>, d: Direction, n: nat, k: nat)
    requires CleanUpTo(data, d, n) && ErrorColumn(data, d, n)
    ensures !(MissingColumn(data, d, k) && CleanUpTo(data, d, k))
  {
    if k < n {
      CleanAt(data, d, n, k);
    } else if n < k && CleanUpTo(data, d, k) {
      CleanAt(data, d, k, n);
    }
  }

  lemma {:induction false} BoundaryFromExact(data: map<Key, int>, timingMax: nat, d: Direction, n: nat)
    requires HasRow(data, timingMax) && n <= timingMax + 1 && CleanUpTo(data, d, n)
    ensures
      var b := BoundaryFrom(data, timingMax, d, n);
      && (b.Some? ==> exists m: nat :: MaximalRun(data, timingMax, d, m) && b.value == Out(d, m))
      && (b.None? <==> exists k: nat :: k <= timingMax && MissingColumn(data, d, k) && CleanUpTo(data, d, k))
    decreases timingMax + 1 - n
  {
    if n > timingMax {
      assert MaximalRun(data, timingMax, d, timingMax);
      forall k: nat | k <= timingMax
        ensures !MissingColumn(data, d, k)
      {
        assert CleanColumn(data, d, k);
      }
    } else {
      RowHasColumn(data, timingMax, d, n);
      var errors := data[Column0(d, n)];
      if errors == INVALID_ERROR_COUNT {
        assert MissingColumn(data, d, n);
      } else if errors > 0 {
        var m := if n > 0 then n - 1 else 0;
        assert ErrorColumn(data, d, n);
        assert MaximalRun(data, timingMax, d, m);
        forall k: nat
          ensures !(MissingColumn(data, d, k) && CleanUpTo(data, d, k))
        {
          ErrorFirst(data, d, n, k);
        }
      } else {
        assert CleanColumn(data, d, n);
        BoundaryFromExact(data, timingMax, d, n + 1);
      }
    }
  }

  lemma CleanInside(data: map<Key, int>, timingMax: nat, d: Direction, m: nat, j: nat)
    requires MaximalRun(data, timingMax, d, m) && j < m
    ensures CleanColumn(data, d, 0) && CleanColumn(data, d, j + 1)
  {
  }

  /** The run's far end is unique. */
  lemma RunUnique(data: map<Key, int>, timingMax: nat, d: Direction, m: nat, k: nat)
    requires MaximalRun(data, timingMax, d, m) && MaximalRun(data, timingMax, d, k)
    ensures m == k
  {
    if m < k {
      CleanInside(data, timingMax, d, k, m);
    } else if k < m {
      CleanInside(data, timingMax, d, m, k);
    }
  }

  /** A search that meets a cell without data has no run to find. */
  lemma NoRun(data: map<Key, int>, timingMax: nat, d: Direction, k: nat, m: nat)
    requires k <= timingMax && MissingColumn(data, d, k) && CleanUpTo(data, d, k)
    ensures !MaximalRun(data, timingMax, d, m)
  {
    if ErrorColumn(data, d, 0) {
      if k > 0 {
        CleanAt(data, d, k, 0);
      }
    } else if CleanUpTo(data, d, m + 1) {
      if k <= m {
        CleanAt(data, d, m + 1, k);
      } else if m + 1 < k {
        CleanAt(data, d, k, m + 1);
      }
    }
  }

  /** The search returns the far end of the error-free run, and nothing exactly when it meets a
      cell without data before any error. */
  lemma BoundaryExact(data: map<Key, int>, timingMax: nat, d: Direction)
    requires HasRow(data, timingMax)
    ensures
      var b := Boundary(data, timingMax, d);
      && (forall m: nat :: MaximalRun(data, timingMax, d, m) ==> b == Some(Out(d, m)))
      && (b.Some? ==> exists m: nat :: MaximalRun(data, timingMax, d, m) && b.value == Out(d, m))
      && (b.None? <==> exists k: nat :: k <= timingMax && MissingColumn(data, d, k) && CleanUpTo(data, d, k))
  {
    BoundaryFromExact(data, timingMax, d, 0);
    var b := Boundary(data, timingMax, d);
    forall m: nat | MaximalRun(data, timingMax, d, m)
      ensures b == Some(Out(d, m))
    {
      if b.None? {
        var k: nat :| k <= timingMax && MissingColumn(data, d, k) && CleanUpTo(data, d, k);
        NoRun(data, timingMax, d, k, m);
      } else {
        var n: nat :| MaximalRun(data, timingMax, d, n) && b.value == Out(d, n);
        RunUnique(data, timingMax, d, m, n);
      }
    }
  }

  // ----- The eye's centre -----

  function Center(left: int, right: int): int {
    left + (right - left + 1) / 2
  }

  function EyeCenter(data: map<Key, int>, timingMax: nat): Option<int>
    requires HasRow(data, timingMax)
  {
    var right, left := Boundary(data, timingMax, Right), Boundary(data, timingMax, Left);
    if right.Some? && left.Some? then Some(Center(left.value, right.value)) else None
  }

  /** The centre lies in the run, and its two sides differ by at most one step. */
  lemma CenterInside(data: map<Key, int>, timingMax: nat)
    requires HasRow(data, timingMax) && EyeCenter(data, timingMax).Some?
    ensures Boundary(data, timingMax, Left).Some? && Boundary(data, timingMax, Right).Some?
    ensures
      var left, right := Boundary(data, timingMax, Left).value, Boundary(data, timingMax, Right).value;
      var c := EyeCenter(data, timingMax).value;
      && 0 - timingMax <= left <= 0 <= right <= timingMax
      && left <= c <= right
      && 0 <= (c - left) - (right - c) <= 1
  {
    BoundaryExact(data, timingMax, Left);
    BoundaryExact(data, timingMax, Right);
  }

  /** No centre is found exactly when, in one direction, a column without data comes before any
      column with errors. */
  lemma NoCenterExactly(data: map<Key, int>, timingMax: nat)
    requires HasRow(data, timingMax)
    ensures EyeCenter(data, timingMax).None? <==>
      exists d, k: nat :: k <= timingMax && MissingColumn(data, d, k) && CleanUpTo(data, d, k)
  {
    BoundaryExact(data, timingMax, Left);
    BoundaryExact(data, timingMax, Right);
  }

  function MirrorKey(k: Key): Key {
    Key(-k.timing, k.volt)
  }

  predicate MirroredAt(a: map<Key, int>, b: map<Key, int>, k: Key) {
    (k in a <==> MirrorKey(k) in b) && (k in a ==> a[k] == b[MirrorKey(k)])
  }

  /** b is a with left and right exchanged. */
  ghost predicate Mirrored(a: map<Key, int>, b: map<Key, int>) {
    forall k :: MirroredAt(a, b, k)
  }

  function Opposite(d: Direction): Direction {
    if d == Right then Left else Right
  }

  /** The searches to the right and to the left are mirror images of each other. */
  lemma {:induction false} BoundaryMirrored(a: map<Key, int>, b: map<Key, int>, timingMax: nat, d: Direction, n: nat)
    requires Mirrored(a, b) && HasRow(a, timingMax) && HasRow(b, timingMax) && n <= timingMax + 1
    ensures
      var x, y := BoundaryFrom(a, timingMax, d, n), BoundaryFrom(b, timingMax, Opposite(d), n);
      x.Some? == y.Some? && (x.Some? ==> y.value == -x.value)
    decreases timingMax + 1 - n
  {
    if n <= timingMax {
      RowHasColumn(a, timingMax, d, n);
      assert MirroredAt(a, b, Column0(d, n));
      assert MirrorKey(Column0(d, n)) == Column0(Opposite(d), n);
      BoundaryMirrored(a, b, timingMax, d, n + 1);
    }
  }

  /** Mirroring a lane maps the centre c to -c when the run has an odd number of columns and to
      1 - c when it has an even number. */
  lemma CenterMirrored(a: map<Key, int>, b: map<Key, int>, timingMax: nat)
    requires Mirrored(a, b) && HasRow(a, timingMax) && HasRow(b, timingMax)
    ensures EyeCenter(a, timingMax).Some? == EyeCenter(b, timingMax).Some?
    ensures EyeCenter(a, timingMax).Some? ==>
      var width := Boundary(a, timingMax, Right).value - Boundary(a, timingMax, Left).value + 1;
      EyeCenter(b, timingMax).value == (if width % 2 == 1 then 0 else 1) - EyeCenter(a, timingMax).value
  {
    BoundaryMirrored(a, b, timingMax, Right, 0);
    BoundaryMirrored(a, b, timingMax, Left, 0);
  }

  // ----- The mask -----

  function Abs(x: real): real {
    if x < 0.0 then -x else x
  }

  /** How far (x, y) is from the centre of the diamond with the given width and half height; 1 is
      the rim. */
  function MaskDistance(x: real, y: real, centerX: real, width: real, height: real): real
    requires width > 0.0 && height > 0.0
  {
    Abs(x - centerX) / (width / 2.0) + Abs(y) / height
  }

  predicate InEyeMask(x: real, y: real, centerX: real, gear: int) {
    if gear == 5 then MaskDistance(x, y, centerX, T_EYE_HS_G5_RX, V_DIF_AC_HS_G5_RX) <= 1.0
    else MaskDistance(x, y, centerX, T_EYE_HS_G4_RX, V_DIF_AC_HS_G4_RX) <= 1.0
  }

  /** A mask test as the plotter evaluates it, on a cell's coordinates, the centre column's and the
      gear. Whatever floating point makes of the inequality, it is a function of these. */
  type Mask = (real, real, real, int) -> bool

  /** Moving towards the centre column never leaves the mask. */
  ghost predicate Convex(mask: Mask) {
    forall near, far, y, centerX, gear | centerX <= near <= far || far <= near <= centerX ::
      mask(far, y, centerX, gear) ==> mask(near, y, centerX, gear)
  }

  lemma ConvexAt(mask: Mask, near: real, far: real, y: real, centerX: real, gear: int)
    requires Convex(mask) && (centerX <= near <= far || far <= near <= centerX) && mask(far, y, centerX, gear)
    ensures mask(near, y, centerX, gear)
  {
  }

  /** The Gear 5 mask lies inside the other one. */
  ghost predicate NestedMask(mask: Mask) {
    forall x, y, centerX, gear | mask(x, y, centerX, 5) :: mask(x, y, centerX, gear)
  }

  lemma NestedAt(mask: Mask, x: real, y: real, centerX: real, gear: int)
    requires NestedMask(mask) && mask(x, y, centerX, 5)
    ensures mask(x, y, centerX, gear)
  {
  }

  lemma MasksNest()
    ensures NestedMask(InEyeMask)
  {
    forall x, y, centerX, gear | InEyeMask(x, y, centerX, 5)
      ensures InEyeMask(x, y, centerX, gear)
    {
      FiveInside(x, y, centerX, gear);
    }
  }

  lemma FiveInside(x: real, y: real, centerX: real, gear: int)
    requires InEyeMask(x, y, centerX, 5)
    ensures InEyeMask(x, y, centerX, gear)
  {
  }

  lemma MaskConvex()
    ensures Convex(InEyeMask)
  {
    forall near, far, y, centerX, gear | (centerX <= near <= far || far <= near <= centerX) && InEyeMask(far, y, centerX, gear)
      ensures InEyeMask(near, y, centerX, gear)
    {
      NearerInside(near, far, y, centerX, gear);
    }
  }

  lemma NearerInside(near: real, far: real, y: real, centerX: real, gear: int)
    requires centerX <= near <= far || far <= near <= centerX
    requires InEyeMask(far, y, centerX, gear)
    ensures InEyeMask(near, y, centerX, gear)
  {
  }

  // ----- The verdict of a lane -----

  /** What the plotter knows about the grid besides the error counts. */
  datatype Scale = Scale(timingMax: int, timingOffset: int, voltMax: int, voltOffset: int, gear: int)

  /** A coordinate, as the plotter computes it from the number of steps, the offset of the last step
      and the step itself. Whatever floating point makes of it, it is a function of these. */
  type Coordinate = (int, int, int) -> real

  /** The coordinate does not run backwards. */
  ghost predicate Monotone(x: Coordinate, steps: int, offset: int) {
    forall a, b | a <= b :: x(steps, offset, a) <= x(steps, offset, b)
  }

  /** Whether a grid cell lies in the mask around the centre column. */
  predicate Masked(x: Coordinate, y: Coordinate, mask: Mask, s: Scale, center: int, k: Key) {
    mask(x(s.timingMax, s.timingOffset, k.timing), y(s.voltMax, s.voltOffset, k.volt),
         x(s.timingMax, s.timingOffset, center), s.gear)
  }

  /** PASS: without a centre nothing is checked; otherwise no cell of the mask has errors. */
  predicate LanePasses(x: Coordinate, y: Coordinate, mask: Mask, s: Scale, filled: map<Key, int>, center: Option<int>) {
    center.Some? ==>
      forall k | k in filled && InGrid(s.timingMax, s.voltMax, k) && Masked(x, y, mask, s, center.value, k) ::
        filled[k] <= 0
  }

  /** PASS leaves no cell of the mask unscanned or with errors. */
  lemma PassCovers(x: Coordinate, y: Coordinate, mask: Mask, s: Scale, data: map<Key, int>, center: int, k: Key)
    requires LanePasses(x, y, mask, s, Filled(data, s.timingMax, s.voltMax), Some(center))
    requires InGrid(s.timingMax, s.voltMax, k) && Masked(x, y, mask, s, center, k)
    ensures k in data && data[k] <= 0
  {
    FilledExact(data, 0, s.timingMax, s.voltMax, k);
  }

  /** For a fixed grid and centre the verdict is monotone: raising counts or dropping cells never
      turns FAIL into PASS. */
  lemma VerdictMonotone(x: Coordinate, y: Coordinate, mask: Mask, s: Scale, good: map<Key, int>,
                        worse: map<Key, int>, center: Option<int>)
    requires forall k | k in worse :: k in good && good[k] <= worse[k]
    requires LanePasses(x, y, mask, s, Filled(worse, s.timingMax, s.voltMax), center)
    ensures LanePasses(x, y, mask, s, Filled(good, s.timingMax, s.voltMax), center)
  {
    var filled := Filled(good, s.timingMax, s.voltMax);
    if center.Some? {
      forall k | k in filled && InGrid(s.timingMax, s.voltMax, k) && Masked(x, y, mask, s, center.value, k)
        ensures filled[k] <= 0
      {
        PassCovers(x, y, mask, s, worse, center.value, k);
        FilledExact(good, 0, s.timingMax, s.voltMax, k);
      }
    }
  }

  /** PASS under the wider mask of the lower gears implies PASS under the Gear 5 mask. */
  lemma PassAtGearFive(x: Coordinate, y: Coordinate, mask: Mask, s: Scale, filled: map<Key, int>, center: Option<int>)
    requires NestedMask(mask) && LanePasses(x, y, mask, s, filled, center)
    ensures LanePasses(x, y, mask, s.(gear := 5), filled, center)
  {
    if center.Some? {
      forall k | InGrid(s.timingMax, s.voltMax, k) && Masked(x, y, mask, s.(gear := 5), center.value, k)
        ensures Masked(x, y, mask, s, center.value, k)
      {
        NestedAt(mask, x(s.timingMax, s.timingOffset, k.timing), y(s.voltMax, s.voltOffset, k.volt),
                 x(s.timingMax, s.timingOffset, center.value), s.gear);
      }
    }
  }

  /** With a centre found, PASS means that every zero-voltage column of the mask lies in the
      error-free run, for any coordinates whose columns are monotone and any convex mask. */
  lemma PassInsideRun(x: Coordinate, y: Coordinate, mask: Mask, s: Scale, data: map<Key, int>, t: int)
    requires s.timingMax >= 0 && s.voltMax >= 0 && Monotone(x, s.timingMax, s.timingOffset) && Convex(mask)
    requires HasRow(data, s.timingMax) && EyeCenter(data, s.timingMax).Some?
    requires LanePasses(x, y, mask, s, data, EyeCenter(data, s.timingMax))
    requires -s.timingMax <= t <= s.timingMax && Masked(x, y, mask, s, EyeCenter(data, s.timingMax).value, Key(t, 0))
    ensures Boundary(data, s.timingMax, Left).value <= t <= Boundary(data, s.timingMax, Right).value
    ensures data[Key(t, 0)] <= 0
  {
    var c := EyeCenter(data, s.timingMax).value;
    CenterInside(data, s.timingMax);
    RunReaches(x, y, mask, s, data, Right, t);
    RunReaches(x, y, mask, s, data, Left, t);
    assert Key(t, 0) in data;
  }

  /** Beyond the end of the run the next column has errors, and it is closer to the centre. */
  lemma RunReaches(x: Coordinate, y: Coordinate, mask: Mask, s: Scale, data: map<Key, int>, d: Direction, t: int)
    requires s.timingMax >= 0 && s.voltMax >= 0 && Monotone(x, s.timingMax, s.timingOffset) && Convex(mask)
    requires HasRow(data, s.timingMax) && EyeCenter(data, s.timingMax).Some?
    requires LanePasses(x, y, mask, s, data, EyeCenter(data, s.timingMax))
    requires -s.timingMax <= t <= s.timingMax && Masked(x, y, mask, s, EyeCenter(data, s.timingMax).value, Key(t, 0))
    ensures Out(d, t) <= Out(d, Boundary(data, s.timingMax, d).value)
  {
    hide LanePasses, Masked, Boundary, EyeCenter, HasRow, CleanUpTo, MaximalRun, MissingColumn, ErrorColumn;
    var c := EyeCenter(data, s.timingMax).value;
    CenterInside(data, s.timingMax);
    BoundaryExact(data, s.timingMax, d);
    var m: nat :| MaximalRun(data, s.timingMax, d, m) && Boundary(data, s.timingMax, d).value == Out(d, m);
    RunEnd(data, s.timingMax, d, m);
    if ErrorColumn(data, d, 0) {
      ErrorInTheMiddle(data, s.timingMax, d);
      NoErrorBefore(x, y, mask, s, data, c, d, 0, t);
    } else if m < s.timingMax {
      NoErrorBefore(x, y, mask, s, data, c, d, m + 1, t);
    }
  }

  lemma RunEnd(data: map<Key, int>, timingMax: nat, d: Direction, m: nat)
    requires MaximalRun(data, timingMax, d, m)
    ensures m <= timingMax
    ensures ErrorColumn(data, d, 0) || m == timingMax || ErrorColumn(data, d, m + 1)
  {
  }

  /** A column with errors keeps the mask from reaching it. */
  lemma NoErrorBefore(x: Coordinate, y: Coordinate, mask: Mask, s: Scale, data: map<Key, int>, c: int, d: Direction,
                      n: nat, t: int)
    requires s.voltMax >= 0 && Monotone(x, s.timingMax, s.timingOffset) && Convex(mask)
    requires LanePasses(x, y, mask, s, data, Some(c)) && n <= s.timingMax
    requires ErrorColumn(data, d, n) && Out(d, c) <= n
    requires Masked(x, y, mask, s, c, Key(t, 0))
    ensures Out(d, t) < n
  {
    if n <= Out(d, t) {
      MaskReaches(x, y, mask, s, c, d, n, t);
    }
  }

  /** The mask covers every column between its centre and one of its columns. */
  lemma MaskReaches(x: Coordinate, y: Coordinate, mask: Mask, s: Scale, c: int, d: Direction, n: nat, t: int)
    requires Monotone(x, s.timingMax, s.timingOffset) && Convex(mask) && Out(d, c) <= n <= Out(d, t)
    requires Masked(x, y, mask, s, c, Key(t, 0))
    ensures Masked(x, y, mask, s, c, Column0(d, n))
  {
    var k := Column0(d, n);
    var tm, to := s.timingMax, s.timingOffset;
    if d == Right {
      assert x(tm, to, c) <= x(tm, to, k.timing) <= x(tm, to, t);
    } else {
      assert x(tm, to, t) <= x(tm, to, k.timing) <= x(tm, to, c);
    }
    hide Convex;
    ConvexAt(mask, x(tm, to, k.timing), x(tm, to, t), y(s.voltMax, s.voltOffset, 0), x(tm, to, c), s.gear);
  }

  /** Errors in the middle column put both boundaries, and the centre, there. */
  lemma ErrorInTheMiddle(data: map<Key, int>, timingMax: nat, d: Direction)
    requires HasRow(data, timingMax) && ErrorColumn(data, d, 0)
    ensures Boundary(data, timingMax, Right) == Boundary(data, timingMax, Left) == EyeCenter(data, timingMax) == Some(0)
  {
  }
}
