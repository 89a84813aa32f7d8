/** The plotter `ufs-eom-plot.py` without its drawing: it reads a report, fills the grid, finds
    each lane's eye centre and decides PASS or FAIL. */
module Plot {
  import opened Wrappers
  import opened Grid
  import opened Decimal
  import opened Text
  import opened ReportParser
  import opened Verdict

  /** Raised: an exception. Exited: the program quits with a message. NoVerdict: open_file
      returns nothing. */
  datatype Outcome = Raised | Exited | NoVerdict | Decided(pass: bool)

  // ----- What the outcome should be -----

  function ScaleOf(st: ParseState): Scale {
    Scale(st.timingMaxSteps, st.timingMaxOffset, st.voltageMaxSteps, st.voltageMaxOffset, st.gear)
  }

  function LaneData(st: ParseState, lane: int): map<Key, int> {
    if lane == 0 then st.lane0 else st.lane1
  }

  lemma FilledHasRow(data: map<Key, int>, timingMax: nat, voltMax: nat)
    ensures HasRow(Filled(data, timingMax, voltMax), timingMax)
  {
    forall t | 0 - timingMax <= t <= timingMax
      ensures Key(t, 0) in Filled(data, timingMax, voltMax)
    {
      FilledExact(data, 0, timingMax, voltMax, Key(t, 0));
    }
  }

  predicate HasGrid(st: ParseState) {
    st.timingMaxSteps >= 0 && st.voltageMaxSteps >= 0
  }

  function FilledLane(st: ParseState, lane: int): map<Key, int> {
    Filled(LaneData(st, lane), st.timingMaxSteps, st.voltageMaxSteps)
  }

  function LaneCenter(st: ParseState, lane: int): Option<int>
    requires HasGrid(st)
  {
    FilledHasRow(LaneData(st, lane), st.timingMaxSteps, st.voltageMaxSteps);
    EyeCenter(FilledLane(st, lane), st.timingMaxSteps)
  }

  /** The end of the lane's error-free run in one direction. */
  function LaneBoundary(st: ParseState, lane: int, d: Direction): Option<int>
    requires HasGrid(st)
  {
    FilledHasRow(LaneData(st, lane), st.timingMaxSteps, st.voltageMaxSteps);
    Boundary(FilledLane(st, lane), st.timingMaxSteps, d)
  }

  /** The verdict on a lane's data. */
  predicate PassOf(x: Coordinate, y: Coordinate, mask: Mask, s: Scale, data: map<Key, int>)
    requires s.timingMax >= 0 && s.voltMax >= 0
  {
    FilledHasRow(data, s.timingMax, s.voltMax);
    var filled := Filled(data, s.timingMax, s.voltMax);
    LanePasses(x, y, mask, s, filled, EyeCenter(filled, s.timingMax))
  }

  predicate LaneVerdict(x: Coordinate, y: Coordinate, mask: Mask, st: ParseState, lane: int)
    requires HasGrid(st)
  {
    PassOf(x, y, mask, ScaleOf(st), LaneData(st, lane))
  }

  // ----- What a picture says -----

  /** What is decided about a lane when its picture is drawn: whether it has a centre, whether the mask
      around it has a cell without data, and the verdict. */
  datatype Judgement = Judgement(centered: bool, skipped: bool, pass: bool)

  /** The mask has a cell that was not scanned, or that counts as such. */
  predicate LaneSkips(x: Coordinate, y: Coordinate, mask: Mask, s: Scale, filled: map<Key, int>, center: Option<int>) {
    center.Some? && exists k | k in filled && InGrid(s.timingMax, s.voltMax, k) ::
      Masked(x, y, mask, s, center.value, k) && filled[k] == INVALID_ERROR_COUNT
  }

  function JudgementOf(x: Coordinate, y: Coordinate, mask: Mask, s: Scale, data: map<Key, int>): Judgement
    requires s.timingMax >= 0 && s.voltMax >= 0
  {
    FilledHasRow(data, s.timingMax, s.voltMax);
    var filled := Filled(data, s.timingMax, s.voltMax);
    var center := EyeCenter(filled, s.timingMax);
    Judgement(center.Some?, LaneSkips(x, y, mask, s, filled, center), PassOf(x, y, mask, s, data))
  }

  function JudgedLanes(x: Coordinate, y: Coordinate, mask: Mask, st: ParseState, lanes: seq<int>): seq<Judgement>
    requires HasGrid(st)
  {
    if lanes == [] then []
    else
      JudgedLanes(x, y, mask, st, lanes[..|lanes| - 1])
      + [JudgementOf(x, y, mask, ScaleOf(st), LaneData(st, lanes[|lanes| - 1]))]
  }

  /** The lanes of a file that are drawn: all of them, or none. */
  ghost function Judged(x: Coordinate, y: Coordinate, mask: Mask, st: ParseState): seq<Judgement> {
    if !Good(st) || st.timingStep == 0.0 || st.voltageStep == 0.0 then []
    else if !HasGrid(st) || GridCollides(x, y, ScaleOf(st)) then []
    else JudgedLanes(x, y, mask, st, st.laneList)
  }

  predicate AnySkipped(judged: seq<Judgement>) {
    exists i | 0 <= i < |judged| :: judged[i].skipped
  }

  /** The label on the i-th picture: none without a centre, and none once a mask had a cell without
      data, be it this lane's or that of a lane drawn before. */
  function LabelOf(judged: seq<Judgement>, i: nat): Option<bool>
    requires i < |judged|
  {
    if judged[i].centered && !AnySkipped(judged[..i + 1]) then Some(judged[i].pass) else None
  }

  /** A mask with a cell without data takes the label from every picture from then on, whether the
      lane passes or not. */
  lemma NoLabelAfterSkip(judged: seq<Judgement>, i: nat, j: nat)
    requires i <= j < |judged| && judged[i].skipped
    ensures LabelOf(judged, j) == None
  {
    assert judged[..j + 1][i].skipped;
  }

  /** A label speaks of recorded counts alone: PASS means that every cell of the mask was recorded
      without errors, FAIL that one was recorded with errors. */
  lemma LabelMeans(x: Coordinate, y: Coordinate, mask: Mask, s: Scale, data: map<Key, int>, judged: seq<Judgement>,
                   i: nat)
    requires s.timingMax >= 0 && s.voltMax >= 0
    requires i < |judged| && judged[i] == JudgementOf(x, y, mask, s, data) && LabelOf(judged, i).Some?
    ensures HasRow(Filled(data, s.timingMax, s.voltMax), s.timingMax)
    ensures
      var center := EyeCenter(Filled(data, s.timingMax, s.voltMax), s.timingMax);
      && center.Some?
      && (LabelOf(judged, i).value <==>
           forall k | InGrid(s.timingMax, s.voltMax, k) && Masked(x, y, mask, s, center.value, k) ::
             k in data && data[k] <= 0)
      && (!LabelOf(judged, i).value <==>
           exists k :: InGrid(s.timingMax, s.voltMax, k) && Masked(x, y, mask, s, center.value, k)
             && k in data && data[k] > 0)
  {
    FilledHasRow(data, s.timingMax, s.voltMax);
    var filled := Filled(data, s.timingMax, s.voltMax);
    var center := EyeCenter(filled, s.timingMax);
    hide Filled, Masked, EyeCenter, HasRow;
    assert judged[..i + 1][i] == judged[i];
    assert !LaneSkips(x, y, mask, s, filled, center);
    forall k | InGrid(s.timingMax, s.voltMax, k) && Masked(x, y, mask, s, center.value, k)
      ensures k in data && k in filled && filled[k] == data[k]
    {
      FilledExact(data, 0, s.timingMax, s.voltMax, k);
    }
  }

  /** A mask is skipped exactly when one of its cells was not recorded, or with the count that marks a
      gap. */
  lemma SkipsExactly(x: Coordinate, y: Coordinate, mask: Mask, s: Scale, data: map<Key, int>, center: Option<int>)
    ensures LaneSkips(x, y, mask, s, Filled(data, s.timingMax, s.voltMax), center) <==>
      && center.Some?
      && exists k :: (
           && InGrid(s.timingMax, s.voltMax, k) && Masked(x, y, mask, s, center.value, k)
           && (k !in data || data[k] == INVALID_ERROR_COUNT))
  {
    var filled := Filled(data, s.timingMax, s.voltMax);
    hide Fill, LaneCells, Masked;
    forall k | InGrid(s.timingMax, s.voltMax, k)
      ensures k in filled
      ensures filled[k] == INVALID_ERROR_COUNT <==> k !in data || data[k] == INVALID_ERROR_COUNT
    {
      FilledExact(data, 0, s.timingMax, s.voltMax, k);
    }
  }

  /** Every cell of the lane's mask was recorded, with a count that does not mark a gap. */
  ghost predicate MaskRecorded(x: Coordinate, y: Coordinate, mask: Mask, st: ParseState, lane: int)
    requires HasGrid(st)
  {
    LaneCenter(st, lane).Some? ==>
      forall k | InGrid(st.timingMaxSteps, st.voltageMaxSteps, k)
          && Masked(x, y, mask, ScaleOf(st), LaneCenter(st, lane).value, k) ::
        k in LaneData(st, lane) && LaneData(st, lane)[k] != INVALID_ERROR_COUNT
  }

  lemma {:induction false} JudgedLanesAt(x: Coordinate, y: Coordinate, mask: Mask, st: ParseState, lanes: seq<int>)
    requires HasGrid(st)
    ensures |JudgedLanes(x, y, mask, st, lanes)| == |lanes|
    ensures forall i | 0 <= i < |lanes| ::
      JudgedLanes(x, y, mask, st, lanes)[i] == JudgementOf(x, y, mask, ScaleOf(st), LaneData(st, lanes[i]))
  {
    hide JudgementOf;
    if lanes != [] {
      JudgedLanesAt(x, y, mask, st, lanes[..|lanes| - 1]);
    }
  }

  /** The labels of the first file that is read: a lane has one exactly when it has a centre and the masks
      of this lane and of those before it were recorded in full; it shows the lane's verdict. */
  lemma FirstFileLabels(x: Coordinate, y: Coordinate, mask: Mask, st: ParseState, i: nat)
    requires HasGrid(st) && i < |st.laneList|
    ensures |JudgedLanes(x, y, mask, st, st.laneList)| == |st.laneList|
    ensures
      var drawn := LabelOf(JudgedLanes(x, y, mask, st, st.laneList), i);
      && (drawn.Some? <==>
           LaneCenter(st, st.laneList[i]).Some? && forall j | 0 <= j <= i :: MaskRecorded(x, y, mask, st, st.laneList[j]))
      && (drawn.Some? ==> drawn.value == LaneVerdict(x, y, mask, st, st.laneList[i]))
  {
    var lanes, judged := st.laneList, JudgedLanes(x, y, mask, st, st.laneList);
    JudgedLanesAt(x, y, mask, st, lanes);
    hide JudgedLanes, Masked, PassOf, Filled, EyeCenter, LaneSkips;
    forall j | 0 <= j <= i
      ensures judged[j].skipped <==> !MaskRecorded(x, y, mask, st, lanes[j])
      ensures judged[j].centered <==> LaneCenter(st, lanes[j]).Some?
    {
      SkipsExactly(x, y, mask, ScaleOf(st), LaneData(st, lanes[j]), LaneCenter(st, lanes[j]));
    }
    assert forall j | 0 <= j <= i :: judged[..i + 1][j] == judged[j];
  }

  // ----- Where the cells are drawn -----

  /** Two cells of the grid are drawn at the same place. */
  ghost predicate GridCollides(x: Coordinate, y: Coordinate, s: Scale) {
    exists a, b | InGrid(s.timingMax, s.voltMax, a) && InGrid(s.timingMax, s.voltMax, b) && a != b ::
      SamePlace(x, y, s, a, b)
  }

  predicate SamePlace(x: Coordinate, y: Coordinate, s: Scale, a: Key, b: Key) {
    && x(s.timingMax, s.timingOffset, a.timing) == x(s.timingMax, s.timingOffset, b.timing)
    && y(s.voltMax, s.voltOffset, a.volt) == y(s.voltMax, s.voltOffset, b.volt)
  }

  /** Columns and rows that all differ keep the cells apart. */
  lemma ApartUnlessSame(x: Coordinate, y: Coordinate, s: Scale)
    requires s.timingMax >= 0 && s.voltMax >= 0
    ensures !GridCollides(x, y, s) <==>
      && (forall a, b | -s.timingMax <= a < b <= s.timingMax ::
            x(s.timingMax, s.timingOffset, a) != x(s.timingMax, s.timingOffset, b))
      && (forall a, b | -s.voltMax <= a < b <= s.voltMax ::
            y(s.voltMax, s.voltOffset, a) != y(s.voltMax, s.voltOffset, b))
  {
    forall a, b | -s.timingMax <= a < b <= s.timingMax
        && x(s.timingMax, s.timingOffset, a) == x(s.timingMax, s.timingOffset, b)
      ensures GridCollides(x, y, s)
    {
      assert SamePlace(x, y, s, Key(a, 0), Key(b, 0));
    }
    forall a, b | -s.voltMax <= a < b <= s.voltMax && y(s.voltMax, s.voltOffset, a) == y(s.voltMax, s.voltOffset, b)
      ensures GridCollides(x, y, s)
    {
      assert SamePlace(x, y, s, Key(0, a), Key(0, b));
    }
  }

  /** What the plotter makes of a file: `x` and `y` are the coordinates it computes. The pivot that
      lays out the picture raises when two cells have the same coordinates. */
  ghost function Evaluate(x: Coordinate, y: Coordinate, mask: Mask, st: ParseState): Outcome {
    match st.status
    case Crashed => Raised
    case Unsupported => Decided(false)
    case Quit => Exited
    case Running =>
      if st.badDataCount != 0 then NoVerdict
      else if st.timingStep == 0.0 || st.voltageStep == 0.0 then Exited
      else if st.laneList == [] then Decided(true)
      else if !HasGrid(st) || GridCollides(x, y, ScaleOf(st)) then Raised
      else Decided(forall lane | lane in st.laneList :: LaneVerdict(x, y, mask, st, lane))
  }

  /** A file read without a bad line names only the lanes 0 and 1, each once. */
  predicate LanesKnown(st: ParseState) {
    && (Good(st) ==> forall lane | lane in st.laneList :: lane == 0 || lane == 1)
    && forall i, j | 0 <= i < j < |st.laneList| :: st.laneList[i] != st.laneList[j]
  }

  lemma LineKeepsLanesKnown(st: ParseState, line: string)
    requires LanesKnown(st)
    ensures LanesKnown(ParseLine(st, line))
  {
    hide HeaderPart, Split, PyInt, StringToNumber, GearFrom;
    var before := HeaderPart(st, line);
    if Good(ParseLine(st, line)) {
      assert Good(before) && Good(st);
    }
  }

  lemma {:induction false} ParsingKeepsLanesKnown(lines: seq<string>)
    ensures LanesKnown(ParseLines(INITIAL, lines))
  {
    hide ParseLine;
    if lines != [] {
      ParsingKeepsLanesKnown(lines[..|lines| - 1]);
      LineKeepsLanesKnown(ParseLines(INITIAL, lines[..|lines| - 1]), lines[|lines| - 1]);
    }
  }

  // ----- The lists of a lane -----

  datatype LaneLists = LaneLists(timings: seq<int>, volts: seq<int>, errors: seq<int>)

  /** The lists run through the cells in step and agree with the dictionary. */
  predicate Aligned(lists: LaneLists, data: map<Key, int>, cells: seq<Cell>) {
    && |lists.timings| == |lists.volts| == |lists.errors| == |cells|
    && forall i | 0 <= i < |cells| ::
      && lists.timings[i] == cells[i].timing && lists.volts[i] == cells[i].volt
      && KeyOf(cells[i]) in data && lists.errors[i] == data[KeyOf(cells[i])]
  }

  function GridCells(timingMax: int, voltMax: int): seq<Cell> {
    LaneCells(0, FullWindow(timingMax, voltMax))
  }

  function Least(s: seq<int>): int
    requires s != []
  {
    if |s| == 1 then s[0] else if s[0] < Least(s[1..]) then s[0] else Least(s[1..])
  }

  function Greatest(s: seq<int>): int
    requires s != []
  {
    if |s| == 1 then s[0] else if s[0] > Greatest(s[1..]) then s[0] else Greatest(s[1..])
  }

  lemma {:induction false} LeastIs(s: seq<int>, x: int)
    requires x in s && forall y | y in s :: x <= y
    ensures Least(s) == x
  {
    assert s[0] in s;
    if |s| > 1 {
      assert s == [s[0]] + s[1..];
      assert forall y | y in s[1..] :: y in s;
      if x in s[1..] {
        LeastIs(s[1..], x);
      } else {
        LeastIn(s[1..]);
        assert x == s[0];
      }
    }
  }

  lemma {:induction false} LeastIn(s: seq<int>)
    requires s != []
    ensures Least(s) in s
  {
    if |s| > 1 {
      LeastIn(s[1..]);
    }
  }

  lemma {:induction false} GreatestIs(s: seq<int>, x: int)
    requires x in s && forall y | y in s :: y <= x
    ensures Greatest(s) == x
  {
    assert s[0] in s;
    if |s| > 1 {
      assert s == [s[0]] + s[1..];
      assert forall y | y in s[1..] :: y in s;
      if x in s[1..] {
        GreatestIs(s[1..], x);
      } else {
        GreatestIn(s[1..]);
        assert x == s[0];
      }
    }
  }

  lemma {:induction false} GreatestIn(s: seq<int>)
    requires s != []
    ensures Greatest(s) in s
  {
    if |s| > 1 {
      GreatestIn(s[1..]);
    }
  }

  /** How many of the cells have no data. */
  function CountMissing(data: map<Key, int>, cells: seq<Cell>): nat {
    if cells == [] then 0
    else CountMissing(data, cells[..|cells| - 1]) + if KeyOf(cells[|cells| - 1]) in data then 0 else 1
  }

  lemma {:induction false} NothingMissing(data: map<Key, int>, cells: seq<Cell>)
    ensures CountMissing(data, cells) == 0 <==> forall c | c in cells :: KeyOf(c) in data
  {
    if cells != [] {
      NothingMissing(data, cells[..|cells| - 1]);
      assert cells == cells[..|cells| - 1] + [cells[|cells| - 1]];
    }
  }

  /** The window validate_data looks at. The source's range leaves out the last column. */
  function CheckedWindow(lists: LaneLists): Window
    requires lists.timings != [] && lists.volts != []
  {
    LeastIn(lists.timings);
    LeastIn(lists.volts);
    GreatestBound(lists.timings);
    GreatestBound(lists.volts);
    Window(Least(lists.timings), Greatest(lists.timings) - Least(lists.timings),
           Least(lists.volts), Greatest(lists.volts) - Least(lists.volts) + 1)
  }

  lemma {:induction false} GreatestBound(s: seq<int>)
    requires s != []
    ensures forall y | y in s :: y <= Greatest(s)
  {
    if |s| > 1 {
      GreatestBound(s[1..]);
      assert s == [s[0]] + s[1..];
    }
  }

  // ----- Filling and checking one lane -----

  /** Visits the whole grid: appends to the three lists, and enters 999 where there is no data. */
  method FillGrid(data: map<Key, int>, timingMax: int, voltMax: int) returns (filled: map<Key, int>, lists: LaneLists)
    ensures filled == Filled(data, timingMax, voltMax)
    ensures Aligned(lists, filled, GridCells(timingMax, voltMax))
  {
    VisitedStart(data);
    hide Fill, Aligned, Column, Columns;
    ghost var w := FullWindow(timingMax, voltMax);
    filled, lists := data, LaneLists([], [], []);
    var timing := -timingMax;
    ColumnsStep(w, 0);
    while timing < timingMax + 1
      invariant timingMax >= 0 ==> -timingMax <= timing <= timingMax + 1
      invariant timingMax < 0 ==> timing == -timingMax
      invariant Visited(data, filled, lists, Columns(0, w, Steps(timing + timingMax, timingMax)))
    {
      filled, lists := FillColumn(data, filled, lists, timing, voltMax, Columns(0, w, timing + timingMax));
      ColumnsStep(w, timing + timingMax);
      timing := timing + 1;
    }
  }

  lemma ColumnsStep(w: Window, t: nat)
    ensures Columns(0, w, 0) == []
    ensures Columns(0, w, t + 1) == Columns(0, w, t) + Column(0, w.left + t, w.low, w.volts)
  {
  }

  lemma ColumnStep(timing: int, low: int, v: nat)
    ensures Column(0, timing, low, 0) == []
    ensures Column(0, timing, low, v + 1) == Column(0, timing, low, v) + [Cell(0, timing, low + v)]
  {
  }

  /** The inner loop of the fill: one column. */
  method FillColumn(data: map<Key, int>, before: map<Key, int>, sofar: LaneLists, timing: int, voltMax: int,
                    ghost columns: seq<Cell>)
    returns (filled: map<Key, int>, lists: LaneLists)
    requires Visited(data, before, sofar, columns)
    ensures Visited(data, filled, lists, columns + Column(0, timing, -voltMax, StepsUpTo(voltMax)))
  {
    hide Visited, Column;
    filled := before;
    var timings, volts, errors := sofar.timings, sofar.volts, sofar.errors;
    var voltage := -voltMax;
    ColumnStep(timing, -voltMax, 0);
    assert columns + [] == columns;
    while voltage < voltMax + 1
      invariant voltMax >= 0 ==> -voltMax <= voltage <= voltMax + 1
      invariant voltMax < 0 ==> voltage == -voltMax
      invariant Visited(data, filled, LaneLists(timings, volts, errors),
                        columns + Column(0, timing, -voltMax, Steps(voltage + voltMax, voltMax)))
    {
      ghost var cells := columns + Column(0, timing, -voltMax, voltage + voltMax);
      ghost var c := Cell(0, timing, voltage);
      VisitNext(data, filled, LaneLists(timings, volts, errors), cells, c);
      timings := timings + [timing];
      volts := volts + [voltage];
      var key := Key(timing, voltage);
      if key in filled {
        errors := errors + [filled[key]];
      } else {
        filled := filled[key := INVALID_ERROR_COUNT];
        errors := errors + [INVALID_ERROR_COUNT];
      }
      ColumnStep(timing, -voltMax, voltage + voltMax);
      assert cells + [c] == columns + (Column(0, timing, -voltMax, voltage + voltMax) + [c]);
      voltage := voltage + 1;
    }
    lists := LaneLists(timings, volts, errors);
  }

  lemma VisitedStart(data: map<Key, int>)
    ensures Visited(data, data, LaneLists([], [], []), [])
  {
  }

  /** How many steps a range has run through. */
  function Steps(n: int, max: int): nat {
    if max < 0 || n < 0 then 0 else n
  }

  ghost predicate Visited(data: map<Key, int>, filled: map<Key, int>, lists: LaneLists, cells: seq<Cell>) {
    filled == Fill(data, cells) && Aligned(lists, filled, cells)
  }

  lemma VisitNext(data: map<Key, int>, filled: map<Key, int>, lists: LaneLists, cells: seq<Cell>, c: Cell)
    requires Visited(data, filled, lists, cells)
    ensures
      var after := if KeyOf(c) in filled then filled else filled[KeyOf(c) := INVALID_ERROR_COUNT];
      Visited(data, after,
        LaneLists(lists.timings + [c.timing], lists.volts + [c.volt], lists.errors + [after[KeyOf(c)]]), cells + [c])
  {
  }

  /** The check finds nothing missing exactly when every cell between the extremes is there, the last
      column left out. */
  lemma NoGapExactly(data: map<Key, int>, lists: LaneLists)
    requires lists.timings != [] && lists.volts != []
    ensures CountMissing(data, LaneCells(0, CheckedWindow(lists))) == 0 <==>
      forall t, v | Least(lists.timings) <= t < Greatest(lists.timings)
          && Least(lists.volts) <= v < Greatest(lists.volts) + 1 ::
        Key(t, v) in data
  {
    WindowBounds(lists);
    hide Least, Greatest, CheckedWindow, LaneCells, CountMissing;
    NoGapBetween(data, Least(lists.timings), Greatest(lists.timings), Least(lists.volts), Greatest(lists.volts) + 1);
  }

  lemma NoGapBetween(data: map<Key, int>, minTime: int, maxTime: int, minVolt: int, maxVolt: int)
    requires minTime <= maxTime && minVolt <= maxVolt
    ensures CountMissing(data, LaneCells(0, WindowBetween(minTime, maxTime, minVolt, maxVolt))) == 0 <==>
      forall t, v | minTime <= t < maxTime && minVolt <= v < maxVolt :: Key(t, v) in data
  {
    var w := WindowBetween(minTime, maxTime, minVolt, maxVolt);
    var cells := LaneCells(0, w);
    assert AllCells(0, 0, w) == [] && AllCells(0, 1, w) == [] + cells == cells;
    hide LaneCells, AllCells, CountMissing;
    NothingMissing(data, cells);
    SweepIsGrid(0, 1, w);
    forall t, v | minTime <= t < maxTime && minVolt <= v < maxVolt
      ensures Cell(0, t, v) in cells && KeyOf(Cell(0, t, v)) == Key(t, v)
    {
      assert InSweep(0, 1, w, Cell(0, t, v));
    }
    forall c | c in cells
      ensures KeyOf(c) == Key(c.timing, c.volt) && minTime <= c.timing < maxTime && minVolt <= c.volt < maxVolt
    {
      assert InSweep(0, 1, w, c);
    }
  }

  /** A cell of the last column may be missing without being noticed. */
  lemma LastColumnUnchecked(lists: LaneLists, data: map<Key, int>)
    requires lists.timings == [0, 1] && lists.volts == [0, 0] && data == map[Key(0, 0) := 0]
    ensures CountMissing(data, LaneCells(0, CheckedWindow(lists))) == 0 && Key(1, 0) !in data
  {
    LeastIs(lists.timings, 0);
    GreatestIs(lists.timings, 1);
    LeastIs(lists.volts, 0);
    GreatestIs(lists.volts, 0);
    hide Least, Greatest, CountMissing, LaneCells, CheckedWindow;
    NoGapExactly(data, lists);
  }

  /** validate_data: how many cells between the extremes of the lists have no data; None is an
      IndexError on empty lists. */
  method ValidateData(data: map<Key, int>, lists: LaneLists) returns (missing: Option<nat>)
    ensures missing ==
      if lists.timings == [] || lists.volts == [] then None
      else Some(CountMissing(data, LaneCells(0, CheckedWindow(lists))))
  {
    if lists.timings == [] || lists.volts == [] {
      return None;
    }
    WindowBounds(lists);
    hide CheckedWindow, LaneCells, Least, Greatest, CountMissing;
    var minTime, maxTime := Least(lists.timings), Greatest(lists.timings);
    var minVolt, maxVolt := Least(lists.volts), Greatest(lists.volts);
    maxVolt := maxVolt + 1;
    var count := CountWindow(data, minTime, maxTime, minVolt, maxVolt);
    missing := Some(count);
  }

  lemma WindowBounds(lists: LaneLists)
    requires lists.timings != [] && lists.volts != []
    ensures Least(lists.timings) <= Greatest(lists.timings) && Least(lists.volts) <= Greatest(lists.volts)
    ensures CheckedWindow(lists) == WindowBetween(Least(lists.timings), Greatest(lists.timings),
                                                  Least(lists.volts), Greatest(lists.volts) + 1)
  {
  }

  /** The columns and rows of two ranges, both without their ends. */
  function WindowBetween(minTime: int, maxTime: int, minVolt: int, maxVolt: int): Window
    requires minTime <= maxTime && minVolt <= maxVolt
  {
    Window(minTime, maxTime - minTime, minVolt, maxVolt - minVolt)
  }

  /** The two loops of the check. */
  method CountWindow(data: map<Key, int>, minTime: int, maxTime: int, minVolt: int, maxVolt: int) returns (count: nat)
    requires minTime <= maxTime && minVolt <= maxVolt
    ensures count == CountMissing(data, LaneCells(0, WindowBetween(minTime, maxTime, minVolt, maxVolt)))
  {
    ghost var w := WindowBetween(minTime, maxTime, minVolt, maxVolt);
    hide Column, Columns, CountMissing;
    count := 0;
    ColumnsStep(w, 0);
    NothingToCount(data);
    for time := minTime to maxTime
      invariant count == CountMissing(data, Columns(0, w, time - minTime))
    {
      count := CountColumn(data, count, time, minVolt, maxVolt, Columns(0, w, time - minTime));
      ColumnsStep(w, time - minTime);
    }
  }

  lemma NothingToCount(data: map<Key, int>)
    ensures CountMissing(data, []) == 0
  {
  }

  lemma CountNext(data: map<Key, int>, cells: seq<Cell>, c: Cell)
    ensures CountMissing(data, cells + [c]) == CountMissing(data, cells) + if KeyOf(c) in data then 0 else 1
  {
  }

  /** The inner loop of the check: one column. */
  method CountColumn(data: map<Key, int>, sofar: nat, time: int, minVolt: int, maxVolt: int, ghost columns: seq<Cell>)
    returns (count: nat)
    requires minVolt <= maxVolt && sofar == CountMissing(data, columns)
    ensures count == CountMissing(data, columns + Column(0, time, minVolt, maxVolt - minVolt))
  {
    hide Column, CountMissing;
    count := sofar;
    ColumnStep(time, minVolt, 0);
    assert columns + [] == columns;
    for volt := minVolt to maxVolt
      invariant count == CountMissing(data, columns + Column(0, time, minVolt, volt - minVolt))
    {
      ghost var cells := columns + Column(0, time, minVolt, volt - minVolt);
      ghost var c := Cell(0, time, volt);
      ColumnStep(time, minVolt, volt - minVolt);
      CountNext(data, cells, c);
      assert cells + [c] == columns + (Column(0, time, minVolt, volt - minVolt) + [c]);
      if Key(time, volt) !in data {
        count := count + 1;
      }
    }
  }

  lemma GridCorners(timingMax: int, voltMax: int)
    requires timingMax >= 0 && voltMax >= 0
    ensures Cell(0, -timingMax, -voltMax) in GridCells(timingMax, voltMax)
    ensures Cell(0, timingMax, voltMax) in GridCells(timingMax, voltMax)
    ensures forall c | c in GridCells(timingMax, voltMax) :: InGrid(timingMax, voltMax, KeyOf(c))
  {
    GridOfLane(0, timingMax, voltMax, Cell(0, -timingMax, -voltMax));
    GridOfLane(0, timingMax, voltMax, Cell(0, timingMax, voltMax));
    forall c | c in GridCells(timingMax, voltMax)
      ensures InGrid(timingMax, voltMax, KeyOf(c))
    {
      GridOfLane(0, timingMax, voltMax, c);
    }
  }

  lemma EmptyGrid(timingMax: int, voltMax: int)
    requires timingMax < 0 || voltMax < 0
    ensures GridCells(timingMax, voltMax) == []
  {
    ColumnsSize(0, FullWindow(timingMax, voltMax), StepsUpTo(timingMax));
  }

  lemma ListExtremes(lists: LaneLists, data: map<Key, int>, timingMax: int, voltMax: int)
    requires timingMax >= 0 && voltMax >= 0 && Aligned(lists, data, GridCells(timingMax, voltMax))
    ensures lists.timings != [] && lists.volts != []
    ensures Least(lists.timings) == -timingMax && Greatest(lists.timings) == timingMax
    ensures Least(lists.volts) == -voltMax && Greatest(lists.volts) == voltMax
  {
    GridCorners(timingMax, voltMax);
    hide GridCells, Least, Greatest;
    ListMembers(lists, data, GridCells(timingMax, voltMax), Cell(0, -timingMax, -voltMax));
    ListMembers(lists, data, GridCells(timingMax, voltMax), Cell(0, timingMax, voltMax));
    ListBounds(lists, data, GridCells(timingMax, voltMax), timingMax, voltMax);
    LeastIs(lists.timings, -timingMax);
    GreatestIs(lists.timings, timingMax);
    LeastIs(lists.volts, -voltMax);
    GreatestIs(lists.volts, voltMax);
  }

  lemma ListMembers(lists: LaneLists, data: map<Key, int>, cells: seq<Cell>, c: Cell)
    requires Aligned(lists, data, cells) && c in cells
    ensures c.timing in lists.timings && c.volt in lists.volts
  {
  }

  lemma ListBounds(lists: LaneLists, data: map<Key, int>, cells: seq<Cell>, timingMax: int, voltMax: int)
    requires Aligned(lists, data, cells) && forall c | c in cells :: InGrid(timingMax, voltMax, KeyOf(c))
    ensures forall t | t in lists.timings :: -timingMax <= t <= timingMax
    ensures forall v | v in lists.volts :: -voltMax <= v <= voltMax
  {
  }

  /** After the fill, the check finds nothing missing. */
  lemma FillLeavesNothingMissing(data: map<Key, int>, lists: LaneLists, timingMax: int, voltMax: int)
    requires timingMax >= 0 && voltMax >= 0
    requires Aligned(lists, Filled(data, timingMax, voltMax), GridCells(timingMax, voltMax))
    ensures lists.timings != [] && lists.volts != []
    ensures CountMissing(Filled(data, timingMax, voltMax), LaneCells(0, CheckedWindow(lists))) == 0
  {
    ListExtremes(lists, Filled(data, timingMax, voltMax), timingMax, voltMax);
    var w := CheckedWindow(lists);
    var cells := LaneCells(0, w);
    forall c | c in cells
      ensures KeyOf(c) in Filled(data, timingMax, voltMax)
    {
      assert AllCells(0, 0, w) == [] && AllCells(0, 1, w) == [] + LaneCells(0, w);
      SweepIsGrid(0, 1, w);
      assert InSweep(0, 1, w, c);
      FilledExact(data, 0, timingMax, voltMax, KeyOf(c));
    }
    NothingMissing(Filled(data, timingMax, voltMax), cells);
  }

  /** The fill's lists run through the grid: every cell once, in step with the dictionary. */
  lemma ListsEnumerateGrid(data: map<Key, int>, lists: LaneLists, timingMax: int, voltMax: int, k: Key)
    requires Aligned(lists, data, GridCells(timingMax, voltMax))
    ensures InGrid(timingMax, voltMax, k) <==>
      exists i :: 0 <= i < |lists.timings| && Key(lists.timings[i], lists.volts[i]) == k && lists.errors[i] == data[k]
    ensures forall i, j | 0 <= i < j < |lists.timings| ::
      Key(lists.timings[i], lists.volts[i]) != Key(lists.timings[j], lists.volts[j])
  {
    var w := FullWindow(timingMax, voltMax);
    var cells := GridCells(timingMax, voltMax);
    assert AllCells(0, 0, w) == [] && AllCells(0, 1, w) == [] + cells == cells;
    SweepIsGrid(0, 1, w);
    forall i | 0 <= i < |cells|
      ensures cells[i].lane == 0 && InGrid(timingMax, voltMax, KeyOf(cells[i]))
      ensures Key(lists.timings[i], lists.volts[i]) == KeyOf(cells[i])
    {
      GridOfLane(0, timingMax, voltMax, cells[i]);
    }
    forall i, j | 0 <= i < j < |lists.timings|
      ensures Key(lists.timings[i], lists.volts[i]) != Key(lists.timings[j], lists.volts[j])
    {
      assert cells[i] != cells[j];
      assert cells[i] == Cell(0, lists.timings[i], lists.volts[i]) && cells[j] == Cell(0, lists.timings[j], lists.volts[j]);
    }
    GridOfLane(0, timingMax, voltMax, Cell(0, k.timing, k.volt));
    if InGrid(timingMax, voltMax, k) {
      var i :| 0 <= i < |cells| && cells[i] == Cell(0, k.timing, k.volt);
      assert Key(lists.timings[i], lists.volts[i]) == k;
    }
  }

  // ----- The plotter -----

  /** The rounded coordinates of the cells. */
  datatype Adjusted = Adjusted(timings: seq<real>, volts: seq<real>)

  predicate AdjustedFrom(adj: Adjusted, lists: LaneLists, x: Coordinate, y: Coordinate, s: Scale) {
    && |adj.timings| == |lists.timings| && |adj.volts| == |lists.volts|
    && (forall i | 0 <= i < |adj.timings| :: adj.timings[i] == x(s.timingMax, s.timingOffset, lists.timings[i]))
    && (forall i | 0 <= i < |adj.volts| :: adj.volts[i] == y(s.voltMax, s.voltOffset, lists.volts[i]))
  }

  /** Two entries of the lists have the same coordinates. */
  predicate Collides(adj: Adjusted) {
    exists i, j | 0 <= i < j < |adj.timings| && j < |adj.volts| ::
      adj.timings[i] == adj.timings[j] && adj.volts[i] == adj.volts[j]
  }

  /** The lists collide exactly when the grid does. */
  lemma ListsCollide(x: Coordinate, y: Coordinate, s: Scale, filled: map<Key, int>, lists: LaneLists, adj: Adjusted)
    requires Aligned(lists, filled, GridCells(s.timingMax, s.voltMax)) && AdjustedFrom(adj, lists, x, y, s)
    ensures Collides(adj) <==> GridCollides(x, y, s)
  {
    var cells := GridCells(s.timingMax, s.voltMax);
    hide GridCells;
    if Collides(adj) {
      var i, j :| 0 <= i < j < |adj.timings| && j < |adj.volts|
        && adj.timings[i] == adj.timings[j] && adj.volts[i] == adj.volts[j];
      InGridAt(s.timingMax, s.voltMax, i);
      InGridAt(s.timingMax, s.voltMax, j);
      GridCellsDiffer(s.timingMax, s.voltMax, i, j);
      assert SamePlace(x, y, s, KeyOf(cells[i]), KeyOf(cells[j]));
    }
    if GridCollides(x, y, s) {
      var a, b :| InGrid(s.timingMax, s.voltMax, a) && InGrid(s.timingMax, s.voltMax, b) && a != b && SamePlace(x, y, s, a, b);
      var i := GridIndex(s.timingMax, s.voltMax, a);
      var j := GridIndex(s.timingMax, s.voltMax, b);
      assert adj.timings[i] == adj.timings[j] && adj.volts[i] == adj.volts[j];
    }
  }

  lemma GridCellsDiffer(timingMax: int, voltMax: int, i: nat, j: nat)
    requires i < j < |GridCells(timingMax, voltMax)|
    ensures KeyOf(GridCells(timingMax, voltMax)[i]) != KeyOf(GridCells(timingMax, voltMax)[j])
  {
    var w := FullWindow(timingMax, voltMax);
    var cells := GridCells(timingMax, voltMax);
    assert AllCells(0, 0, w) == [] && AllCells(0, 1, w) == [] + cells == cells;
    SweepIsGrid(0, 1, w);
    GridOfLane(0, timingMax, voltMax, cells[i]);
    GridOfLane(0, timingMax, voltMax, cells[j]);
  }

  /** The i-th cell of the lists lies in the mask; without a centre there is no mask. */
  predicate InMaskAt(adj: Adjusted, center: Option<int>, x: Coordinate, mask: Mask, s: Scale, i: nat)
    requires i < |adj.timings| && i < |adj.volts|
  {
    center.Some? && mask(adj.timings[i], adj.volts[i], x(s.timingMax, s.timingOffset, center.value), s.gear)
  }

  predicate NoErrorsInMask(adj: Adjusted, errors: seq<int>, center: Option<int>, x: Coordinate, mask: Mask, s: Scale,
                           n: nat)
    requires n <= |adj.timings| && n <= |adj.volts| && n <= |errors|
  {
    forall i | 0 <= i < n :: InMaskAt(adj, center, x, mask, s, i) ==> errors[i] <= 0
  }

  predicate SkippedInMask(adj: Adjusted, errors: seq<int>, center: Option<int>, x: Coordinate, mask: Mask, s: Scale,
                          n: nat)
    requires n <= |adj.timings| && n <= |adj.volts| && n <= |errors|
  {
    exists i | 0 <= i < n :: InMaskAt(adj, center, x, mask, s, i) && errors[i] == INVALID_ERROR_COUNT
  }

  /** The loop over the lists decides what the dictionary says about the mask. */
  lemma ListsDecide(x: Coordinate, y: Coordinate, mask: Mask, s: Scale, filled: map<Key, int>, lists: LaneLists,
                    adj: Adjusted, center: Option<int>)
    requires Aligned(lists, filled, GridCells(s.timingMax, s.voltMax))
    requires AdjustedFrom(adj, lists, x, y, s)
    ensures NoErrorsInMask(adj, lists.errors, center, x, mask, s, |lists.errors|) <==>
      LanePasses(x, y, mask, s, filled, center)
  {
    var cells := GridCells(s.timingMax, s.voltMax);
    hide GridCells;
    if center.Some? {
      forall i | 0 <= i < |cells|
        ensures InMaskAt(adj, center, x, mask, s, i) <==> Masked(x, y, mask, s, center.value, KeyOf(cells[i]))
      {
      }
      if NoErrorsInMask(adj, lists.errors, center, x, mask, s, |lists.errors|) {
        forall k | k in filled && InGrid(s.timingMax, s.voltMax, k) && Masked(x, y, mask, s, center.value, k)
          ensures filled[k] <= 0
        {
          var i := GridIndex(s.timingMax, s.voltMax, k);
        }
      }
      if LanePasses(x, y, mask, s, filled, center) {
        forall i | 0 <= i < |cells| && InMaskAt(adj, center, x, mask, s, i)
          ensures lists.errors[i] <= 0
        {
          InGridAt(s.timingMax, s.voltMax, i);
        }
      }
    }
  }

  /** And whether the mask has a cell without data. */
  lemma ListsSkip(x: Coordinate, y: Coordinate, mask: Mask, s: Scale, filled: map<Key, int>, lists: LaneLists,
                  adj: Adjusted, center: Option<int>)
    requires Aligned(lists, filled, GridCells(s.timingMax, s.voltMax))
    requires AdjustedFrom(adj, lists, x, y, s)
    ensures SkippedInMask(adj, lists.errors, center, x, mask, s, |lists.errors|) <==>
      LaneSkips(x, y, mask, s, filled, center)
  {
    var cells := GridCells(s.timingMax, s.voltMax);
    hide GridCells;
    if center.Some? {
      forall i | 0 <= i < |cells|
        ensures InMaskAt(adj, center, x, mask, s, i) <==> Masked(x, y, mask, s, center.value, KeyOf(cells[i]))
        ensures InGrid(s.timingMax, s.voltMax, KeyOf(cells[i]))
      {
        InGridAt(s.timingMax, s.voltMax, i);
      }
      if LaneSkips(x, y, mask, s, filled, center) {
        var k :| k in filled && InGrid(s.timingMax, s.voltMax, k)
          && Masked(x, y, mask, s, center.value, k) && filled[k] == INVALID_ERROR_COUNT;
        var i := GridIndex(s.timingMax, s.voltMax, k);
        assert InMaskAt(adj, center, x, mask, s, i);
      }
    }
  }

  lemma GridIndex(timingMax: int, voltMax: int, k: Key) returns (i: nat)
    requires InGrid(timingMax, voltMax, k)
    ensures i < |GridCells(timingMax, voltMax)| && KeyOf(GridCells(timingMax, voltMax)[i]) == k
  {
    GridOfLane(0, timingMax, voltMax, Cell(0, k.timing, k.volt));
    i :| 0 <= i < |GridCells(timingMax, voltMax)| && GridCells(timingMax, voltMax)[i] == Cell(0, k.timing, k.volt);
  }

  lemma InGridAt(timingMax: int, voltMax: int, i: nat)
    requires i < |GridCells(timingMax, voltMax)|
    ensures InGrid(timingMax, voltMax, KeyOf(GridCells(timingMax, voltMax)[i]))
  {
    GridOfLane(0, timingMax, voltMax, GridCells(timingMax, voltMax)[i]);
  }

  /** A parser that has stopped reads nothing more. */
  lemma {:induction false} StoppedForGood(st: ParseState, lines: seq<string>)
    requires st.status != Running
    ensures ParseLines(st, lines) == st
  {
    if lines != [] {
      StoppedForGood(st, lines[..|lines| - 1]);
      StoppedAtLine(st, lines[|lines| - 1]);
    }
  }

  lemma StoppedAtLine(st: ParseState, line: string)
    requires st.status != Running
    ensures ParseLine(st, line) == st
  {
  }

  /** The coordinates of every cell. */
  method Adjust(lists: LaneLists, x: Coordinate, y: Coordinate, s: Scale) returns (adj: Adjusted)
    ensures AdjustedFrom(adj, lists, x, y, s)
  {
    var timings, volts := [], [];
    for i := 0 to |lists.timings|
      invariant |timings| == i && forall k | 0 <= k < i :: timings[k] == x(s.timingMax, s.timingOffset, lists.timings[k])
    {
      timings := timings + [x(s.timingMax, s.timingOffset, lists.timings[i])];
    }
    for i := 0 to |lists.volts|
      invariant |volts| == i && forall k | 0 <= k < i :: volts[k] == y(s.voltMax, s.voltOffset, lists.volts[k])
    {
      volts := volts + [y(s.voltMax, s.voltOffset, lists.volts[i])];
    }
    adj := Adjusted(timings, volts);
  }

  lemma MatchedWord(w: seq<string>, i: nat, first: string, rest: seq<string>)
    ensures Matches(w, i, [first] + rest) == Some(true) ==> i < |w|
  {
  }

  class EyeMonitorPlot {
    const x: Coordinate
    const y: Coordinate
    const mask: Mask
    var status: Status
    var timingMaxSteps: int
    var timingMaxOffset: int
    var timingStep: real
    var voltageMaxSteps: int
    var voltageMaxOffset: int
    var voltageStep: real
    var laneList: seq<int>
    var lane0Data: map<Key, int>
    var lane1Data: map<Key, int>
    var badDataCount: nat
    var gear: int
    var versionNo: string
    var mfrName: string
    var mfrId: string
    var deviceSize: string
    var ufsGear: string
    var side: string
    var lane0Lists: LaneLists
    var lane1Lists: LaneLists
    var lane0Adj: Adjusted
    var lane1Adj: Adjusted
    var lane0EyeCenter: Option<int>
    var lane1EyeCenter: Option<int>
    var eomPass: seq<bool>
    var singleLaneEomPass: bool
    var singleLaneEomSkipResult: bool
    /** The labels of the pictures shown so far, over all files. */
    var labels: seq<Option<bool>>
    ghost var judged: seq<Judgement>

    /** The flag for skipped cells is never cleared, so the label of a picture depends on all that
        were drawn before it. */
    ghost predicate Valid()
      reads this`singleLaneEomSkipResult, this`labels, this`judged
    {
      && (singleLaneEomSkipResult <==> AnySkipped(judged))
      && |labels| == |judged| && forall i | 0 <= i < |labels| :: labels[i] == LabelOf(judged, i)
    }

    constructor (x: Coordinate, y: Coordinate, mask: Mask)
      ensures this.x == x && this.y == y && this.mask == mask && Valid() && labels == []
    {
      this.x, this.y, this.mask := x, y, mask;
      status := Running;
      timingMaxSteps, timingMaxOffset, timingStep := 0, 0, 0.0;
      voltageMaxSteps, voltageMaxOffset, voltageStep := 0, 0, 0.0;
      laneList, lane0Data, lane1Data, badDataCount, gear := [], map[], map[], 0, 0;
      versionNo, mfrName, mfrId, deviceSize, ufsGear, side := "", "", "", "", "", "";
      lane0Lists, lane1Lists := LaneLists([], [], []), LaneLists([], [], []);
      lane0Adj, lane1Adj := Adjusted([], []), Adjusted([], []);
      lane0EyeCenter, lane1EyeCenter, eomPass := None, None, [];
      singleLaneEomPass, singleLaneEomSkipResult := true, false;
      labels, judged := [], [];
    }

    function CurrentScale(): Scale
      reads this
    {
      Scale(timingMaxSteps, timingMaxOffset, voltageMaxSteps, voltageMaxOffset, gear)
    }

    /** The fields the parser fills. */
    function State(): ParseState
      reads this
    {
      ParseState(status, timingMaxSteps, timingMaxOffset, timingStep, voltageMaxSteps, voltageMaxOffset, voltageStep,
                 laneList, lane0Data, lane1Data, badDataCount, gear,
                 versionNo, mfrName, mfrId, deviceSize, ufsGear, side)
    }

    method ResetLimits()
      modifies this`timingMaxSteps, this`timingMaxOffset, this`timingStep,
               this`voltageMaxSteps, this`voltageMaxOffset, this`voltageStep
      ensures timingMaxSteps == timingMaxOffset == voltageMaxSteps == voltageMaxOffset == 0
      ensures timingStep == voltageStep == 0.0
    {
      timingMaxSteps, timingMaxOffset, timingStep := 0, 0, 0.0;
      voltageMaxSteps, voltageMaxOffset, voltageStep := 0, 0, 0.0;
    }

    method ResetNames()
      modifies this`versionNo, this`mfrName, this`mfrId, this`deviceSize, this`ufsGear, this`side
      ensures versionNo == mfrName == mfrId == deviceSize == ufsGear == side == ""
    {
      versionNo, mfrName, mfrId := "", "", "";
      deviceSize, ufsGear, side := "", "", "";
    }

    method ResetData()
      modifies this`status, this`laneList, this`lane0Data, this`lane1Data, this`badDataCount, this`gear
      ensures status == Running && laneList == [] && lane0Data == map[] && lane1Data == map[]
      ensures badDataCount == gear == 0
    {
      status := Running;
      laneList, lane0Data, lane1Data := [], map[], map[];
      badDataCount, gear := 0, 0;
    }

    method ResetLists()
      modifies this`lane0Lists, this`lane1Lists, this`lane0Adj, this`lane1Adj,
               this`lane0EyeCenter, this`lane1EyeCenter, this`eomPass
      ensures eomPass == []
    {
      lane0Lists, lane1Lists := LaneLists([], [], []), LaneLists([], [], []);
      lane0Adj, lane1Adj := Adjusted([], []), Adjusted([], []);
      lane0EyeCenter, lane1EyeCenter, eomPass := None, None, [];
    }

    /** What was shown, and the flag for skipped cells, are as before. */
    twostate predicate SameShown()
      reads this
    {
      && singleLaneEomSkipResult == old(singleLaneEomSkipResult)
      && labels == old(labels) && judged == old(judged)
    }

    /** The fields are reset at the start of open_file; the two flags of plot_eye are not. */
    method Reset()
      modifies this
      ensures State() == INITIAL && eomPass == [] && SameShown()
    {
      ResetLimits();
      ResetNames();
      ResetData();
      ResetLists();
    }

    method ParseTimingLimits(line: string)
      modifies this`status, this`timingMaxSteps, this`timingMaxOffset, this`timingStep
      ensures State() == TimingPart(old(State()), line)
    {
      hide Split, Contains, StringToNumber;
      var w := Split(line);
      if status == Running && Contains(line, "TimingMaxSteps") && Contains(line, "TimingMaxOffset") {
        if |w| <= 3 || w[0] != "TimingMaxSteps" || w[2] != "TimingMaxOffset" {
          status := Crashed;
        } else {
          var steps, offset := StringToNumber(w[1]), StringToNumber(w[3]);
          if steps == None || offset == None || steps.value == 0 {
            status := Crashed;
          } else {
            timingMaxSteps := steps.value;
            timingMaxOffset := offset.value;
            timingStep := TimingStep(steps.value, offset.value);
          }
        }
      }
    }

    method ParseVoltageLimits(line: string)
      modifies this`status, this`voltageMaxSteps, this`voltageMaxOffset, this`voltageStep
      ensures State() == VoltagePart(old(State()), line)
    {
      hide Split, Contains, StringToNumber;
      var w := Split(line);
      if status == Running && Contains(line, "VoltageMaxSteps") && Contains(line, "VoltageMaxOffset") {
        if |w| <= 3 || w[0] != "VoltageMaxSteps" || w[2] != "VoltageMaxOffset" {
          status := Crashed;
        } else {
          var steps, offset := StringToNumber(w[1]), StringToNumber(w[3]);
          if steps == None || offset == None || steps.value == 0 {
            status := Crashed;
          } else {
            voltageMaxSteps := steps.value;
            voltageMaxOffset := offset.value;
            voltageStep := VoltageStep(steps.value, offset.value);
          }
        }
      }
    }

    method ParseVersion(line: string)
      modifies this`status, this`versionNo
      ensures State() == VersionPart(old(State()), line)
    {
      hide Split, Contains, Matches;
      var w := Split(line);
      if status == Running {
        var found := Labelled(line, "UFS Spec Version:", ["UFS", "Spec", "Version:"], 8);
        if found == None {
          status := Crashed;
        } else if found.value {
          versionNo := "UFS" + w[7];
        }
      }
    }

    method ParseInquiry(line: string)
      modifies this`status, this`mfrName, this`mfrId
      ensures State() == InquiryPart(old(State()), line)
    {
      hide Split, Contains, Matches;
      var w := Split(line);
      if status == Running {
        var found := Labelled(line, "UFS INQUIRY ID:", ["UFS", "INQUIRY", "ID:"], 9);
        if found == None {
          status := Crashed;
        } else if found.value {
          mfrName, mfrId := w[7], w[8];
        }
      }
    }

    method ParseSize(line: string)
      modifies this`status, this`deviceSize
      ensures State() == SizePart(old(State()), line)
    {
      hide Split, Contains, Matches;
      var w := Split(line);
      if status == Running {
        var found := Labelled(line, "UFS Total Size:", ["UFS", "Total", "Size:"], 9);
        if found == None {
          status := Crashed;
        } else if found.value {
          deviceSize := w[7] + w[8];
        }
      }
    }

    method ParseGear(line: string)
      modifies this`status, this`ufsGear
      ensures State() == GearPart(old(State()), line)
    {
      hide Split, Contains, Matches;
      var w := Split(line);
      if status == Running {
        var found := Labelled(line, "UFS Gear Speed:", ["UFS", "Gear", "Speed:"], 9);
        if found == None {
          status := Crashed;
        } else if found.value {
          ufsGear := w[7] + " " + w[8];
        }
      }
    }

    method ParseSide(line: string)
      modifies this`status, this`side
      ensures State() == SidePart(old(State()), line)
    {
      hide Split, Contains;
      var w := Split(line);
      if status == Running && Contains(line, "Side Eye Monitor Start") {
        var found := Matches(w, 0, ["UFS"]);
        if found == Some(true) {
          found := Matches(w, 2, ["Side", "Eye", "Monitor", "Start"]);
          MatchedWord(w, 2, "Side", ["Eye", "Monitor", "Start"]);
        }
        if found == None {
          status := Crashed;
        } else if found.value {
          side := w[1];
        }
      }
    }

    method ParseData(line: string)
      modifies this`status, this`laneList, this`lane0Data, this`lane1Data, this`badDataCount, this`gear
      ensures State() == DataPart(old(State()), line)
    {
      hide Split, PyInt, StringToNumber, GearFrom, Stored, ReadData;
      var w := Split(line);
      if status != Running || |w| <= 7 {
        return;
      }
      if w[0] != "lane" && w[2] != "timing" && w[4] != "voltage" && w[6] != "error" && w[7] != "count" {
        return;
      }
      var laneNo := PyInt(w[1]);
      if laneNo.Some? && laneNo.value !in laneList {
        laneList := laneList + [laneNo.value];
      }
      var d := ReadData(w, ufsGear);
      if d == None {
        badDataCount := badDataCount + 1;
        return;
      }
      StoreData(d.value);
    }

    method StoreData(d: Data)
      requires status == Running
      modifies this`status, this`lane0Data, this`lane1Data, this`gear
      ensures State() == Stored(old(State()), d)
    {
      gear := d.gear;
      if gear < 4 {
        status := Unsupported;
        return;
      }
      var key := Key(d.timing, d.volt);
      if d.lane == 0 {
        lane0Data := lane0Data[key := d.errorCount];
      } else if d.lane == 1 {
        lane1Data := lane1Data[key := d.errorCount];
      } else {
        status := Quit;
      }
    }

    /** The header lines a report may have. */
    method ParseHeader(line: string)
      modifies this`status, this`timingMaxSteps, this`timingMaxOffset, this`timingStep, this`voltageMaxSteps,
               this`voltageMaxOffset, this`voltageStep, this`versionNo, this`mfrName, this`mfrId, this`deviceSize,
               this`ufsGear, this`side
      ensures State() == HeaderPart(old(State()), line)
    {
      hide TimingPart, VoltagePart, VersionPart, InquiryPart, SizePart, GearPart, SidePart;
      ParseTimingLimits(line);
      ParseVoltageLimits(line);
      ParseVersion(line);
      ParseInquiry(line);
      ParseSize(line);
      ParseGear(line);
      ParseSide(line);
    }

    /** One line of the report. */
    method ParseOne(line: string)
      modifies this
      ensures State() == ParseLine(old(State()), line)
      ensures eomPass == old(eomPass) && SameShown()
    {
      hide HeaderPart, DataPart;
      ParseHeader(line);
      ParseData(line);
    }

    // ----- The eye of one lane -----

    /** The loop walks the zero-voltage row away from the middle. */
    method FindEyeWidthBoundary(laneData: map<Key, int>, direction: Direction) returns (boundary: Option<int>)
      requires timingMaxSteps >= 0 && HasRow(laneData, timingMaxSteps)
      ensures boundary == Boundary(laneData, timingMaxSteps, direction)
    {
      var n: nat := 0;
      while n <= timingMaxSteps
        invariant n <= timingMaxSteps + 1
        invariant Boundary(laneData, timingMaxSteps, direction) == BoundaryFrom(laneData, timingMaxSteps, direction, n)
      {
        RowHasColumn(laneData, timingMaxSteps, direction, n);
        var timing := Out(direction, n);
        var errorCount := laneData[Key(timing, 0)];
        if errorCount == INVALID_ERROR_COUNT {
          return None;
        } else if errorCount > 0 {
          if direction == Right {
            return Some(if timing > 0 then timing - 1 else timing);
          } else {
            return Some(if timing < 0 then timing + 1 else timing);
          }
        }
        n := n + 1;
      }
      boundary := Some(Out(direction, timingMaxSteps));
    }

    function DataOf(lane: int): map<Key, int>
      reads this
    {
      if lane == 0 then lane0Data else lane1Data
    }

    function CenterOf(lane: int): Option<int>
      reads this
    {
      if lane == 0 then lane0EyeCenter else lane1EyeCenter
    }

    function ListsOf(lane: int): LaneLists
      reads this
    {
      if lane == 0 then lane0Lists else lane1Lists
    }

    function AdjOf(lane: int): Adjusted
      reads this
    {
      if lane == 0 then lane0Adj else lane1Adj
    }

    method CalculateEyeWidthCenter(lane: int)
      requires lane == 0 || lane == 1
      requires timingMaxSteps >= 0 && HasRow(DataOf(lane), timingMaxSteps)
      modifies this`lane0EyeCenter, this`lane1EyeCenter
      ensures CenterOf(lane) == EyeCenter(DataOf(lane), timingMaxSteps)
      ensures CenterOf(1 - lane) == old(CenterOf(1 - lane))
    {
      var right := FindEyeWidthBoundary(DataOf(lane), Right);
      var left := FindEyeWidthBoundary(DataOf(lane), Left);
      var center: Option<int> := None;
      if right.Some? && left.Some? {
        CenterInside(DataOf(lane), timingMaxSteps);
        var eyeWidth := right.value - left.value + 1;
        center := Some(left.value + eyeWidth / 2);
      }
      if lane == 0 {
        lane0EyeCenter := center;
      } else {
        lane1EyeCenter := center;
      }
    }

    /** plot_eye: the pivot raises (None) on cells with the same coordinates; otherwise the verdict
        loop, and the picture with its label. */
    method PlotEye(lane: int) returns (pass: Option<bool>)
      requires lane == 0 || lane == 1
      requires |AdjOf(lane).timings| == |AdjOf(lane).volts| == |ListsOf(lane).errors|
      requires Valid()
      modifies this`singleLaneEomPass, this`singleLaneEomSkipResult, this`labels, this`judged
      ensures Valid()
      ensures pass == None <==> Collides(AdjOf(lane))
      ensures pass == None ==> SameShown()
      ensures pass.Some? ==>
        (pass.value <==>
          NoErrorsInMask(AdjOf(lane), ListsOf(lane).errors, CenterOf(lane), x, mask, CurrentScale(), |ListsOf(lane).errors|))
      ensures pass.Some? ==>
        judged == old(judged) + [Judgement(CenterOf(lane).Some?,
          SkippedInMask(AdjOf(lane), ListsOf(lane).errors, CenterOf(lane), x, mask, CurrentScale(), |ListsOf(lane).errors|),
          pass.value)]
    {
      hide InMaskAt;
      var adj, errors, center, s := AdjOf(lane), ListsOf(lane).errors, CenterOf(lane), CurrentScale();
      singleLaneEomPass := true;
      if Collides(adj) {
        return None;
      }
      for i := 0 to |errors|
        invariant labels == old(labels) && judged == old(judged)
        invariant singleLaneEomPass <==> NoErrorsInMask(adj, errors, center, x, mask, s, i)
        invariant singleLaneEomSkipResult <==>
          old(singleLaneEomSkipResult) || SkippedInMask(adj, errors, center, x, mask, s, i)
      {
        var e := errors[i];
        var inMask := InMaskAt(adj, center, x, mask, s, i);
        if inMask {
          if e > 0 {
            singleLaneEomPass := false;
          }
          if e == INVALID_ERROR_COUNT {
            singleLaneEomSkipResult := true;
          }
        }
      }
      Show(lane, SkippedInMask(adj, errors, center, x, mask, s, |errors|));
      pass := Some(singleLaneEomPass);
    }

    /** The picture is shown. The label is drawn with the mask, unless cells were skipped. */
    method Show(lane: int, ghost skipped: bool)
      requires singleLaneEomSkipResult <==> AnySkipped(judged) || skipped
      requires |labels| == |judged| && forall i | 0 <= i < |labels| :: labels[i] == LabelOf(judged, i)
      modifies this`labels, this`judged
      ensures Valid()
      ensures judged == old(judged) + [Judgement(CenterOf(lane).Some?, skipped, singleLaneEomPass)]
    {
      var drawn: Option<bool> := None;
      if CenterOf(lane).Some? {
        if !singleLaneEomSkipResult {
          drawn := Some(singleLaneEomPass);
        }
      }
      ghost var last := Judgement(CenterOf(lane).Some?, skipped, singleLaneEomPass);
      LabelsGrow(judged, last);
      labels := labels + [drawn];
      judged := judged + [last];
    }

    lemma LabelsGrow(before: seq<Judgement>, last: Judgement)
      ensures forall i | 0 <= i < |before| :: LabelOf(before + [last], i) == LabelOf(before, i)
      ensures AnySkipped(before + [last]) <==> AnySkipped(before) || last.skipped
      ensures LabelOf(before + [last], |before|) ==
        if last.centered && !AnySkipped(before + [last]) then Some(last.pass) else None
    {
      var all := before + [last];
      assert all[..|before| + 1] == all;
      forall i | 0 <= i < |before|
        ensures LabelOf(all, i) == LabelOf(before, i)
      {
        assert all[..i + 1] == before[..i + 1];
      }
      assert all[|before|] == last;
      assert forall i | 0 <= i < |before| :: all[i] == before[i];
    }

    // ----- The whole file -----

    /** The lane is filled, its lists run through the grid, and the rounded coordinates are there. */
    ghost predicate Prepared(lane: int, data: map<Key, int>)
      reads this
    {
      && DataOf(lane) == Filled(data, timingMaxSteps, voltageMaxSteps)
      && Aligned(ListsOf(lane), DataOf(lane), GridCells(timingMaxSteps, voltageMaxSteps))
      && AdjustedFrom(AdjOf(lane), ListsOf(lane), x, y, CurrentScale())
    }

    method PrepareLane(lane: int)
      requires lane == 0 || lane == 1
      modifies this`lane0Data, this`lane1Data, this`lane0Lists, this`lane1Lists, this`lane0Adj, this`lane1Adj
      ensures Prepared(lane, old(DataOf(lane)))
      ensures DataOf(1 - lane) == old(DataOf(1 - lane)) && ListsOf(1 - lane) == old(ListsOf(1 - lane))
      ensures AdjOf(1 - lane) == old(AdjOf(1 - lane))
    {
      hide Filled, Aligned, AdjustedFrom, GridCells;
      var filled, lists := FillGrid(DataOf(lane), timingMaxSteps, voltageMaxSteps);
      var adj := Adjust(lists, x, y, CurrentScale());
      if lane == 0 {
        lane0Data, lane0Lists, lane0Adj := filled, lists, adj;
      } else {
        lane1Data, lane1Lists, lane1Adj := filled, lists, adj;
      }
    }

    /** Checks one lane for gaps, finds its centre, decides and shows the picture; Raised stands for
        the IndexError on an empty grid and for the pivot's ValueError. */
    method JudgeLane(lane: int, ghost data: map<Key, int>) returns (outcome: Outcome)
      requires lane == 0 || lane == 1
      requires Prepared(lane, data) && Valid()
      modifies this`lane0EyeCenter, this`lane1EyeCenter, this`singleLaneEomPass, this`singleLaneEomSkipResult,
               this`labels, this`judged
      ensures Valid()
      ensures outcome ==
        if timingMaxSteps < 0 || voltageMaxSteps < 0 || GridCollides(x, y, CurrentScale()) then Raised
        else Decided(JudgementOf(x, y, mask, CurrentScale(), data).pass)
      ensures
        if timingMaxSteps < 0 || voltageMaxSteps < 0 || GridCollides(x, y, CurrentScale()) then SameShown()
        else judged == old(judged) + [JudgementOf(x, y, mask, CurrentScale(), data)]
    {
      ghost var s := CurrentScale();
      hide Filled, GridCells, EyeCenter, HasRow, LanePasses, NoErrorsInMask, Aligned, AdjustedFrom, Collides, GridCollides,
           LaneSkips, SkippedInMask, AnySkipped, LabelOf;
      var missing := CheckLane(lane, data);
      if missing == None {
        return Raised;
      }
      if missing.value != 0 {
        return NoVerdict;
      }
      FilledHasRow(data, timingMaxSteps, voltageMaxSteps);
      CalculateEyeWidthCenter(lane);
      ListsDecide(x, y, mask, s, DataOf(lane), ListsOf(lane), AdjOf(lane), CenterOf(lane));
      ListsSkip(x, y, mask, s, DataOf(lane), ListsOf(lane), AdjOf(lane), CenterOf(lane));
      ListsCollide(x, y, s, DataOf(lane), ListsOf(lane), AdjOf(lane));
      ListSizes(lane, data);
      var pass := PlotEye(lane);
      outcome := if pass == None then Raised else Decided(pass.value);
    }

    /** After the fill the check for gaps finds none, or raises on an empty grid. */
    method CheckLane(lane: int, ghost data: map<Key, int>) returns (missing: Option<nat>)
      requires Prepared(lane, data)
      ensures missing == if timingMaxSteps < 0 || voltageMaxSteps < 0 then None else Some(0)
    {
      hide Filled, GridCells, CountMissing, CheckedWindow, AdjustedFrom, LaneCells;
      missing := ValidateData(DataOf(lane), ListsOf(lane));
      if timingMaxSteps < 0 || voltageMaxSteps < 0 {
        EmptyGrid(timingMaxSteps, voltageMaxSteps);
      } else {
        FillLeavesNothingMissing(data, ListsOf(lane), timingMaxSteps, voltageMaxSteps);
      }
    }

    /** What the lanes still to come may rely on. */
    ghost predicate LaneReady(lane: int, st: ParseState)
      reads this
    {
      Prepared(lane, LaneData(st, lane))
    }

    /** The scale of the grid is the one that was read. */
    ghost predicate ScaleKept(st: ParseState)
      reads this
    {
      && CurrentScale() == ScaleOf(st)
      && laneList == st.laneList && LanesKnown(st) && Good(st)
    }

    /** Reads the lines until one stops the parser. */
    method ParseAll(lines: seq<string>)
      modifies this
      ensures State() == ParseLines(INITIAL, lines) && eomPass == [] && SameShown()
    {
      hide ParseLine;
      Reset();
      var i := 0;
      while i < |lines| && status == Running
        invariant i <= |lines| && eomPass == [] && State() == ParseLines(INITIAL, lines[..i])
        invariant SameShown()
        decreases |lines| - i
      {
        ParseOne(lines[i]);
        assert lines[..i + 1][..i] == lines[..i];
        i := i + 1;
      }
      assert lines == lines[..i] + lines[i..];
      ParseLinesAppend(INITIAL, lines[..i], lines[i..]);
      if i < |lines| {
        StoppedForGood(State(), lines[i..]);
      } else {
        assert lines[i..] == [];
      }
    }

    /** Fills the grid of every lane that occurred. */
    method PrepareLanes(ghost st: ParseState)
      requires State() == st && LanesKnown(st) && Good(st)
      modifies this`lane0Data, this`lane1Data, this`lane0Lists, this`lane1Lists, this`lane0Adj, this`lane1Adj
      ensures ScaleKept(st) && forall lane | lane in st.laneList :: LaneReady(lane, st)
    {
      hide Filled, Aligned, AdjustedFrom, GridCells;
      for i := 0 to |laneList|
        invariant forall j | 0 <= j < i :: LaneReady(laneList[j], st)
        invariant forall j | i <= j < |laneList| :: DataOf(laneList[j]) == LaneData(st, laneList[j])
      {
        assert laneList[i] in st.laneList;
        assert forall j | 0 <= j < |laneList| && j != i :: laneList[j] in st.laneList && laneList[j] == 1 - laneList[i];
        PrepareLane(laneList[i]);
      }
    }

    /** The first i lanes are judged; `before` is what was judged in earlier files. */
    ghost predicate LanesJudged(st: ParseState, i: nat, before: seq<Judgement>)
      reads this
    {
      && ScaleKept(st) && (forall lane | lane in st.laneList :: LaneReady(lane, st))
      && Valid() && |eomPass| == i <= |st.laneList|
      && (i > 0 ==> HasGrid(st) && !GridCollides(x, y, ScaleOf(st)))
      && (!HasGrid(st) ==> judged == before)
      && (HasGrid(st) ==>
           && judged == before + JudgedLanes(x, y, mask, st, st.laneList[..i])
           && forall j | 0 <= j < i :: eomPass[j] == LaneVerdict(x, y, mask, st, st.laneList[j]))
    }

    method JudgeNext(i: nat, ghost st: ParseState, ghost before: seq<Judgement>) returns (outcome: Outcome)
      requires LanesJudged(st, i, before) && i < |laneList|
      modifies this`eomPass, this`lane0EyeCenter, this`lane1EyeCenter, this`singleLaneEomPass,
               this`singleLaneEomSkipResult, this`labels, this`judged
      ensures outcome.Decided? ==> LanesJudged(st, i + 1, before)
      ensures !outcome.Decided? ==>
        outcome == Raised && Valid() && judged == before && (!HasGrid(st) || GridCollides(x, y, ScaleOf(st)))
    {
      hide GridCollides, Filled, Aligned, AdjustedFrom, GridCells, LaneData, LanesKnown, JudgementOf, LaneVerdict,
           JudgedLanes, Valid;
      LanesAreZeroOrOne(st);
      if HasGrid(st) {
        NoLaneYet(st);
        assert i == 0 ==> judged == before + [] == before;
      }
      assert laneList[i] in st.laneList;
      outcome := JudgeLane(laneList[i], LaneData(st, laneList[i]));
      if outcome.Decided? {
        eomPass := eomPass + [outcome.pass];
        OneMoreLane(st, i);
        assert judged == before + JudgedLanes(x, y, mask, st, st.laneList[..i + 1]);
      }
    }

    lemma OneMoreLane(st: ParseState, i: nat)
      requires HasGrid(st) && i < |st.laneList|
      ensures
        var last := JudgementOf(x, y, mask, ScaleOf(st), LaneData(st, st.laneList[i]));
        && JudgedLanes(x, y, mask, st, st.laneList[..i + 1]) == JudgedLanes(x, y, mask, st, st.laneList[..i]) + [last]
        && last.pass == LaneVerdict(x, y, mask, st, st.laneList[i])
    {
      assert st.laneList[..i + 1][..i] == st.laneList[..i];
    }

    lemma NoLaneYet(st: ParseState)
      requires HasGrid(st)
      ensures JudgedLanes(x, y, mask, st, st.laneList[..0]) == []
    {
    }

    /** Judges the lanes in turn and stops at the first without a verdict. */
    method JudgeLanes(ghost st: ParseState) returns (outcome: Outcome)
      requires ScaleKept(st) && eomPass == [] && forall lane | lane in st.laneList :: LaneReady(lane, st)
      requires Valid()
      modifies this`eomPass, this`lane0EyeCenter, this`lane1EyeCenter, this`singleLaneEomPass,
               this`singleLaneEomSkipResult, this`labels, this`judged
      ensures Valid()
      ensures outcome ==
        if st.laneList == [] then Decided(true)
        else if !HasGrid(st) || GridCollides(x, y, ScaleOf(st)) then Raised
        else Decided(forall lane | lane in st.laneList :: LaneVerdict(x, y, mask, st, lane))
      ensures judged == old(judged) +
        if !HasGrid(st) || GridCollides(x, y, ScaleOf(st)) then [] else JudgedLanes(x, y, mask, st, st.laneList)
    {
      hide GridCollides, LanesKnown, JudgementOf, LaneVerdict, JudgedLanes, Valid, LaneReady;
      ghost var before := judged;
      if HasGrid(st) {
        NoLaneYet(st);
      }
      for i := 0 to |laneList|
        invariant LanesJudged(st, i, before)
      {
        outcome := JudgeNext(i, st, before);
        if !outcome.Decided? {
          return;
        }
      }
      assert laneList[..|laneList|] == laneList;
      assert forall j | 0 <= j < |eomPass| :: eomPass[j] in eomPass && laneList[j] in laneList;
      outcome := Decided(forall pass | pass in eomPass :: pass);
    }

    lemma LanesAreZeroOrOne(st: ParseState)
      requires LanesKnown(st) && Good(st)
      ensures forall lane | lane in st.laneList :: lane == 0 || lane == 1
    {
    }

    /** open_file, with the text that the file holds: the outcome depends on nothing
        else, the labels on nothing but this file and those read before. */
    method OpenFile(text: string) returns (outcome: Outcome)
      requires Valid()
      modifies this
      ensures Valid() && judged == old(judged) + Judged(x, y, mask, ParseLines(INITIAL, ReadLines(text)))
      ensures outcome == Evaluate(x, y, mask, ParseLines(INITIAL, ReadLines(text)))
    {
      var lines := ReadLines(text);
      ParsingKeepsLanesKnown(lines);
      hide ParseLines, ReadLines, PassOf, LanesKnown, JudgedLanes, LabelOf, AnySkipped, GridCollides;
      ParseAll(lines);
      ghost var st := State();
      match status
      case Crashed => return Raised;
      case Unsupported => return Decided(false);
      case Quit => return Exited;
      case Running =>
      if badDataCount != 0 {
        return NoVerdict;
      }
      if timingStep == 0.0 || voltageStep == 0.0 {
        return Exited;
      }
      PrepareLanes(st);
      outcome := JudgeLanes(st);
    }

    lemma ListSizes(lane: int, data: map<Key, int>)
      requires Prepared(lane, data)
      ensures |AdjOf(lane).timings| == |AdjOf(lane).volts| == |ListsOf(lane).errors|
    {
    }
  }
}
