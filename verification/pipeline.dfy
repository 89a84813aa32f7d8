/** From the device to the verdict: what PASS says about the commands the device was given. */
module Pipeline {
  import opened Words
  import opened Wrappers
  import opened Uic
  import opened Grid
  import opened EomTrace
  import opened Text
  import opened Report
  import opened ReportParser
  import opened RoundTrip
  import opened Verdict
  import opened Plot
  import opened Exact
  import opened EyeMask
  import UfsEom

  /** What the plotter makes of a report. */
  function Parsed(h: Header, results: seq<EomResult>): ParseState {
    ParseLines(INITIAL, ReadLines(ReportText(h, results)))
  }

  /** A report that can be read back, of a gear the plotter supports, about a grid it can draw. */
  predicate PlottableHeader(h: Header) {
    && ReadableHeader(h) && OneLine(NameText(h.names)) && h.gear >= 4
    && h.timingMaxSteps > 0 && h.voltageMaxSteps > 0
  }

  function HeaderScale(h: Header): Scale {
    Scale(h.timingMaxSteps, h.timingMaxOffset, h.voltageMaxSteps, h.voltageMaxOffset, h.gear)
  }

  /** The grid cells of the mask around a centre column. */
  predicate InMask(x: Coordinate, y: Coordinate, mask: Mask, h: Header, center: int, k: Key) {
    InGrid(h.timingMaxSteps, h.voltageMaxSteps, k) && Masked(x, y, mask, HeaderScale(h), center, k)
  }

  /** The run's results as the array holds them: lanes 0 and 1, no cell twice. */
  ghost predicate Distinct(results: seq<EomResult>) {
    forall i, j | 0 <= i < j < |results| :: CellOf(results[i]) != CellOf(results[j])
  }

  /** What a complete sweep leaves in the array. */
  lemma SweepResults(side: Side, target: Word32, first: nat, lanes: nat, w: Window, results: seq<EomResult>,
                     tr: seq<Event>)
    requires CompleteRun(side, target, first, lanes, w, results, tr)
    ensures Distinct(results)
    ensures forall r | r in results :: InSweep(first, lanes, w, CellOf(r)) && Measured(side, target, r, tr)
    ensures forall c | InSweep(first, lanes, w, c) :: exists r :: r in results && CellOf(r) == c
  {
    hide CompleteRun, Measured, AllCells;
    CompleteRunRecordsGrid(side, target, first, lanes, w, results, tr);
    SweepIsGrid(first, lanes, w);
    forall r | r in results
      ensures InSweep(first, lanes, w, CellOf(r))
    {
      var i :| 0 <= i < |results| && results[i] == r;
      assert CellSeq(results)[i] == CellOf(r);
    }
    forall c | InSweep(first, lanes, w, c)
      ensures exists r :: r in results && CellOf(r) == c
    {
      var i :| 0 <= i < |AllCells(first, lanes, w)| && AllCells(first, lanes, w)[i] == c;
      assert results[i] in results && CellOf(results[i]) == c;
    }
  }

  /** A recorded error count is never negative. */
  lemma CountsAreNatural(side: Side, target: Word32, r: EomResult, tr: seq<Event>)
    requires Measured(side, target, r, tr)
    ensures r.errorCnt >= 0
  {
  }

  /** A lane passes exactly when no centre was found or every cell of the mask was scanned and
      recorded without errors. */
  lemma PassExactly(x: Coordinate, y: Coordinate, mask: Mask, h: Header, results: seq<EomResult>, lane: nat)
    requires PlottableHeader(h) && lane <= 1 && results != [] && Distinct(results)
    requires forall r | r in results :: r.lane <= 1 && r.errorCnt >= 0
    ensures HasGrid(Parsed(h, results))
    ensures
      var center := LaneCenter(Parsed(h, results), lane);
      LaneVerdict(x, y, mask, Parsed(h, results), lane) <==>
        center.None? || forall k | InMask(x, y, mask, h, center.value, k) :: EomResult(lane, k.timing, k.volt, 0) in results
  {
    ParsedHasGrid(h, results);
    if LaneCenter(Parsed(h, results), lane).Some? {
      PassExactlyAt(x, y, mask, h, results, lane, LaneCenter(Parsed(h, results), lane).value);
    }
  }

  lemma ParsedHasGrid(h: Header, results: seq<EomResult>)
    requires PlottableHeader(h) && results != [] && forall r | r in results :: r.lane <= 1
    ensures HasGrid(Parsed(h, results))
  {
    hide ReadableHeader, ReportText, ReadLines, ParseLines, LaneMap;
    ReportRoundTrip(h, results);
    StateOfReport(h, results);
  }

  lemma PassExactlyAt(x: Coordinate, y: Coordinate, mask: Mask, h: Header, results: seq<EomResult>, lane: nat,
                      center: int)
    requires PlottableHeader(h) && lane <= 1 && results != [] && Distinct(results)
    requires forall r | r in results :: r.lane <= 1 && r.errorCnt >= 0
    requires HasGrid(Parsed(h, results)) && LaneCenter(Parsed(h, results), lane) == Some(center)
    ensures LaneVerdict(x, y, mask, Parsed(h, results), lane) <==>
      forall k | InMask(x, y, mask, h, center, k) :: EomResult(lane, k.timing, k.volt, 0) in results
  {
    hide ReadableHeader, Masked, ReportText, ReadLines, ParseLines, LaneMap, EyeCenter, HasRow;
    ReportRoundTrip(h, results);
    var st := Parsed(h, results);
    StateOfReport(h, results);
    var data := LaneMap(results, lane);
    assert LaneData(st, lane) == data && ScaleOf(st) == HeaderScale(h);
    if LaneVerdict(x, y, mask, st, lane) {
      forall k | InMask(x, y, mask, h, center, k)
        ensures EomResult(lane, k.timing, k.volt, 0) in results
      {
        PassCovers(x, y, mask, HeaderScale(h), data, center, k);
        EntryIsResult(results, lane, k);
      }
    }
    if forall k | InMask(x, y, mask, h, center, k) :: EomResult(lane, k.timing, k.volt, 0) in results {
      forall k | InMask(x, y, mask, h, center, k)
        ensures k in FilledLane(st, lane) && FilledLane(st, lane)[k] == 0
      {
        ResultIsEntry(results, EomResult(lane, k.timing, k.volt, 0));
        FilledExact(data, 0, h.timingMaxSteps, h.voltageMaxSteps, k);
      }
    }
  }

  lemma StateOfReport(h: Header, results: seq<EomResult>)
    requires ReadableHeader(h) && results != []
    ensures
      var st := ReportState(h, results);
      && st.status == Running && st.badDataCount == 0
      && st.laneList == LanesOf(results)
      && st.lane0 == LaneMap(results, 0) && st.lane1 == LaneMap(results, 1)
      && st.timingMaxSteps == h.timingMaxSteps && st.voltageMaxSteps == h.voltageMaxSteps
      && st.timingMaxOffset == h.timingMaxOffset && st.voltageMaxOffset == h.voltageMaxOffset
      && st.timingStep == TimingStep(h.timingMaxSteps, h.timingMaxOffset)
      && st.voltageStep == VoltageStep(h.voltageMaxSteps, h.voltageMaxOffset)
      && st.gear == h.gear
  {
  }

  lemma {:induction false} LanesOfResults(results: seq<EomResult>, lane: int)
    ensures lane in LanesOf(results) <==> exists r :: r in results && r.lane == lane
  {
    if results != [] {
      var before, last := results[..|results| - 1], results[|results| - 1];
      LanesOfResults(before, lane);
      assert results == before + [last];
      assert last in results;
    }
  }

  lemma StepZero(steps: int, offset: int)
    requires steps != 0
    ensures TimingStep(steps, offset) == 0.0 <==> offset == 0
    ensures VoltageStep(steps, offset) == 0.0 <==> offset == 0
  {
  }

  /** The outcome of plotting the report of a complete sweep: the verdict is about the lanes that
      were swept and about no others, unless an offset of zero makes the plotter quit. */
  lemma PlotDecides(x: Coordinate, y: Coordinate, mask: Mask, side: Side, target: Word32, first: nat, lanes: nat,
                    w: Window, results: seq<EomResult>, tr: seq<Event>, h: Header)
    requires CompleteRun(side, target, first, lanes, w, results, tr)
    requires PlottableHeader(h) && 0 < lanes && first + lanes <= 2 && w.timings > 0 && w.volts > 0
    ensures HasGrid(Parsed(h, results))
    ensures Evaluate(x, y, mask, Parsed(h, results)) ==
      if h.timingMaxOffset == 0 || h.voltageMaxOffset == 0 then Exited
      else if GridCollides(x, y, HeaderScale(h)) then Raised
      else Decided(forall lane | first <= lane < first + lanes :: LaneVerdict(x, y, mask, Parsed(h, results), lane))
  {
    hide ReadableHeader, ReportText, ReadLines, ParseLines, LaneMap, LanesOf, TimingStep, VoltageStep, LaneVerdict,
         CompleteRun, Measured, OneLine, HeaderState;
    SweepResults(side, target, first, lanes, w, results, tr);
    assert InSweep(first, lanes, w, Cell(first, w.left, w.low));
    var some :| some in results && CellOf(some) == Cell(first, w.left, w.low);
    SweptLanes(results, first, lanes, w);
    ReportRoundTrip(h, results);
    StateOfReport(h, results);
    StepZero(h.timingMaxSteps, h.timingMaxOffset);
    StepZero(h.voltageMaxSteps, h.voltageMaxOffset);
    assert first in LanesOf(results);
  }

  /** The same with exact arithmetic, on what the header says: the plotter raises exactly when there
      are more than 100 timing steps or more than 1000 voltage steps for each unit of the offset. */
  lemma ExactPlotDecides(mask: Mask, side: Side, target: Word32, first: nat, lanes: nat, w: Window,
                         results: seq<EomResult>, tr: seq<Event>, h: Header)
    requires CompleteRun(side, target, first, lanes, w, results, tr)
    requires PlottableHeader(h) && 0 < lanes && first + lanes <= 2 && w.timings > 0 && w.volts > 0
    ensures HasGrid(Parsed(h, results))
    ensures Evaluate(ExactX, ExactY, mask, Parsed(h, results)) ==
      if h.timingMaxOffset == 0 || h.voltageMaxOffset == 0 then Exited
      else if h.timingMaxSteps > 100 * Span(h.timingMaxOffset)
              || h.voltageMaxSteps > 1000 * Span(h.voltageMaxOffset) then Raised
      else Decided(forall lane | first <= lane < first + lanes ::
        LaneVerdict(ExactX, ExactY, mask, Parsed(h, results), lane))
  {
    hide ReadableHeader, OneLine, NameText, Parsed, LaneVerdict, Evaluate, CompleteRun, GridCollides, ExactX, ExactY;
    PlotDecides(ExactX, ExactY, mask, side, target, first, lanes, w, results, tr, h);
    CollidesExactly(HeaderScale(h));
  }

  /** Within the steps the registers hold and with offsets that are positive, the plotter always
      decides. */
  lemma RegisterStepsDecide(mask: Mask, side: Side, target: Word32, first: nat, lanes: nat, w: Window,
                            results: seq<EomResult>, tr: seq<Event>, h: Header)
    requires CompleteRun(side, target, first, lanes, w, results, tr)
    requires PlottableHeader(h) && 0 < lanes && first + lanes <= 2 && w.timings > 0 && w.volts > 0
    requires h.timingMaxSteps <= 63 && h.voltageMaxSteps <= 63 && h.timingMaxOffset > 0 && h.voltageMaxOffset > 0
    ensures Evaluate(ExactX, ExactY, mask, Parsed(h, results)).Decided?
  {
    hide ReadableHeader, OneLine, NameText, Parsed, LaneVerdict, Evaluate, CompleteRun, ExactX, ExactY;
    ExactPlotDecides(mask, side, target, first, lanes, w, results, tr, h);
  }

  /** 200 timing steps up to an offset of 1 are too many: the middle and its neighbour are drawn at the
      same place, and the plotter raises whatever was measured. */
  lemma CoarseOffsetRaises(mask: Mask, side: Side, target: Word32, first: nat, lanes: nat, w: Window,
                           results: seq<EomResult>, tr: seq<Event>, h: Header)
    requires CompleteRun(side, target, first, lanes, w, results, tr)
    requires PlottableHeader(h) && 0 < lanes && first + lanes <= 2 && w.timings > 0 && w.volts > 0
    requires h.timingMaxSteps == 200 && h.timingMaxOffset == 1 && h.voltageMaxOffset > 0
    ensures ExactX(h.timingMaxSteps, h.timingMaxOffset, 0) == ExactX(h.timingMaxSteps, h.timingMaxOffset, 1)
    ensures Evaluate(ExactX, ExactY, mask, Parsed(h, results)) == Raised
  {
    assert ExactX(200, 1, 0) == ExactX(200, 1, 1);
    hide ReadableHeader, OneLine, NameText, Parsed, LaneVerdict, Evaluate, CompleteRun, ExactX, ExactY;
    ExactPlotDecides(mask, side, target, first, lanes, w, results, tr, h);
  }

  /** The outcome of plotting any report, from its header and its results alone. */
  ghost function OutcomeOf(x: Coordinate, y: Coordinate, mask: Mask, h: Header, results: seq<EomResult>): Outcome {
    if HeaderRaises(h) then Raised
    else if results != [] && h.gear < 0 then NoVerdict
    else if results != [] && h.gear < 4 then Decided(false)
    else if exists r :: r in results && r.lane > 1 then Exited
    else if Split(NameText(h.names))[0] == "count" then NoVerdict
    else if h.timingMaxOffset == 0 || h.voltageMaxOffset == 0 then Exited
    else if results == [] then Decided(true)
    else if h.timingMaxSteps < 0 || h.voltageMaxSteps < 0 || GridCollides(x, y, HeaderScale(h)) then Raised
    else Decided(forall lane: nat | LaneOccurs(results, lane) ::
      PassOf(x, y, mask, HeaderScale(h), LaneMap(results, lane)))
  }

  predicate LaneOccurs(results: seq<EomResult>, lane: nat) {
    exists r :: r in results && r.lane == lane
  }

  /** Every report, of every gear: which of them raise, exit, are refused, have no verdict, pass or
      fail. */
  lemma ReportOutcome(x: Coordinate, y: Coordinate, mask: Mask, h: Header, results: seq<EomResult>)
    requires OneLine(NameText(h.names))
    ensures Evaluate(x, y, mask, Parsed(h, results)) == OutcomeOf(x, y, mask, h, results)
  {
    hide Evaluate, ReportText, ReadLines, ParseLines, Lines, NameText, HeaderRaises;
    LinesOfReport(h, results);
    AnyReportParses(h, results);
    if HeaderRaises(h) {
      CrashedRaises(x, y, mask, Parsed(h, results));
    } else if results != [] && h.gear < 0 {
      NoGearSpoils(h, results);
      SpoiltHasNoVerdict(x, y, mask, Parsed(h, results));
    } else if results != [] && h.gear < 4 {
      LowGearStops(h, results);
      RefusedFails(x, y, mask, Parsed(h, results));
    } else if exists r :: r in results && r.lane > 1 {
      ThirdLaneQuits(h, results);
      QuitExits(x, y, mask, Parsed(h, results));
    } else {
      ReadOutcome(x, y, mask, h, results);
    }
  }

  lemma CrashedRaises(x: Coordinate, y: Coordinate, mask: Mask, st: ParseState)
    requires st.status == Crashed
    ensures Evaluate(x, y, mask, st) == Raised
  {
  }

  lemma SpoiltHasNoVerdict(x: Coordinate, y: Coordinate, mask: Mask, st: ParseState)
    requires st.status == Running && st.badDataCount > 0
    ensures Evaluate(x, y, mask, st) == NoVerdict
  {
  }

  lemma RefusedFails(x: Coordinate, y: Coordinate, mask: Mask, st: ParseState)
    requires st.status == Unsupported
    ensures Evaluate(x, y, mask, st) == Decided(false)
  {
  }

  lemma QuitExits(x: Coordinate, y: Coordinate, mask: Mask, st: ParseState)
    requires st.status == Quit
    ensures Evaluate(x, y, mask, st) == Exited
  {
  }

  /** The reports that are read to their end. */
  lemma ReadOutcome(x: Coordinate, y: Coordinate, mask: Mask, h: Header, results: seq<EomResult>)
    requires !HeaderRaises(h) && (results != [] ==> h.gear >= 4) && forall r | r in results :: r.lane <= 1
    requires Parsed(h, results) == ParseLines(HeaderState(h), ResultLines(results))
    ensures Evaluate(x, y, mask, Parsed(h, results)) == OutcomeOf(x, y, mask, h, results)
  {
    var st := Parsed(h, results);
    hide Parsed, ParseLines, ResultLines, NameText, NamesRead, TimingStep, VoltageStep, LaneMap, LanesOf, Split, PassOf,
         GridCollides, GearName, RateWord, SideName;
    if results != [] {
      ResultLinesParse(h, results);
      StateRead(h, results);
      LanesRead(results);
      if st.badDataCount == 0 && st.timingStep != 0.0 && st.voltageStep != 0.0 {
        VerdictOfLanes(x, y, mask, h, results, st);
      }
    } else {
      NothingRead(h);
    }
    StepZero(h.timingMaxSteps, h.timingMaxOffset);
    StepZero(h.voltageMaxSteps, h.voltageMaxOffset);
  }

  lemma NothingRead(h: Header)
    requires !HeaderRaises(h)
    ensures ParseLines(HeaderState(h), ResultLines([])) == HeaderState(h) && HeaderState(h).laneList == []
  {
  }

  lemma StateRead(h: Header, results: seq<EomResult>)
    requires !HeaderRaises(h) && results != []
    ensures
      var st := ReportState(h, results);
      && st.status == Running && st.laneList == LanesOf(results)
      && st.badDataCount == (if Split(NameText(h.names))[0] == "count" then 1 else 0)
      && st.timingStep == TimingStep(h.timingMaxSteps, h.timingMaxOffset)
      && st.voltageStep == VoltageStep(h.voltageMaxSteps, h.voltageMaxOffset)
      && ScaleOf(st) == HeaderScale(h)
      && st.lane0 == LaneMap(results, 0) && st.lane1 == LaneMap(results, 1)
  {
  }

  lemma LanesRead(results: seq<EomResult>)
    ensures forall lane: int :: lane in LanesOf(results) <==> exists r :: r in results && r.lane == lane
    ensures results != [] ==> LanesOf(results) != []
  {
    forall lane: int
      ensures lane in LanesOf(results) <==> exists r :: r in results && r.lane == lane
    {
      LanesOfResults(results, lane);
    }
    if results != [] {
      assert results[0] in results;
      assert results[0].lane in LanesOf(results);
    }
  }

  lemma VerdictOfLanes(x: Coordinate, y: Coordinate, mask: Mask, h: Header, results: seq<EomResult>, st: ParseState)
    requires st.status == Running && st.badDataCount == 0 && st.timingStep != 0.0 && st.voltageStep != 0.0
    requires st.laneList == LanesOf(results) != [] && ScaleOf(st) == HeaderScale(h)
    requires st.lane0 == LaneMap(results, 0) && st.lane1 == LaneMap(results, 1)
    requires forall r | r in results :: r.lane <= 1
    requires forall lane: int :: lane in LanesOf(results) <==> exists r :: r in results && r.lane == lane
    ensures Evaluate(x, y, mask, st) ==
      if h.timingMaxSteps < 0 || h.voltageMaxSteps < 0 || GridCollides(x, y, HeaderScale(h)) then Raised
      else Decided(forall lane: nat | LaneOccurs(results, lane) ::
        PassOf(x, y, mask, HeaderScale(h), LaneMap(results, lane)))
  {
    hide LaneMap, LanesOf, PassOf, GridCollides;
    if HasGrid(st) {
      forall lane: nat | LaneOccurs(results, lane)
        ensures lane in st.laneList
        ensures LaneVerdict(x, y, mask, st, lane) == PassOf(x, y, mask, HeaderScale(h), LaneMap(results, lane))
      {
      }
      forall lane | lane in st.laneList
        ensures lane >= 0 && LaneOccurs(results, lane)
      {
      }
    }
  }

  lemma SweptLanes(results: seq<EomResult>, first: nat, lanes: nat, w: Window)
    requires w.timings > 0 && w.volts > 0
    requires forall r | r in results :: InSweep(first, lanes, w, CellOf(r))
    requires forall c | InSweep(first, lanes, w, c) :: exists r :: r in results && CellOf(r) == c
    ensures forall lane :: lane in LanesOf(results) <==> first <= lane < first + lanes
  {
    forall lane
      ensures lane in LanesOf(results) <==> first <= lane < first + lanes
    {
      LanesOfResults(results, lane);
      if first <= lane < first + lanes {
        assert InSweep(first, lanes, w, Cell(lane, w.left, w.low));
      }
    }
  }

  /** Everything in the mask around the centre was measured on the given lane, without errors and
      over the whole test count, with the monitor set to that very step. */
  ghost predicate MaskMeasuredClean(x: Coordinate, y: Coordinate, mask: Mask, h: Header, center: int, side: Side,
                                    lane: nat, target: Word32, tr: seq<Event>) {
    forall k | InMask(x, y, mask, h, center, k) :: MeasuredClean(side, lane, k.timing, k.volt, target, tr)
  }

  /** PASS of a lane whose centre was found is a statement about the device: the mask lies within
      the swept window, and every cell of it was measured clean. */
  lemma PassSoundness(x: Coordinate, y: Coordinate, mask: Mask, side: Side, target: Word32, first: nat, lanes: nat,
                      w: Window, results: seq<EomResult>, tr: seq<Event>, h: Header, lane: nat)
    requires CompleteRun(side, target, first, lanes, w, results, tr) && results != []
    requires PlottableHeader(h) && h.timingMaxSteps <= 63 && h.voltageMaxSteps <= 63
    requires first + lanes <= 2 && lane <= 1
    ensures HasGrid(Parsed(h, results))
    ensures
      var center := LaneCenter(Parsed(h, results), lane);
      LaneVerdict(x, y, mask, Parsed(h, results), lane) && center.Some? ==>
        && MaskMeasuredClean(x, y, mask, h, center.value, side, lane, target, tr)
        && forall k | InMask(x, y, mask, h, center.value, k) :: InSweep(first, lanes, w, Cell(lane, k.timing, k.volt))
  {
    hide CompleteRun, ReadableHeader, Masked, Parsed, LaneVerdict, LaneCenter, Measured, MeasuredFully;
    SweepResults(side, target, first, lanes, w, results, tr);
    forall r | r in results
      ensures r.lane <= 1 && r.errorCnt >= 0
    {
      CountsAreNatural(side, target, r, tr);
    }
    PassExactly(x, y, mask, h, results, lane);
    var center := LaneCenter(Parsed(h, results), lane);
    if LaneVerdict(x, y, mask, Parsed(h, results), lane) && center.Some? {
      forall k | InMask(x, y, mask, h, center.value, k)
        ensures MeasuredClean(side, lane, k.timing, k.volt, target, tr)
        ensures InSweep(first, lanes, w, Cell(lane, k.timing, k.volt))
      {
        var r := EomResult(lane, k.timing, k.volt, 0);
        assert r in results && CellOf(r) == Cell(lane, k.timing, k.volt);
        FewErrorsOverFullTest(side, target, r, tr);
      }
    }
  }

  /** For any monotone columns, PASS puts every zero-voltage column of the mask into the error-free
      run that the boundary search found. */
  lemma PassRowInRun(x: Coordinate, y: Coordinate, mask: Mask, h: Header, results: seq<EomResult>, lane: nat, t: int)
    requires PlottableHeader(h) && results != [] && lane <= 1
    requires Monotone(x, h.timingMaxSteps, h.timingMaxOffset) && Convex(mask)
    requires forall r | r in results :: r.lane <= 1
    ensures HasGrid(Parsed(h, results))
    ensures
      var st := Parsed(h, results);
      var left, right := LaneBoundary(st, lane, Left), LaneBoundary(st, lane, Right);
      LaneVerdict(x, y, mask, st, lane) && LaneCenter(st, lane).Some?
      && InMask(x, y, mask, h, LaneCenter(st, lane).value, Key(t, 0)) ==>
        && left.Some? && right.Some? && left.value <= t <= right.value
        && Key(t, 0) in LaneMap(results, lane) && LaneMap(results, lane)[Key(t, 0)] <= 0
  {
    hide LaneMap, InMask, LaneBoundary, LaneVerdict, LaneCenter, Parsed;
    ParsedHasGrid(h, results);
    var st := Parsed(h, results);
    if LaneVerdict(x, y, mask, st, lane) && LaneCenter(st, lane).Some?
      && InMask(x, y, mask, h, LaneCenter(st, lane).value, Key(t, 0))
    {
      PassRowAt(x, y, mask, h, results, lane, LaneCenter(st, lane).value, t);
    }
  }

  lemma PassRowAt(x: Coordinate, y: Coordinate, mask: Mask, h: Header, results: seq<EomResult>, lane: nat,
                  center: int, t: int)
    requires PlottableHeader(h) && results != [] && lane <= 1
    requires Monotone(x, h.timingMaxSteps, h.timingMaxOffset) && Convex(mask)
    requires forall r | r in results :: r.lane <= 1
    requires HasGrid(Parsed(h, results)) && LaneCenter(Parsed(h, results), lane) == Some(center)
    requires LaneVerdict(x, y, mask, Parsed(h, results), lane) && InMask(x, y, mask, h, center, Key(t, 0))
    ensures LaneBoundary(Parsed(h, results), lane, Left).Some? && LaneBoundary(Parsed(h, results), lane, Right).Some?
    ensures LaneBoundary(Parsed(h, results), lane, Left).value <= t <= LaneBoundary(Parsed(h, results), lane, Right).value
    ensures Key(t, 0) in LaneMap(results, lane) && LaneMap(results, lane)[Key(t, 0)] <= 0
  {
    hide ReadableHeader, ReportText, ReadLines, ParseLines, LaneMap, TimingStep, VoltageStep, Masked, HasRow, Filled,
         Boundary, EyeCenter, LanePasses;
    ReportRoundTrip(h, results);
    StateOfReport(h, results);
    FilledHasRow(LaneMap(results, lane), h.timingMaxSteps, h.voltageMaxSteps);
    CenterInside(FilledLane(Parsed(h, results), lane), h.timingMaxSteps);
    PassCovers(x, y, mask, HeaderScale(h), LaneMap(results, lane), center, Key(t, 0));
    PassInsideRun(x, y, mask, HeaderScale(h), FilledLane(Parsed(h, results), lane), t);
  }

  /** The same with exact arithmetic. */
  lemma ExactRowInRun(h: Header, results: seq<EomResult>, lane: nat, t: int)
    requires PlottableHeader(h) && results != [] && lane <= 1 && h.timingMaxOffset >= 0
    requires forall r | r in results :: r.lane <= 1
    ensures HasGrid(Parsed(h, results))
    ensures
      var st := Parsed(h, results);
      var left, right := LaneBoundary(st, lane, Left), LaneBoundary(st, lane, Right);
      LaneVerdict(ExactX, ExactY, InEyeMask, st, lane) && LaneCenter(st, lane).Some?
      && InMask(ExactX, ExactY, InEyeMask, h, LaneCenter(st, lane).value, Key(t, 0)) ==>
        left.Some? && right.Some? && left.value <= t <= right.value
  {
    hide LaneMap, InMask, LaneBoundary, LaneVerdict, LaneCenter, Parsed, ExactX, ExactY;
    ExactMonotone(h.timingMaxSteps, h.timingMaxOffset);
    MaskConvex();
    PassRowInRun(ExactX, ExactY, InEyeMask, h, results, lane, t);
  }

  // ----- When nothing is checked -----

  /** The zero-voltage cell of a column was not recorded, or with the count that marks a gap. */
  ghost predicate RowGap(results: seq<EomResult>, lane: nat, t: int) {
    forall r | r in results && CellOf(r) == Cell(lane, t, 0) :: r.errorCnt == INVALID_ERROR_COUNT
  }

  predicate RowClean(results: seq<EomResult>, lane: nat, t: int) {
    EomResult(lane, t, 0, 0) in results
  }

  /** In one direction, a gap comes before any column with errors. */
  ghost predicate GapFirst(results: seq<EomResult>, lane: nat, timingMax: int, d: Direction, k: nat) {
    k <= timingMax && RowGap(results, lane, Out(d, k)) && forall j: nat | j < k :: RowClean(results, lane, Out(d, j))
  }

  /** PASS leaves the mask unchecked exactly when the lane has no centre, and that is the case
      exactly when, in one direction, a gap in the recorded middle row comes before any error. */
  lemma NoCenterInReport(h: Header, results: seq<EomResult>, lane: nat)
    requires PlottableHeader(h) && lane <= 1 && results != [] && Distinct(results)
    requires forall r | r in results :: r.lane <= 1 && r.errorCnt >= 0
    ensures HasGrid(Parsed(h, results))
    ensures LaneCenter(Parsed(h, results), lane) == None <==>
      exists d, k: nat :: GapFirst(results, lane, h.timingMaxSteps, d, k)
  {
    hide ReadableHeader, ReportText, ReadLines, ParseLines, LaneMap, EyeCenter, HasRow, Filled;
    ReportRoundTrip(h, results);
    StateOfReport(h, results);
    var data := LaneMap(results, lane);
    var filled := Filled(data, h.timingMaxSteps, h.voltageMaxSteps);
    FilledHasRow(data, h.timingMaxSteps, h.voltageMaxSteps);
    NoCenterExactly(filled, h.timingMaxSteps);
    forall d, k: nat | k <= h.timingMaxSteps
      ensures GapFirst(results, lane, h.timingMaxSteps, d, k) <==> MissingColumn(filled, d, k) && CleanUpTo(filled, d, k)
    {
      GapIsMissing(h, results, lane, d, k);
    }
  }

  lemma GapIsMissing(h: Header, results: seq<EomResult>, lane: nat, d: Direction, k: nat)
    requires h.timingMaxSteps > 0 && h.voltageMaxSteps > 0 && Distinct(results) && k <= h.timingMaxSteps
    requires forall r | r in results :: r.errorCnt >= 0
    ensures
      var filled := Filled(LaneMap(results, lane), h.timingMaxSteps, h.voltageMaxSteps);
      GapFirst(results, lane, h.timingMaxSteps, d, k) <==> MissingColumn(filled, d, k) && CleanUpTo(filled, d, k)
  {
    hide Filled, LaneMap;
    forall j: nat | j <= k
      ensures
        var filled := Filled(LaneMap(results, lane), h.timingMaxSteps, h.voltageMaxSteps);
        && (RowGap(results, lane, Out(d, j)) <==> MissingColumn(filled, d, j))
        && (RowClean(results, lane, Out(d, j)) <==> CleanColumn(filled, d, j))
    {
      RowInFilled(h, results, lane, d, j);
    }
  }

  lemma RowInFilled(h: Header, results: seq<EomResult>, lane: nat, d: Direction, j: nat)
    requires h.timingMaxSteps > 0 && h.voltageMaxSteps > 0 && Distinct(results) && j <= h.timingMaxSteps
    requires forall r | r in results :: r.errorCnt >= 0
    ensures
      var filled := Filled(LaneMap(results, lane), h.timingMaxSteps, h.voltageMaxSteps);
      && (RowGap(results, lane, Out(d, j)) <==> MissingColumn(filled, d, j))
      && (RowClean(results, lane, Out(d, j)) <==> CleanColumn(filled, d, j))
  {
    hide Fill, LaneMap, LaneCells;
    var data, k := LaneMap(results, lane), Key(Out(d, j), 0);
    FilledExact(data, 0, h.timingMaxSteps, h.voltageMaxSteps, k);
    if k in data {
      EntryIsResult(results, lane, k);
    }
    forall r | r in results && CellOf(r) == Cell(lane, Out(d, j), 0)
      ensures k in data && data[k] == r.errorCnt
    {
      ResultIsEntry(results, r);
    }
  }

  /** A lane without a centre passes. */
  lemma NoCenterPasses(x: Coordinate, y: Coordinate, mask: Mask, h: Header, results: seq<EomResult>, lane: nat,
                       d: Direction, k: nat)
    requires PlottableHeader(h) && lane <= 1 && results != [] && Distinct(results)
    requires forall r | r in results :: r.lane <= 1 && r.errorCnt >= 0
    requires GapFirst(results, lane, h.timingMaxSteps, d, k)
    ensures HasGrid(Parsed(h, results)) && LaneCenter(Parsed(h, results), lane) == None
    ensures LaneVerdict(x, y, mask, Parsed(h, results), lane)
  {
    hide Parsed, LaneCenter, LaneVerdict, InMask, GapFirst, Distinct, PlottableHeader;
    NoCenterInReport(h, results, lane);
    PassExactly(x, y, mask, h, results, lane);
  }

  /** A sweep that left out the middle of the grid passes, whatever else it recorded. */
  lemma SkippedMiddlePasses(x: Coordinate, y: Coordinate, mask: Mask, h: Header, results: seq<EomResult>, lane: nat)
    requires PlottableHeader(h) && results != [] && lane <= 1
    requires forall r | r in results :: r.lane <= 1 && CellOf(r) != Cell(lane, 0, 0)
    ensures HasGrid(Parsed(h, results)) && LaneCenter(Parsed(h, results), lane) == None
    ensures LaneVerdict(x, y, mask, Parsed(h, results), lane)
  {
    hide ReadableHeader, ReportText, ReadLines, ParseLines, LaneMap, EyeCenter;
    ReportRoundTrip(h, results);
    StateOfReport(h, results);
    var data, middle := LaneMap(results, lane), Key(0, 0);
    if middle in data {
      EntryIsResult(results, lane, middle);
      assert false;
    }
    FilledExact(data, 0, h.timingMaxSteps, h.voltageMaxSteps, middle);
    FilledHasRow(data, h.timingMaxSteps, h.voltageMaxSteps);
    var filled := Filled(data, h.timingMaxSteps, h.voltageMaxSteps);
    NoCenterExactly(filled, h.timingMaxSteps);
    assert MissingColumn(filled, Right, 0) && CleanUpTo(filled, Right, 0);
  }

  /** So does one of the timings -1 to 1 whose middle row is clean. */
  lemma NarrowSweepPasses(x: Coordinate, y: Coordinate, mask: Mask, h: Header, results: seq<EomResult>)
    requires PlottableHeader(h) && h.timingMaxSteps >= 2
    requires results == [EomResult(0, -1, 0, 0), EomResult(0, 0, 0, 0), EomResult(0, 1, 0, 0)]
    ensures HasGrid(Parsed(h, results)) && LaneCenter(Parsed(h, results), 0) == None
    ensures LaneVerdict(x, y, mask, Parsed(h, results), 0)
  {
    hide Parsed, LaneCenter, LaneVerdict;
    assert results[1] in results && results[2] in results;
    assert GapFirst(results, 0, h.timingMaxSteps, Right, 2);
    NoCenterPasses(x, y, mask, h, results, 0, Right, 2);
  }

  /** And one whose middle point counted 999 errors. */
  lemma FullCountPasses(x: Coordinate, y: Coordinate, mask: Mask, h: Header, results: seq<EomResult>)
    requires PlottableHeader(h) && results == [EomResult(0, 0, 0, 999)]
    ensures HasGrid(Parsed(h, results)) && LaneCenter(Parsed(h, results), 0) == None
    ensures LaneVerdict(x, y, mask, Parsed(h, results), 0)
  {
    hide Parsed, LaneCenter, LaneVerdict;
    assert GapFirst(results, 0, h.timingMaxSteps, Right, 0);
    NoCenterPasses(x, y, mask, h, results, 0, Right, 0);
  }

  /** An eye of gear 4 that is 19 of 51 columns wide fails: with 25 timing steps up to an offset of 50 its
      mask reaches the errors in column 10. */
  lemma GearFourFails(h: Header, results: seq<EomResult>, lane: nat)
    requires PlottableHeader(h) && lane <= 1 && Distinct(results)
    requires forall r | r in results :: r.lane <= 1 && r.errorCnt >= 0
    requires h.gear == 4 && h.timingMaxSteps == 25 && h.timingMaxOffset == 50
    requires forall t | -10 < t < 10 :: RowClean(results, lane, t)
    requires EomResult(lane, 10, 0, 5) in results && EomResult(lane, -10, 0, 5) in results
    ensures HasGrid(Parsed(h, results)) && LaneCenter(Parsed(h, results), lane) == Some(0)
    ensures !LaneVerdict(ExactX, ExactY, InEyeMask, Parsed(h, results), lane)
  {
    CenterOfTen(h, results, lane);
    ColumnTen(HeaderScale(h));
    hide Masked, LaneVerdict, LaneCenter, Parsed, ReadableHeader, ExactX, ExactY, InEyeMask;
    PassExactly(ExactX, ExactY, InEyeMask, h, results, lane);
    if LaneVerdict(ExactX, ExactY, InEyeMask, Parsed(h, results), lane) {
      assert InMask(ExactX, ExactY, InEyeMask, h, 0, Key(10, 0));
      NotBoth(results, EomResult(lane, 10, 0, 0), EomResult(lane, 10, 0, 5));
    }
  }

  lemma NotBoth(results: seq<EomResult>, r: EomResult, q: EomResult)
    requires Distinct(results) && CellOf(r) == CellOf(q) && r != q
    ensures !(r in results && q in results)
  {
  }

  /** Errors in the columns 10 and -10 and none between them put the centre into the middle. */
  lemma CenterOfTen(h: Header, results: seq<EomResult>, lane: nat)
    requires PlottableHeader(h) && lane <= 1 && Distinct(results) && h.timingMaxSteps == 25
    requires forall r | r in results :: r.lane <= 1 && r.errorCnt >= 0
    requires forall t | -10 < t < 10 :: RowClean(results, lane, t)
    requires EomResult(lane, 10, 0, 5) in results && EomResult(lane, -10, 0, 5) in results
    ensures HasGrid(Parsed(h, results)) && LaneCenter(Parsed(h, results), lane) == Some(0)
  {
    hide ReadableHeader, ReportText, ReadLines, ParseLines, LaneMap, EyeCenter, HasRow, Fill, LaneCells, Boundary;
    ReportRoundTrip(h, results);
    StateOfReport(h, results);
    var data := LaneMap(results, lane);
    var filled := Filled(data, 25, h.voltageMaxSteps);
    FilledHasRow(data, 25, h.voltageMaxSteps);
    forall d
      ensures Boundary(filled, 25, d) == Some(Out(d, 9))
    {
      forall j: nat | j < 10
        ensures CleanColumn(filled, d, j)
      {
        assert RowClean(results, lane, Out(d, j));
        RowInFilled(h, results, lane, d, j);
      }
      ResultIsEntry(results, EomResult(lane, Out(d, 10), 0, 5));
      FilledExact(data, 0, 25, h.voltageMaxSteps, Column0(d, 10));
      assert MaximalRun(filled, 25, d, 9);
      BoundaryExact(filled, 25, d);
    }
    CenterBetween(filled, 25);
  }

  lemma CenterBetween(data: map<Key, int>, timingMax: nat)
    requires HasRow(data, timingMax)
    requires Boundary(data, timingMax, Right) == Some(9) && Boundary(data, timingMax, Left) == Some(-9)
    ensures EyeCenter(data, timingMax) == Some(0)
  {
  }

  /** What a passing run of both programs guarantees about the swept lanes. */
  ghost predicate PassMeans(x: Coordinate, y: Coordinate, mask: Mask, h: Header, st: ParseState, side: Side,
                            first: nat, lanes: nat, target: Word32, tr: seq<Event>) {
    && HasGrid(st)
    && forall lane: nat | first <= lane < first + lanes && LaneCenter(st, lane).Some? ::
      MaskMeasuredClean(x, y, mask, h, LaneCenter(st, lane).value, side, lane, target, tr)
  }

  /** PASS needs a header that can be read back. */
  lemma PassNeedsHeader(x: Coordinate, y: Coordinate, mask: Mask, h: Header, results: seq<EomResult>)
    requires OneLine(NameText(h.names)) && h.gear >= 4 && h.timingMaxSteps >= 0 && h.voltageMaxSteps >= 0
    requires forall r | r in results :: r.lane <= 1
    requires Evaluate(x, y, mask, Parsed(h, results)) == Decided(true)
    ensures PlottableHeader(h)
  {
    hide HarmlessNames, NameText, ReportText, ReadLines, ParseLines, GridCollides, LaneVerdict, LaneMap, LanesOf,
         HeaderState;
    ReportRoundTrip(h, results);
  }

  /** The headline: when the plotter passes the report of a complete sweep, every mask it looked at
      was measured clean. Whatever computes coordinates and mask, the names in the report need only
      stay on their line. */
  lemma ReportSoundness(x: Coordinate, y: Coordinate, mask: Mask, side: Side, target: Word32, first: nat, lanes: nat,
                        w: Window, results: seq<EomResult>, tr: seq<Event>, h: Header)
    requires CompleteRun(side, target, first, lanes, w, results, tr)
    requires OneLine(NameText(h.names)) && h.gear >= 4
    requires 0 <= h.timingMaxSteps <= 63 && 0 <= h.voltageMaxSteps <= 63
    requires 0 < lanes && first + lanes <= 2 && w.timings > 0 && w.volts > 0
    ensures Evaluate(x, y, mask, Parsed(h, results)) == Decided(true) ==>
      PlottableHeader(h) && PassMeans(x, y, mask, h, Parsed(h, results), side, first, lanes, target, tr)
  {
    hide ReadableHeader, NameText, OneLine, Parsed, LaneVerdict, LaneCenter, CompleteRun, MaskMeasuredClean, Evaluate,
         Measured;
    SweepResults(side, target, first, lanes, w, results, tr);
    assert InSweep(first, lanes, w, Cell(first, w.left, w.low));
    var st := Parsed(h, results);
    if Evaluate(x, y, mask, st) == Decided(true) {
      PassNeedsHeader(x, y, mask, h, results);
      PlotDecides(x, y, mask, side, target, first, lanes, w, results, tr, h);
      forall lane: nat | first <= lane < first + lanes && LaneCenter(st, lane).Some?
        ensures MaskMeasuredClean(x, y, mask, h, LaneCenter(st, lane).value, side, lane, target, tr)
      {
        PassSoundness(x, y, mask, side, target, first, lanes, w, results, tr, h, lane);
      }
    }
  }

  /** Both programs one after the other, on any device. */
  method MeasureAndPlot(mon: UfsEom.Monitor, plot: EyeMonitorPlot, names: Option<DeviceNames>,
                        memory: bool, fileOpens: bool)
    returns (outcome: Option<Outcome>, ghost start: nat)
    requires mon.Valid() && mon.dataCnt == 0 && plot.Valid()
    modifies mon, mon.dev, mon.tmpBuf, plot
    ensures plot.Valid()
    ensures outcome.Some? ==> names.Some? && mon.Finished(start)
    ensures outcome.Some? ==>
      var h := mon.CurrentHeader(names.value);
      var results := mon.er[..mon.dataCnt];
      && outcome.value == Evaluate(plot.x, plot.y, plot.mask, Parsed(h, results))
      && (outcome.value == Decided(true)
          && OneLine(NameText(h.names)) && h.timingMaxSteps <= 63 && h.voltageMaxSteps <= 63 ==>
            && PlottableHeader(h)
            && PassMeans(plot.x, plot.y, plot.mask, h, Parsed(h, results), mon.localPeer, mon.lane, mon.numLanes,
                         mon.targetTestCount, mon.dev.trace[start..]))
  {
    hide ReportText, ReadLines, ParseLines, Evaluate, Judged, CompleteRun, PlottableHeader, PassMeans, OneLine, NameText;
    var ret, report;
    ret, report, start := mon.Run(names, memory, fileOpens);
    if ret != SUCCESS {
      return None, start;
    }
    var decided := plot.OpenFile(report);
    outcome := Some(decided);
    ghost var h := mon.CurrentHeader(names.value);
    if OneLine(NameText(h.names)) && h.timingMaxSteps <= 63 && h.voltageMaxSteps <= 63 && decided == Decided(true) {
      ReportSoundness(plot.x, plot.y, plot.mask, mon.localPeer, mon.targetTestCount, mon.lane, mon.numLanes,
                      mon.SweepWindow(), mon.er[..mon.dataCnt], mon.dev.trace[start..], h);
    }
  }
}
