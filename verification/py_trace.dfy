/** The commands of the Python sweep on any device: a write may fail and nobody looks, and a point
    may go unrecorded. */
module PyTrace {
  import opened Words
  import opened Wrappers
  import opened Uic
  import opened Grid
  import opened EomTrace

  // ----- One point -----

  /** The command that was asked for, whether or not it succeeded. */
  function Asked(e: Event): Event {
    e.(ok := true)
  }

  /** The six writes of a configuration, in their order. Each may have failed. */
  predicate Attempts(writes: seq<Event>, configured: seq<Event>) {
    |writes| == |configured| && forall i | 0 <= i < |writes| :: Asked(writes[i]) == configured[i]
  }

  /** If not all six succeeded, a write was lost. */
  lemma SomeLost(writes: seq<Event>, side: Side, lane: nat, timingCode: Word32, voltCode: Word32, target: Word32)
    requires Attempts(writes, ConfigWrites(side, lane, timingCode, voltCode, target))
    ensures |writes| == 6
    ensures AllWritten(writes) || exists i :: 0 <= i < 6 && writes[i].isSet && !writes[i].ok
  {
    var configured := ConfigWrites(side, lane, timingCode, voltCode, target);
    forall i | 0 <= i < 6
      ensures writes[i].isSet
    {
      assert Asked(writes[i]) == configured[i] && configured[i].isSet;
    }
  }

  /** The configuration of a point, then reads only. */
  predicate PointAttempt(side: Side, target: Word32, c: Cell, seg: seq<Event>) {
    && |seg| >= 6
    && Attempts(seg[..6], ConfigWrites(side, c.lane, EncodeSteps(c.timing), EncodeSteps(c.volt), target))
    && forall i | 6 <= i < |seg| :: !seg[i].isSet
  }

  /** A point was recorded: its configuration was attempted, and the last three reads are
      conclusive. */
  predicate RecordTrace(side: Side, target: Word32, r: EomResult, seg: seq<Event>) {
    && |seg| >= 9 && PointAttempt(side, target, CellOf(r), seg)
    && Concludes(side, target, r.lane, r.errorCnt, seg[|seg| - 3..])
  }

  predicate AllWritten(seg: seq<Event>)
    requires |seg| >= 6
  {
    forall i | 0 <= i < 6 :: seg[i].ok
  }

  /** A recorded point was measured exactly when none of its six writes failed. */
  lemma BackedExactly(side: Side, target: Word32, r: EomResult, seg: seq<Event>)
    requires RecordTrace(side, target, r, seg)
    ensures PointTrace(side, target, r, seg) <==> AllWritten(seg)
  {
    var writes := ConfigWrites(side, r.lane, EncodeSteps(r.timing), EncodeSteps(r.volt), target);
    if AllWritten(seg) {
      forall i | 0 <= i < 6
        ensures seg[i] == writes[i]
      {
        assert Asked(seg[..6][i]) == writes[i];
      }
      assert seg[..6] == writes;
    }
    if PointTrace(side, target, r, seg) {
      assert forall i | 0 <= i < 6 :: seg[i] == seg[..6][i] == writes[i];
    }
  }

  /** A lost write shows: the register it was meant for was not written since. */
  lemma LostWriteShows(side: Side, target: Word32, r: EomResult, seg: seq<Event>, i: nat)
    requires RecordTrace(side, target, r, seg) && i < 6 && !seg[i].ok
    ensures LastWrite(seg, seg[i].reg) == None
  {
    var writes := ConfigWrites(side, r.lane, EncodeSteps(r.timing), EncodeSteps(r.volt), target);
    forall j | 0 <= j < |seg| && j != i && seg[j].isSet
      ensures seg[j].reg != seg[i].reg
    {
      assert Asked(seg[..6][j]) == writes[j] && Asked(seg[..6][i]) == writes[i];
    }
    NotWritten(seg, seg[i].reg);
  }

  lemma {:induction false} NotWritten(tr: seq<Event>, reg: Register)
    requires forall j | 0 <= j < |tr| :: tr[j].isSet && tr[j].ok ==> tr[j].reg != reg
    ensures LastWrite(tr, reg) == None
  {
    if tr != [] {
      NotWritten(tr[..|tr| - 1], reg);
    }
  }

  // ----- A run -----

  datatype PyStep = Point(c: Cell, result: Option<EomResult>) | Switch(lane: nat, on: bool)

  predicate PyStepTrace(side: Side, target: Word32, s: PyStep, seg: seq<Event>) {
    match s
    case Point(c, None) => PointAttempt(side, target, c, seg)
    case Point(c, Some(r)) => CellOf(r) == c && RecordTrace(side, target, r, seg)
    case Switch(lane, on) =>
      |seg| == 1 && Asked(seg[0]) == Wrote(RxRegister(side, lane, RX_EYEMON_ENABLE), if on then 1 else 0)
  }

  ghost predicate PyPerforms(side: Side, target: Word32, steps: seq<PyStep>, segs: seq<seq<Event>>) {
    && |segs| == |steps|
    && forall i | 0 <= i < |steps| :: PyStepTrace(side, target, steps[i], segs[i])
  }

  /** The trace consists of the commands of the given steps and of nothing else. */
  ghost predicate PyRun(side: Side, target: Word32, steps: seq<PyStep>, tr: seq<Event>) {
    exists segs :: PyPerforms(side, target, steps, segs) && Flatten(segs) == tr
  }

  function PyActionOf(s: PyStep): Action {
    match s
    case Point(c, _) => Scan(c)
    case Switch(lane, on) => if on then Enable(lane) else Disable(lane)
  }

  function PyActions(steps: seq<PyStep>): (actions: seq<Action>)
    ensures |actions| == |steps|
  {
    if steps == [] then [] else PyActions(steps[..|steps| - 1]) + [PyActionOf(steps[|steps| - 1])]
  }

  /** The results that were recorded. */
  function PyResults(steps: seq<PyStep>): seq<EomResult> {
    if steps == [] then []
    else
      var before := PyResults(steps[..|steps| - 1]);
      match steps[|steps| - 1]
      case Point(_, Some(r)) => before + [r]
      case _ => before
  }

  lemma PyRunStart(side: Side, target: Word32)
    ensures PyRun(side, target, [], [])
  {
    assert PyPerforms(side, target, [], []) && Flatten([]) == [];
  }

  /** The commands from t0 to `before` were a run; the commands since then are one more step. */
  lemma PyRunGrows(side: Side, target: Word32, steps: seq<PyStep>, t0: seq<Event>, before: seq<Event>,
                   s: PyStep, after: seq<Event>)
    requires t0 <= before <= after
    requires PyRun(side, target, steps, before[|t0|..]) && PyStepTrace(side, target, s, after[|before|..])
    ensures PyRun(side, target, steps + [s], after[|t0|..])
    ensures PyResults(steps + [s]) ==
      if s.Point? && s.result.Some? then PyResults(steps) + [s.result.value] else PyResults(steps)
    ensures PyActions(steps + [s]) == PyActions(steps) + [PyActionOf(s)]
  {
    PyStepsGrow(steps, s);
    hide PyStepTrace, PyResults, PyActions;
    var segs :| PyPerforms(side, target, steps, segs) && Flatten(segs) == before[|t0|..];
    var seg := after[|before|..];
    assert (segs + [seg])[..|segs|] == segs;
    assert PyPerforms(side, target, steps + [s], segs + [seg]);
    assert after[|t0|..] == before[|t0|..] + seg;
  }

  lemma PyStepsGrow(steps: seq<PyStep>, s: PyStep)
    ensures PyResults(steps + [s]) ==
      if s.Point? && s.result.Some? then PyResults(steps) + [s.result.value] else PyResults(steps)
    ensures PyActions(steps + [s]) == PyActions(steps) + [PyActionOf(s)]
  {
    assert (steps + [s])[..|steps|] == steps;
  }

  ghost predicate RecordedAt(side: Side, target: Word32, r: EomResult, tr: seq<Event>, a: int, b: int) {
    0 <= a <= b <= |tr| && RecordTrace(side, target, r, tr[a..b])
  }

  lemma {:induction false} PyResultFromStep(steps: seq<PyStep>, r: EomResult) returns (i: nat)
    requires r in PyResults(steps)
    ensures i < |steps| && steps[i].Point? && steps[i].result == Some(r)
  {
    var n := |steps| - 1;
    if steps[n].Point? && steps[n].result == Some(r) {
      i := n;
    } else {
      i := PyResultFromStep(steps[..n], r);
    }
  }

  /** Whatever fails, every recorded result stems from an attempt of its own point, which backs it
      exactly if no write of the attempt was lost. */
  lemma PyRunRecords(side: Side, target: Word32, steps: seq<PyStep>, tr: seq<Event>, r: EomResult)
    requires PyRun(side, target, steps, tr) && r in PyResults(steps)
    ensures exists a, b :: (
      && RecordedAt(side, target, r, tr, a, b)
      && (PointTrace(side, target, r, tr[a..b]) <==> AllWritten(tr[a..b])))
  {
    var segs :| PyPerforms(side, target, steps, segs) && Flatten(segs) == tr;
    var i := PyResultFromStep(steps, r);
    var a := SegmentStands(segs, i);
    assert PyStepTrace(side, target, steps[i], segs[i]);
    BackedExactly(side, target, r, segs[i]);
    assert RecordedAt(side, target, r, tr, a, a + |segs[i]|);
  }

  // ----- A run in which nothing failed -----

  /** No write was lost and every point was recorded. */
  ghost predicate Flawless(steps: seq<PyStep>, tr: seq<Event>) {
    && (forall i | 0 <= i < |tr| :: tr[i].isSet ==> tr[i].ok)
    && (forall i | 0 <= i < |steps| :: steps[i].Point? ==> steps[i].result.Some?)
  }

  function Plain(s: PyStep): Step
    requires s.Point? ==> s.result.Some?
  {
    match s
    case Point(_, Some(r)) => Scanned(r)
    case Switch(lane, on) => if on then Enabled(lane) else Disabled(lane)
  }

  lemma PlainTrace(side: Side, target: Word32, s: PyStep, seg: seq<Event>)
    requires PyStepTrace(side, target, s, seg) && Flawless([s], seg)
    ensures [s][0] == s && StepTrace(side, target, Plain(s), seg) && ActionOf(Plain(s)) == PyActionOf(s)
  {
    assert [s][0] == s;
    match s
    case Point(c, Some(r)) =>
      forall i | 0 <= i < 6
        ensures seg[i].ok
      {
        assert Asked(seg[..6][i]) == ConfigWrites(side, c.lane, EncodeSteps(c.timing), EncodeSteps(c.volt), target)[i];
      }
      BackedExactly(side, target, r, seg);
    case Switch(lane, on) =>
      assert seg[0] == Asked(seg[0]);
      assert seg == [seg[0]];
  }

  /** A flawless run is a run in the sense of the C program. */
  lemma {:induction false} FlawlessIsRun(side: Side, target: Word32, steps: seq<PyStep>, segs: seq<seq<Event>>)
    returns (plain: seq<Step>)
    requires PyPerforms(side, target, steps, segs) && Flawless(steps, Flatten(segs))
    ensures RunTrace(side, target, plain, Flatten(segs))
    ensures Results(plain) == PyResults(steps) && Actions(plain) == PyActions(steps)
  {
    if steps == [] {
      plain := [];
      RunTraceStart(side, target);
    } else {
      var n := |steps| - 1;
      var front := Flatten(segs[..n]);
      assert PyStepTrace(side, target, steps[n], segs[n]);
      FlawlessParts(steps, front, segs[n]);
      var before := FlawlessIsRun(side, target, steps[..n], segs[..n]);
      plain := before + [Plain(steps[n])];
      hide PyStepTrace, Flawless, RunTrace, Plain, StepTrace;
      PlainTrace(side, target, steps[n], segs[n]);
      RunTraceGrows(side, target, before, front, Plain(steps[n]), segs[n]);
      assert plain[..|before|] == before;
      PlainResult(steps[n]);
    }
  }

  lemma PlainResult(s: PyStep)
    requires s.Point? ==> s.result.Some?
    ensures Plain(s).Scanned? <==> s.Point?
    ensures s.Point? ==> Plain(s).r == s.result.value
  {
  }

  lemma FlawlessParts(steps: seq<PyStep>, front: seq<Event>, last: seq<Event>)
    requires steps != [] && Flawless(steps, front + last)
    ensures Flawless(steps[..|steps| - 1], front) && Flawless([steps[|steps| - 1]], last)
    ensures steps[|steps| - 1].Point? ==> steps[|steps| - 1].result.Some?
  {
    assert forall i | 0 <= i < |front| :: (front + last)[i] == front[i];
    assert forall i | 0 <= i < |last| :: (front + last)[|front| + i] == last[i];
  }

  // ----- The plan of the Python sweep -----

  /** Each lane is switched on, swept and switched off. */
  function PyPlan(first: nat, lanes: nat, w: Window): seq<Action> {
    if lanes == 0 then []
    else
      var lane := first + lanes - 1;
      PyPlan(first, lanes - 1, w) + [Enable(lane)] + Scans(LaneCells(lane, w)) + [Disable(lane)]
  }

  lemma PyPlanLane(first: nat, lanes: nat, w: Window)
    ensures PyPlan(first, 0, w) == []
    ensures PyPlan(first, lanes + 1, w) ==
      PyPlan(first, lanes, w) + [Enable(first + lanes)] + Scans(LaneCells(first + lanes, w)) + [Disable(first + lanes)]
  {
  }

  function WithoutEnables(actions: seq<Action>): seq<Action> {
    if actions == [] then []
    else
      var before, last := WithoutEnables(actions[..|actions| - 1]), actions[|actions| - 1];
      if last.Enable? then before else before + [last]
  }

  lemma {:induction false} WithoutEnablesAppend(a: seq<Action>, b: seq<Action>)
    ensures WithoutEnables(a + b) == WithoutEnables(a) + WithoutEnables(b)
    decreases |b|
  {
    if b == [] {
      assert a + b == a;
    } else {
      var n := |b| - 1;
      WithoutEnablesAppend(a, b[..n]);
      assert (a + b)[..|a| + n] == a + b[..n];
    }
  }

  lemma {:induction false} ScansStay(cells: seq<Cell>)
    ensures WithoutEnables(Scans(cells)) == Scans(cells)
  {
    if cells != [] {
      ScansStay(cells[..|cells| - 1]);
      WithoutEnablesAppend(Scans(cells[..|cells| - 1]), [Scan(cells[|cells| - 1])]);
    }
  }

  /** But for one extra enable per lane, the Python program does exactly what the C program does. */
  lemma {:induction false} PlansAgree(first: nat, lanes: nat, w: Window)
    ensures WithoutEnables(PyPlan(first, lanes, w)) == SweepPlan(first, lanes, w)
  {
    if lanes > 0 {
      var lane := first + lanes - 1;
      var before, scans := PyPlan(first, lanes - 1, w), Scans(LaneCells(lane, w));
      PlansAgree(first, lanes - 1, w);
      ScansStay(LaneCells(lane, w));
      WithoutEnablesAppend(before + [Enable(lane)] + scans, [Disable(lane)]);
      WithoutEnablesAppend(before + [Enable(lane)], scans);
      WithoutEnablesAppend(before, [Enable(lane)]);
      assert WithoutEnables([Enable(lane)]) == [] && WithoutEnables([Disable(lane)]) == [Disable(lane)];
    }
  }

  lemma {:induction false} CellsWithoutEnables(actions: seq<Action>)
    ensures CellsOf(WithoutEnables(actions)) == CellsOf(actions)
  {
    if actions != [] {
      var before, last := actions[..|actions| - 1], actions[|actions| - 1];
      CellsWithoutEnables(before);
      CellsOfAppend(WithoutEnables(before), [last]);
      assert CellsOf([last]) == if last.Scan? then [last.c] else [];
    }
  }

  lemma CellsOfPyPlan(first: nat, lanes: nat, w: Window)
    ensures CellsOf(PyPlan(first, lanes, w)) == AllCells(first, lanes, w)
  {
    PlansAgree(first, lanes, w);
    CellsWithoutEnables(PyPlan(first, lanes, w));
    CellsOfPlan(first, lanes, w);
  }

  lemma {:induction false} PyPlanEndsDisabled(first: nat, lanes: nat, w: Window, lane: nat)
    requires first <= lane < first + lanes
    ensures LastEnable(PyPlan(first, lanes, w), lane) == Some(0)
  {
    var l := first + lanes - 1;
    var on := PyPlan(first, lanes - 1, w) + [Enable(l)];
    LastEnableGrows(on + Scans(LaneCells(l, w)), Disable(l), lane);
    if lane < l {
      PyPlanEndsDisabled(first, lanes - 1, w, lane);
      LastEnableGrows(PyPlan(first, lanes - 1, w), Enable(l), lane);
      LaneCellsInLane(l, w, w.timings);
      OtherLanesKeepEnable(on, LaneCells(l, w), lane);
    }
  }

  lemma ScansColumn(actions: seq<Action>, lane: nat, timing: int, low: int, v: nat)
    ensures actions + Scans(Column(lane, timing, low, 0)) == actions
    ensures actions + Scans(Column(lane, timing, low, v)) + [Scan(Cell(lane, timing, low + v))]
      == actions + Scans(Column(lane, timing, low, v + 1))
  {
    var cells, c := Column(lane, timing, low, v), Cell(lane, timing, low + v);
    assert (cells + [c])[..|cells|] == cells;
    assert actions + [] == actions;
  }

  lemma ScansColumns(actions: seq<Action>, lane: nat, w: Window, t: nat)
    ensures actions + Scans(Columns(lane, w, 0)) == actions
    ensures actions + Scans(Columns(lane, w, t)) + Scans(Column(lane, w.left + t, w.low, w.volts))
      == actions + Scans(Columns(lane, w, t + 1))
  {
    ScansAppend(Columns(lane, w, t), Column(lane, w.left + t, w.low, w.volts));
    assert actions + [] == actions;
  }

  // ----- How far a sweep that was given up has come -----

  lemma ScansPrefix(a: seq<Cell>, b: seq<Cell>)
    requires a <= b
    ensures Scans(a) <= Scans(b)
  {
    ScansAppend(a, b[|a|..]);
    assert a + b[|a|..] == b;
  }

  lemma ColumnWithin(actions: seq<Action>, lane: nat, timing: int, low: int, v: nat, volts: nat)
    requires v <= volts
    ensures actions + Scans(Column(lane, timing, low, v)) <= actions + Scans(Column(lane, timing, low, volts))
  {
    ColumnPrefix(lane, timing, low, v, volts);
    ScansPrefix(Column(lane, timing, low, v), Column(lane, timing, low, volts));
  }

  lemma ColumnsWithin(actions: seq<Action>, lane: nat, w: Window, t: nat)
    requires t <= w.timings
    ensures actions + Scans(Columns(lane, w, t)) <= actions + Scans(LaneCells(lane, w)) + [Disable(lane)]
  {
    ColumnsPrefix(lane, w, t, w.timings);
    ScansPrefix(Columns(lane, w, t), LaneCells(lane, w));
  }

  lemma {:induction false} PyPlanPrefix(first: nat, k: nat, lanes: nat, w: Window)
    requires k <= lanes
    ensures PyPlan(first, k, w) <= PyPlan(first, lanes, w)
  {
    if k < lanes {
      PyPlanPrefix(first, k, lanes - 1, w);
      PyPlanLane(first, lanes - 1, w);
      hide PyPlan, Scans, LaneCells;
      assert PyPlan(first, lanes - 1, w) <= PyPlan(first, lanes, w);
    }
  }
}
