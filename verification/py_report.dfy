/** The report of `ufs-eom.py` in the plotter: its limits are read, but it names no gear, and without one
    there is no verdict on any result. */
module PyReport {
  import opened Wrappers
  import opened Uic
  import opened Grid
  import opened EomTrace
  import opened Decimal
  import opened Text
  import opened Report
  import opened ReportParser
  import opened RoundTrip
  import opened Verdict
  import opened Plot
  import UfsEom
  import UfsEomPy

  // ----- The report -----

  type Caps = UfsEomPy.Caps

  function PrintLimit(limit: Option<int>): string {
    if limit.Some? then PrintInt(limit.value) else "None"
  }

  function PyTimingLine(c: Caps): string {
    "TimingMaxSteps " + PrintLimit(c.timingSteps) + ", TimingMaxOffset " + PrintLimit(c.timingOffset) + "\n"
  }

  function PyVoltageLine(c: Caps): string {
    "VoltageMaxSteps " + PrintLimit(c.voltageSteps) + ", VoltageMaxOffset " + PrintLimit(c.voltageOffset) + "\n"
  }

  function PyHeaderLines(names: DeviceNames, caps: Caps, side: Side): seq<string> {
    [InquiryLine(names), "EOM Capabilities:\n", PyTimingLine(caps), PyVoltageLine(caps), SideLine(side)]
  }

  /** The time a sweep took, as datetime prints it. */
  predicate IsDuration(elapsed: string) {
    OneLine(elapsed) && 'U' !in elapsed && 'M' !in elapsed && |Split(elapsed)| <= 5
  }

  function PyFooterLines(elapsed: string): seq<string> {
    ["EOM Scan Finished!\n", "Time elapsed: " + elapsed + "\n"]
  }

  function PyReportLines(names: DeviceNames, caps: Caps, side: Side, results: seq<EomResult>, elapsed: string)
    : seq<string>
  {
    PyHeaderLines(names, caps, side) + ResultLines(results) + PyFooterLines(elapsed)
  }

  // ----- Lines that do not name a gear -----

  /** The line does not set the gear. */
  predicate NamesNoGear(line: string) {
    Labelled(line, "UFS Gear Speed:", ["UFS", "Gear", "Speed:"], 9) != Some(true)
  }

  /** No gear was read, and nothing stopped the parser but an exception. */
  predicate Gearless(st: ParseState) {
    st.ufsGear == "" && (st.status == Running || st.status == Crashed)
  }

  lemma HeaderStaysGearless(st: ParseState, line: string)
    requires Gearless(st) && NamesNoGear(line)
    ensures Gearless(HeaderPart(st, line))
  {
    GearlessLimits(st, line);
    var limits := VoltagePart(TimingPart(st, line), line);
    GearlessNames(limits, line);
    GearlessRest(SizePart(InquiryPart(VersionPart(limits, line), line), line), line);
    hide TimingPart, VoltagePart, VersionPart, InquiryPart, SizePart, GearPart, SidePart;
  }

  lemma GearlessLimits(st: ParseState, line: string)
    requires Gearless(st)
    ensures Gearless(VoltagePart(TimingPart(st, line), line))
  {
    hide Split, Contains, StringToNumber;
  }

  lemma GearlessNames(st: ParseState, line: string)
    requires Gearless(st)
    ensures Gearless(SizePart(InquiryPart(VersionPart(st, line), line), line))
  {
    hide Split, Labelled;
  }

  lemma GearlessRest(st: ParseState, line: string)
    requires Gearless(st) && NamesNoGear(line)
    ensures Gearless(SidePart(GearPart(st, line), line))
  {
    hide Split, Labelled, Contains, Matches;
  }

  /** Without a gear a line of data is a bad line. */
  lemma GearlessData(st: ParseState, line: string)
    requires Gearless(st)
    ensures Gearless(DataPart(st, line))
    ensures Good(DataPart(st, line)) ==> !TakenForData(Split(line)) && DataPart(st, line) == st
  {
    hide Split, PyInt, StringToNumber;
    assert GearFrom("", 0) == None;
  }

  lemma {:induction false} WithoutGear(lines: seq<string>)
    requires forall line | line in lines :: NamesNoGear(line)
    ensures
      var st := ParseLines(INITIAL, lines);
      && Gearless(st)
      && (Good(st) ==> st.laneList == [] && forall line | line in lines :: !TakenForData(Split(line)))
  {
    hide HeaderPart, DataPart, NamesNoGear, TakenForData, Split;
    if lines != [] {
      var before, last := lines[..|lines| - 1], lines[|lines| - 1];
      assert lines == before + [last];
      WithoutGear(before);
      var st := ParseLines(INITIAL, before);
      HeaderStaysGearless(st, last);
      GearlessData(HeaderPart(st, last), last);
    }
  }

  /** A file that names no gear gets a verdict exactly when it was read without an exception or a bad
      line and gives both step sizes. Then it has no line of data, and the verdict is PASS. */
  lemma VerdictWithoutGear(x: Coordinate, y: Coordinate, mask: Mask, lines: seq<string>)
    requires forall line | line in lines :: NamesNoGear(line)
    ensures
      var st := ParseLines(INITIAL, lines);
      var outcome := Evaluate(x, y, mask, st);
      && (outcome.Decided? <==> Good(st) && st.timingStep != 0.0 && st.voltageStep != 0.0)
      && (outcome.Decided? ==> outcome.pass && forall line | line in lines :: !TakenForData(Split(line)))
      && (!Good(st) ==> outcome == Raised || outcome == NoVerdict)
  {
    WithoutGear(lines);
    hide ParseLines, GridCollides, LaneVerdict, TakenForData, Split;
  }

  // ----- The lines of the report -----

  lemma LimitChars(limit: Option<int>)
    ensures OneLine(PrintLimit(limit))
  {
    if limit.Some? {
      PrintIntChars(limit.value);
    }
  }

  lemma PyTimingChars()
    ensures OneLine("TimingMaxSteps ") && OneLine(", TimingMaxOffset ")
  {
  }

  lemma PyVoltageChars()
    ensures OneLine("VoltageMaxSteps ") && OneLine(", VoltageMaxOffset ")
  {
  }

  lemma FourParts(a: string, b: string, c: string, d: string)
    requires OneLine(a) && OneLine(b) && OneLine(c) && OneLine(d)
    ensures IsLine(a + b + c + d + "\n")
  {
    var body := a + b + c + d;
    assert OneLine(body);
    hide OneLine, IsLine;
    EndsLine(body);
  }

  lemma PyCapsAreLines(caps: Caps)
    ensures IsLine(PyTimingLine(caps)) && IsLine(PyVoltageLine(caps))
  {
    PyTimingChars();
    PyVoltageChars();
    LimitChars(caps.timingSteps);
    LimitChars(caps.timingOffset);
    LimitChars(caps.voltageSteps);
    LimitChars(caps.voltageOffset);
    hide OneLine, PrintLimit, IsLine;
    FourParts("TimingMaxSteps ", PrintLimit(caps.timingSteps), ", TimingMaxOffset ", PrintLimit(caps.timingOffset));
    FourParts("VoltageMaxSteps ", PrintLimit(caps.voltageSteps), ", VoltageMaxOffset ", PrintLimit(caps.voltageOffset));
  }

  lemma PyHeaderLinesAreLines(names: DeviceNames, caps: Caps, side: Side)
    requires OneLine(NameText(names))
    ensures forall line | line in PyHeaderLines(names, caps, side) :: IsLine(line)
  {
    hide IsLine, NameText, InquiryLine, PyTimingLine, PyVoltageLine, SideLine, OneLine;
    InquiryIsLine(names);
    FixedLines();
    PyCapsAreLines(caps);
    SideIsLine(side);
  }

  lemma FooterChars()
    ensures OneLine("EOM Scan Finished!") && OneLine("Time elapsed: ")
    ensures "EOM Scan Finished!" + "\n" == "EOM Scan Finished!\n"
  {
  }

  lemma PyFooterLinesAreLines(elapsed: string)
    requires IsDuration(elapsed)
    ensures forall line | line in PyFooterLines(elapsed) :: IsLine(line)
  {
    FooterChars();
    assert OneLine("Time elapsed: " + elapsed);
    hide IsLine, OneLine;
    EndsLine("EOM Scan Finished!");
    EndsLine("Time elapsed: " + elapsed);
  }

  lemma PyReportLinesAreLines(names: DeviceNames, caps: Caps, side: Side, results: seq<EomResult>, elapsed: string)
    requires OneLine(NameText(names)) && IsDuration(elapsed)
    ensures forall line | line in PyReportLines(names, caps, side, results, elapsed) :: IsLine(line)
  {
    PyHeaderLinesAreLines(names, caps, side);
    PyFooterLinesAreLines(elapsed);
    hide IsLine, PyHeaderLines, PyFooterLines, IsDuration, OneLine, NameText, ResultLine;
    ResultLinesAreLines(results);
  }

  // ----- What the plotter reads from it -----

  predicate Missing(limit: Option<int>) {
    limit == None || limit.value == 0
  }

  /** Reading the header raises: the names cannot be read, a limit is missing, or steps are zero. */
  predicate PyHeaderRaises(names: DeviceNames, caps: Caps) {
    || !NamesRead(names)
    || Missing(caps.timingSteps) || caps.timingOffset == None
    || Missing(caps.voltageSteps) || caps.voltageOffset == None
  }

  lemma LimitWord(limit: Option<int>)
    ensures IsWord(PrintLimit(limit)) && IsWord(PrintLimit(limit) + ",")
    ensures StringToNumber(PrintLimit(limit)) == limit && StringToNumber(PrintLimit(limit) + ",") == limit
  {
    if limit.Some? {
      NumberWord(limit.value);
      NumberRoundTrip(limit.value);
      NumberUpToComma(limit.value, "");
      assert PrintInt(limit.value) + "," + "" == PrintInt(limit.value) + ",";
      CommaWord(PrintInt(limit.value));
    } else {
      NoneIsNoNumber();
      assert PrintLimit(limit) == "None" && PrintLimit(limit) + "," == "None,";
    }
  }

  lemma CommaWord(w: string)
    requires IsWord(w)
    ensures IsWord(w + ",")
  {
  }

  lemma NoneIsNoNumber()
    ensures IsWord("None") && IsWord("None,")
    ensures StringToNumber("None") == None && StringToNumber("None,") == None
  {
    assert "None"[0] == 'N' && 'N' in "None";
    NoComma("None");
    CommaEnds("None", "");
    assert "None" + "," + "" == "None,";
  }

  /** A line with two limits: its four words, and what it contains. */
  lemma LimitsLine(a: string, x: Option<int>, b: string, y: Option<int>, line: string)
    requires line == a + " " + PrintLimit(x) + ", " + b + " " + PrintLimit(y) + "\n"
    requires IsWord(a) && IsWord(b)
    ensures Split(line) == [a, PrintLimit(x) + ",", b, PrintLimit(y)]
    ensures Contains(line, a) && Contains(line, b)
  {
    var p, q := PrintLimit(x) + ",", PrintLimit(y);
    LimitWord(x);
    LimitWord(y);
    hide IsWord, Split, Join, Contains, PrintLimit, StringToNumber;
    assert line == a + " " + p + " " + b + " " + q + "\n";
    JoinFour(a, p, b, q);
    SplitJoin([a, p, b, q]);
    SplitLineEnd(Join([a, p, b, q]));
    CapsKeywords(a, p, b, q, line);
  }

  lemma LimitsChars(a: string, x: Option<int>, b: string, y: Option<int>, line: string, c: char)
    requires line == a + " " + PrintLimit(x) + ", " + b + " " + PrintLimit(y) + "\n"
    requires c !in a && c !in b && (c == 'U' || c == 'T' || c == 'V' || c == 'd')
    ensures c !in line
  {
    LimitLacks(x, c);
    LimitLacks(y, c);
    hide PrintLimit;
  }

  lemma LimitLacks(limit: Option<int>, c: char)
    requires c == 'U' || c == 'T' || c == 'V' || c == 'd'
    ensures c !in PrintLimit(limit)
  {
    if limit.Some? {
      PrintIntChars(limit.value);
    }
  }

  /** The timing limits are read up to the comma. */
  lemma PyTimingParses(st: ParseState, c: Caps)
    requires st.status == Running
    ensures
      var after := ParseLine(st, PyTimingLine(c));
      if Missing(c.timingSteps) || c.timingOffset == None then after.status == Crashed
      else after == st.(timingMaxSteps := c.timingSteps.value, timingMaxOffset := c.timingOffset.value,
                        timingStep := TimingStep(c.timingSteps.value, c.timingOffset.value))
  {
    var line := PyTimingLine(c);
    var a, b := "TimingMaxSteps", "TimingMaxOffset";
    KeywordsAreWords();
    PyTimingText(c);
    TimingKeywords();
    LimitWord(c.timingSteps);
    LimitWord(c.timingOffset);
    hide IsWord, PrintInt, PrintLimit, PyTimingLine, Split, Contains, StringToNumber, PyInt, HeaderPart, DataPart, ParseLine;
    LimitsLine(a, c.timingSteps, b, c.timingOffset, line);
    LimitsChars(a, c.timingSteps, b, c.timingOffset, line, 'V');
    LimitsChars(a, c.timingSteps, b, c.timingOffset, line, 'U');
    LimitsChars(a, c.timingSteps, b, c.timingOffset, line, 'd');
    NoVoltageWithout(line);
    NoLabelsWithout(line, 'U');
    NoSideWithout(line, 'd');
    if c.timingSteps.Some? && c.timingOffset.Some? {
      TimingSteps(st, line, Split(line));
    } else {
      TimingCrash(st, line);
    }
  }

  lemma PyTimingText(c: Caps)
    ensures PyTimingLine(c) ==
      "TimingMaxSteps" + " " + PrintLimit(c.timingSteps) + ", " + "TimingMaxOffset" + " " + PrintLimit(c.timingOffset) + "\n"
  {
  }

  lemma TimingKeywords()
    ensures 'V' !in "TimingMaxSteps" && 'V' !in "TimingMaxOffset" && 'U' !in "TimingMaxSteps" && 'U' !in "TimingMaxOffset"
    ensures 'd' !in "TimingMaxSteps" && 'd' !in "TimingMaxOffset"
  {
  }

  lemma TimingCrash(st: ParseState, line: string)
    requires TimingPart(st, line).status == Crashed
    ensures ParseLine(st, line).status == Crashed
  {
    hide TimingPart, VoltagePart, VersionPart, InquiryPart, SizePart, GearPart, SidePart, DataPart;
  }

  lemma VoltageCrash(st: ParseState, line: string)
    requires VoltagePart(TimingPart(st, line), line).status == Crashed
    ensures ParseLine(st, line).status == Crashed
  {
    hide TimingPart, VoltagePart, VersionPart, InquiryPart, SizePart, GearPart, SidePart, DataPart;
  }

  /** And so are the voltage limits. */
  lemma PyVoltageParses(st: ParseState, c: Caps)
    requires st.status == Running
    ensures
      var after := ParseLine(st, PyVoltageLine(c));
      if Missing(c.voltageSteps) || c.voltageOffset == None then after.status == Crashed
      else after == st.(voltageMaxSteps := c.voltageSteps.value, voltageMaxOffset := c.voltageOffset.value,
                        voltageStep := VoltageStep(c.voltageSteps.value, c.voltageOffset.value))
  {
    var line := PyVoltageLine(c);
    var a, b := "VoltageMaxSteps", "VoltageMaxOffset";
    KeywordsAreWords();
    PyVoltageText(c);
    VoltageKeywords();
    LimitWord(c.voltageSteps);
    LimitWord(c.voltageOffset);
    hide IsWord, PrintInt, PrintLimit, PyVoltageLine, Split, Contains, StringToNumber, PyInt, HeaderPart, DataPart, ParseLine;
    LimitsLine(a, c.voltageSteps, b, c.voltageOffset, line);
    LimitsChars(a, c.voltageSteps, b, c.voltageOffset, line, 'T');
    LimitsChars(a, c.voltageSteps, b, c.voltageOffset, line, 'U');
    LimitsChars(a, c.voltageSteps, b, c.voltageOffset, line, 'd');
    NoTimingWithout(line);
    NoLabelsWithout(line, 'U');
    NoSideWithout(line, 'd');
    if c.voltageSteps.Some? && c.voltageOffset.Some? {
      VoltageSteps(st, line, Split(line));
    } else {
      VoltageCrash(st, line);
    }
  }

  lemma PyVoltageText(c: Caps)
    ensures PyVoltageLine(c) ==
      "VoltageMaxSteps" + " " + PrintLimit(c.voltageSteps) + ", " + "VoltageMaxOffset" + " " + PrintLimit(c.voltageOffset) + "\n"
  {
  }

  lemma VoltageKeywords()
    ensures 'T' !in "VoltageMaxSteps" && 'T' !in "VoltageMaxOffset" && 'U' !in "VoltageMaxSteps" && 'U' !in "VoltageMaxOffset"
    ensures 'd' !in "VoltageMaxSteps" && 'd' !in "VoltageMaxOffset"
  {
  }

  function PyNamesState(names: DeviceNames): ParseState
    requires NamesRead(names)
  {
    var words := Split(NameText(names));
    INITIAL.(mfrName := words[0], mfrId := words[1], badDataCount := if words[0] == "count" then 1 else 0)
  }

  function PyHeaderState(names: DeviceNames, c: Caps, side: Side): ParseState
    requires !PyHeaderRaises(names, c)
  {
    PyNamesState(names).(
      side := SideName(side),
      timingMaxSteps := c.timingSteps.value, timingMaxOffset := c.timingOffset.value,
      timingStep := TimingStep(c.timingSteps.value, c.timingOffset.value),
      voltageMaxSteps := c.voltageSteps.value, voltageMaxOffset := c.voltageOffset.value,
      voltageStep := VoltageStep(c.voltageSteps.value, c.voltageOffset.value))
  }

  lemma PyHeaderParses(names: DeviceNames, c: Caps, side: Side)
    ensures PyHeaderRaises(names, c) ==> ParseLines(INITIAL, PyHeaderLines(names, c, side)).status == Crashed
    ensures !PyHeaderRaises(names, c) ==> ParseLines(INITIAL, PyHeaderLines(names, c, side)) == PyHeaderState(names, c, side)
  {
    hide ParseLine, ParseLines, NamesRead, InquiryLine, PyTimingLine, PyVoltageLine, SideLine, Split, NameText, TimingStep,
         VoltageStep, SideName;
    var lines := PyHeaderLines(names, c, side);
    FiveLines(INITIAL, lines);
    ParseFirst(INITIAL, lines);
    InquiryLineParses(INITIAL, names);
    if !NamesRead(names) {
      StatusStays(ParseLine(INITIAL, lines[0]), lines[1..]);
    } else {
      PyLimitsParse(PyNamesState(names), c, side, lines);
    }
  }

  lemma PyLimitsParse(st: ParseState, c: Caps, side: Side, lines: seq<string>)
    requires st.status == Running && |lines| == 5 && ParseLine(INITIAL, lines[0]) == st
    requires lines[1..] == ["EOM Capabilities:\n", PyTimingLine(c), PyVoltageLine(c), SideLine(side)]
    ensures
      var after := ParseLines(INITIAL, lines);
      if Missing(c.timingSteps) || c.timingOffset == None || Missing(c.voltageSteps) || c.voltageOffset == None
      then after.status == Crashed
      else after == st.(
        side := SideName(side),
        timingMaxSteps := c.timingSteps.value, timingMaxOffset := c.timingOffset.value,
        timingStep := TimingStep(c.timingSteps.value, c.timingOffset.value),
        voltageMaxSteps := c.voltageSteps.value, voltageMaxOffset := c.voltageOffset.value,
        voltageStep := VoltageStep(c.voltageSteps.value, c.voltageOffset.value))
  {
    hide ParseLine, ParseLines, PyTimingLine, PyVoltageLine, SideLine, TimingStep, VoltageStep, SideName;
    FiveLines(INITIAL, lines);
    assert lines[1] == lines[1..][0] && lines[2] == lines[1..][1] && lines[3] == lines[1..][2] && lines[4] == lines[1..][3];
    CapabilitiesLineParses(st);
    PyTimingParses(st, c);
    var s2 := ParseLine(st, PyTimingLine(c));
    if s2.status == Crashed {
      StatusStays(s2, lines[3..]);
    } else {
      PyVoltageParses(s2, c);
      var s3 := ParseLine(s2, PyVoltageLine(c));
      if s3.status == Crashed {
        StatusStays(s3, lines[4..]);
      } else {
        SideLineParses(s3, side);
      }
    }
  }

  /** Every result is a bad line. */
  lemma {:induction false} ResultsSpoil(st: ParseState, results: seq<EomResult>)
    requires st.status == Running && st.ufsGear == ""
    ensures
      var after := ParseLines(st, ResultLines(results));
      && after.status == Running && after.ufsGear == "" && after.badDataCount == st.badDataCount + |results|
      && (results == [] ==> after == st)
  {
    hide ParseLine, ResultLine, GearFrom;
    if results != [] {
      ResultsSpoil(st, results[..|results| - 1]);
      EmptyGear();
      AnyResultLine(ParseLines(st, ResultLines(results[..|results| - 1])), results[|results| - 1]);
    }
  }

  lemma EmptyGear()
    ensures GearFrom("", 0) == None
  {
  }

  /** The last lines change nothing. */
  lemma FooterSilent(st: ParseState, elapsed: string)
    requires st.status == Running && IsDuration(elapsed)
    ensures ParseLines(st, PyFooterLines(elapsed)) == st
  {
    var lines := PyFooterLines(elapsed);
    ScanFinishedSilent(st);
    ElapsedSilent(st, elapsed);
    hide ParseLine, IsDuration;
    ParseFirst(st, lines);
    ParseFirst(st, lines[1..]);
    assert lines[1..][1..] == [];
  }

  lemma ScanFinishedSilent(st: ParseState)
    requires st.status == Running
    ensures ParseLine(st, "EOM Scan Finished!\n") == st
  {
    var line := "EOM Scan Finished!\n";
    FinishedChars();
    FinishedWords();
    hide Split, Contains;
    NoTimingWithout(line);
    NoVoltageWithout(line);
    NoLabelsWithout(line, 'U');
    MissingChar(line, "Side Eye Monitor Start", 'y');
    NoKeywordLine(st, line);
  }

  lemma FinishedChars()
    ensures
      var line := "EOM Scan Finished!\n";
      'T' !in line && 'V' !in line && 'U' !in line && 'y' !in line
    ensures 'y' in "Side Eye Monitor Start"
  {
    assert "Side Eye Monitor Start"[6] == 'y';
  }

  lemma FinishedWords()
    ensures Split("EOM Scan Finished!\n") == ["EOM", "Scan", "Finished!"]
  {
    assert IsWord("EOM") && IsWord("Scan") && IsWord("Finished!");
    var words := ["EOM", "Scan", "Finished!"];
    JoinLast("EOM", "Scan", "Finished!");
    assert "EOM" + " " + "Scan" + " " + "Finished!" + "\n" == "EOM Scan Finished!\n";
    hide IsWord, Join, Split;
    SplitJoin(words);
    SplitLineEnd(Join(words));
  }

  lemma ElapsedSilent(st: ParseState, elapsed: string)
    requires st.status == Running && IsDuration(elapsed)
    ensures ParseLine(st, "Time elapsed: " + elapsed + "\n") == st
  {
    var line := "Time elapsed: " + elapsed + "\n";
    assert 'M' !in line && 'U' !in line;
    ElapsedWords(elapsed);
    hide Split, Contains;
    MissingM(line);
    NoLabelsWithout(line, 'U');
    NoSideWithout(line, 'M');
    NoKeywordLine(st, line);
  }

  lemma MissingM(line: string)
    requires 'M' !in line
    ensures !Contains(line, "TimingMaxSteps") && !Contains(line, "VoltageMaxSteps")
  {
    assert "TimingMaxSteps"[6] == 'M' && "VoltageMaxSteps"[7] == 'M';
    MissingChar(line, "TimingMaxSteps", 'M');
    MissingChar(line, "VoltageMaxSteps", 'M');
  }

  lemma ElapsedWords(elapsed: string)
    ensures Split("Time elapsed: " + elapsed + "\n") == ["Time", "elapsed:"] + Split(elapsed)
  {
    ElapsedLiterals();
    hide IsWord, Split;
    SplitLineEnd("Time elapsed: " + elapsed);
    SplitAt("Time" + [' '] + "elapsed:", ' ', elapsed);
    SplitAt("Time", ' ', "elapsed:");
    SplitWord("Time");
    SplitWord("elapsed:");
  }

  lemma ElapsedLiterals()
    ensures "Time elapsed: " == "Time" + [' '] + "elapsed:" + [' ']
    ensures IsWord("Time") && IsWord("elapsed:")
  {
  }

  /** The outcome of plotting the report, from names, limits and results alone. */
  function PyOutcome(names: DeviceNames, c: Caps, results: seq<EomResult>): Outcome {
    if PyHeaderRaises(names, c) then Raised
    else if results != [] || Split(NameText(names))[0] == "count" then NoVerdict
    else if c.timingOffset == Some(0) || c.voltageOffset == Some(0) then Exited
    else Decided(true)
  }

  /** The plotter gives no verdict on a report of `ufs-eom.py` in which anything was recorded: it raises
      if names or limits cannot be read, and otherwise takes every result for a bad line. Only a
      report without results passes. */
  lemma PyReportHasNoVerdict(x: Coordinate, y: Coordinate, mask: Mask, names: DeviceNames, caps: Caps, side: Side,
                             results: seq<EomResult>, elapsed: string)
    requires OneLine(NameText(names)) && IsDuration(elapsed)
    ensures
      var st := ParseLines(INITIAL, ReadLines(Concat(PyReportLines(names, caps, side, results, elapsed))));
      Evaluate(x, y, mask, st) == PyOutcome(names, caps, results) && (results != [] ==> !Good(st))
  {
    var lines := PyReportLines(names, caps, side, results, elapsed);
    PyReportLinesAreLines(names, caps, side, results, elapsed);
    hide PyReportLines, OneLine, NameText, IsLine, IsDuration, ReadLines, Concat, ParseLines, Evaluate, PyHeaderRaises;
    ReadLinesConcat(lines);
    PyReportReads(names, caps, side, results, elapsed);
    if !PyHeaderRaises(names, caps) {
      PyVerdict(x, y, mask, names, caps, side, results, ParseLines(INITIAL, lines));
    } else {
      CrashedOutcome(x, y, mask, ParseLines(INITIAL, lines));
    }
  }

  lemma CrashedOutcome(x: Coordinate, y: Coordinate, mask: Mask, st: ParseState)
    requires st.status == Crashed
    ensures Evaluate(x, y, mask, st) == Raised && !Good(st)
  {
  }

  lemma PyVerdict(x: Coordinate, y: Coordinate, mask: Mask, names: DeviceNames, c: Caps, side: Side,
                  results: seq<EomResult>, st: ParseState)
    requires !PyHeaderRaises(names, c) && st.status == Running
    requires st.badDataCount == PyHeaderState(names, c, side).badDataCount + |results|
    requires results == [] ==> st == PyHeaderState(names, c, side)
    ensures Evaluate(x, y, mask, st) == PyOutcome(names, c, results) && (results != [] ==> !Good(st))
  {
    hide NameText, Split, GridCollides;
    StepIsZero(c.timingSteps.value, c.timingOffset.value);
    StepIsZero(c.voltageSteps.value, c.voltageOffset.value);
  }

  lemma StepIsZero(steps: int, offset: int)
    requires steps != 0
    ensures TimingStep(steps, offset) == 0.0 <==> offset == 0
    ensures VoltageStep(steps, offset) == 0.0 <==> offset == 0
  {
  }

  lemma PyReportReads(names: DeviceNames, caps: Caps, side: Side, results: seq<EomResult>, elapsed: string)
    requires IsDuration(elapsed)
    ensures
      var st := ParseLines(INITIAL, PyReportLines(names, caps, side, results, elapsed));
      if PyHeaderRaises(names, caps) then st.status == Crashed
      else
        && st.status == Running
        && st.badDataCount == PyHeaderState(names, caps, side).badDataCount + |results|
        && (results == [] ==> st == PyHeaderState(names, caps, side))
  {
    var head, body, foot := PyHeaderLines(names, caps, side), ResultLines(results), PyFooterLines(elapsed);
    PyHeaderParses(names, caps, side);
    if !PyHeaderRaises(names, caps) {
      PyStateGearless(names, caps, side);
    }
    hide ParseLines, PyHeaderLines, ResultLines, PyFooterLines, PyHeaderRaises, PyHeaderState, IsDuration;
    ParseLinesAppend(INITIAL, head + body, foot);
    ParseLinesAppend(INITIAL, head, body);
    var st := ParseLines(INITIAL, head);
    if PyHeaderRaises(names, caps) {
      StatusStays(st, body);
      StatusStays(ParseLines(st, body), foot);
    } else {
      ResultsSpoil(st, results);
      FooterSilent(ParseLines(st, body), elapsed);
    }
  }

  lemma PyStateGearless(names: DeviceNames, c: Caps, side: Side)
    requires !PyHeaderRaises(names, c)
    ensures PyHeaderState(names, c, side).status == Running && PyHeaderState(names, c, side).ufsGear == ""
  {
  }

  // ----- Both programs -----

  /** The report file of a finished sweep. */
  function PyReportText(names: DeviceNames, caps: Caps, side: Side, body: string, elapsed: string): string {
    Concat(PyHeaderLines(names, caps, side)) + body + Concat(PyFooterLines(elapsed))
  }

  /** `ufs-eom.py` and the plotter one after the other: if the sweep finishes, there is no verdict and
      no picture on anything that was recorded, on any device. One that does not fail always
      records something. */
  method MeasureAndPlot(drv: UfsEomPy.Driver, plot: EyeMonitorPlot, names: DeviceNames, caps: Caps, elapsed: string)
    returns (outcome: Option<Outcome>)
    requires drv.Valid() && drv.recorded == [] && drv.reporter == "" && plot.Valid()
    requires OneLine(NameText(names)) && IsDuration(elapsed)
    modifies drv`recorded, drv`reporter, drv.dev, plot
    ensures plot.Valid()
    ensures outcome.Some? ==> outcome.value == PyOutcome(names, caps, drv.recorded)
    ensures outcome.Some? && drv.recorded != [] ==>
      (outcome.value == Raised || outcome.value == NoVerdict) && plot.labels == old(plot.labels)
    ensures drv.dev.faithful && drv.startLane < drv.lanes ==> outcome.Some? && drv.recorded != []
  {
    hide OneLine, NameText, Concat, PyReportLines, PyHeaderLines, PyFooterLines, ReadLines, ParseLines, Evaluate,
         ResultLines, IsDuration, PyHeaderRaises,
         UfsEomPy.Driver.SweepWindow, UfsEomPy.Driver.LostWrite, Good, AllCells;
    ghost var t0 := drv.dev.trace;
    var gaveUp := drv.EomStart();
    if gaveUp {
      return None;
    }
    FinishedReport(drv, t0);
    if drv.dev.faithful && drv.startLane < drv.lanes {
      SomethingRecorded(drv, t0);
    }
    var text := PyReportText(names, caps, drv.side, drv.reporter, elapsed);
    BodyBetween(names, caps, drv.side, drv.recorded, elapsed);
    PyReportHasNoVerdict(plot.x, plot.y, plot.mask, names, caps, drv.side, drv.recorded, elapsed);
    ghost var judged, labels := plot.judged, plot.labels;
    var decided := plot.OpenFile(text);
    outcome := Some(decided);
    if drv.recorded != [] {
      assert plot.judged == judged + [] == judged;
      assert plot.labels == labels;
    }
  }

  lemma BodyBetween(names: DeviceNames, caps: Caps, side: Side, results: seq<EomResult>, elapsed: string)
    ensures PyReportText(names, caps, side, Concat(ResultLines(results)), elapsed)
      == Concat(PyReportLines(names, caps, side, results, elapsed))
  {
    hide Concat, PyHeaderLines, PyFooterLines, ResultLines;
    ConcatAppend(PyHeaderLines(names, caps, side), ResultLines(results));
    ConcatAppend(PyHeaderLines(names, caps, side) + ResultLines(results), PyFooterLines(elapsed));
  }

  lemma FinishedReport(drv: UfsEomPy.Driver, t0: seq<Event>)
    requires drv.Valid() && drv.Finished(t0)
    ensures drv.reporter == Concat(ResultLines(drv.recorded))
  {
  }

  lemma SomethingRecorded(drv: UfsEomPy.Driver, t0: seq<Event>)
    requires drv.Valid() && drv.Finished(t0) && drv.dev.faithful && drv.startLane < drv.lanes
    ensures drv.recorded != []
  {
    var w, lanes := drv.SweepWindow(), drv.lanes - drv.startLane;
    assert w.timings > 0 && w.volts > 0;
    drv.SweepRecordsGrid(t0);
    hide UfsEomPy.Driver.Finished, UfsEomPy.Driver.SweepWindow, AllCells, Measured, LastWrite;
    AllCellsSize(drv.startLane, lanes, w);
  }
}
