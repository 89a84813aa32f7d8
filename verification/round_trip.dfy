/** What the plotter reads from a report that `ufseom` wrote. */
module RoundTrip {
  import opened Wrappers
  import opened Uic
  import opened EomTrace
  import opened Decimal
  import opened Text
  import opened Report
  import opened ReportParser

  // ----- When the names in the header do no harm -----

  /** The text does not end a line. */
  predicate OneLine(s: string) {
    '\n' !in s && '\r' !in s
  }

  /** No keyword of the capability lines. */
  predicate NoLimits(line: string) {
    !Both(line, "TimingMaxSteps", "TimingMaxOffset") && !Both(line, "VoltageMaxSteps", "VoltageMaxOffset")
  }

  /** The names can be read: they have at least two words, and do not contain the keywords of the
      capability lines. */
  predicate NamesRead(n: DeviceNames) {
    NoLimits(NameText(n)) && |Split(NameText(n))| >= 2
  }

  /** And their line is not taken for data: the first word is not "count". */
  predicate HarmlessNames(n: DeviceNames) {
    NamesRead(n) && Split(NameText(n))[0] != "count"
  }

  // ----- Lines without keywords -----

  /** None of the keyword tests of the header applies. */
  predicate NoKeyword(line: string) {
    && !Both(line, "TimingMaxSteps", "TimingMaxOffset")
    && !Both(line, "VoltageMaxSteps", "VoltageMaxOffset")
    && !Contains(line, "UFS Spec Version:")
    && !Contains(line, "UFS INQUIRY ID:")
    && !Contains(line, "UFS Total Size:")
    && !Contains(line, "UFS Gear Speed:")
    && !Contains(line, "Side Eye Monitor Start")
  }

  lemma NoKeywordLine(st: ParseState, line: string)
    requires NoKeyword(line)
    ensures HeaderPart(st, line) == st
  {
  }

  // A keyword is ruled out by one of its characters.

  lemma NoTimingWithout(line: string)
    requires 'T' !in line
    ensures !Contains(line, "TimingMaxSteps")
  {
    MissingChar(line, "TimingMaxSteps", 'T');
  }

  lemma NoVoltageWithout(line: string)
    requires 'V' !in line
    ensures !Contains(line, "VoltageMaxSteps")
  {
    MissingChar(line, "VoltageMaxSteps", 'V');
  }

  lemma NoLabelsWithout(line: string, c: char)
    requires c !in line && (c == 'U' || c == ':')
    ensures !Contains(line, "UFS Spec Version:") && !Contains(line, "UFS INQUIRY ID:")
    ensures !Contains(line, "UFS Total Size:") && !Contains(line, "UFS Gear Speed:")
  {
    MissingChar(line, "UFS Spec Version:", c);
    MissingChar(line, "UFS INQUIRY ID:", c);
    MissingChar(line, "UFS Total Size:", c);
    MissingChar(line, "UFS Gear Speed:", c);
  }

  lemma NoSideWithout(line: string, c: char)
    requires c !in line && (c == 'S' || c == 'd' || c == 'M')
    ensures !Contains(line, "Side Eye Monitor Start")
  {
    MissingChar(line, "Side Eye Monitor Start", c);
  }

  lemma NoCapitals(line: string)
    requires 'T' !in line && 'V' !in line && 'U' !in line && 'S' !in line
    ensures NoKeyword(line)
  {
    hide Contains;
    NoTimingWithout(line);
    NoVoltageWithout(line);
    NoLabelsWithout(line, 'U');
    NoSideWithout(line, 'S');
  }

  lemma NumberWord(n: int)
    ensures IsWord(PrintInt(n))
    ensures forall c | c in PrintInt(n) :: IsDigit(c) || c == '-'
  {
    PrintIntChars(n);
  }

  // ----- A result line -----

  lemma ResultWordsSplit(r: EomResult)
    ensures Split(ResultLine(r)) == ResultWords(r)
  {
    NumberWord(r.lane);
    NumberWord(r.timing);
    NumberWord(r.volt);
    NumberWord(r.errorCnt);
    ResultLineWords(r);
    var w := ResultWords(r);
    LabelsAreWords();
    hide IsWord, Split, Join, PrintInt, ResultLine;
    assert forall word | word in w :: IsWord(word);
    SplitJoin(w);
    SplitLineEnd(Join(w));
  }

  lemma LabelsAreWords()
    ensures IsWord("lane:") && IsWord("timing:") && IsWord("voltage:") && IsWord("error") && IsWord("count:")
  {
  }

  predicate Lowercase(s: string) {
    forall c | c in s :: !('A' <= c <= 'Z')
  }

  lemma LowercaseAppend(a: string, b: string)
    requires Lowercase(a) && Lowercase(b)
    ensures Lowercase(a + b)
  {
  }

  lemma LowercaseLabels()
    ensures Lowercase("lane: ") && Lowercase(" timing: ") && Lowercase(" voltage: ")
    ensures Lowercase(" error count: ") && Lowercase("\n")
  {
  }

  lemma LowercaseNoKeyword(line: string)
    requires Lowercase(line)
    ensures NoKeyword(line)
  {
    hide NoKeyword;
    NoCapitals(line);
  }

  lemma ResultLineNoKeyword(r: EomResult)
    ensures NoKeyword(ResultLine(r))
  {
    var l, t, v, e := PrintInt(r.lane), PrintInt(r.timing), PrintInt(r.volt), PrintInt(r.errorCnt);
    NumberWord(r.lane);
    NumberWord(r.timing);
    NumberWord(r.volt);
    NumberWord(r.errorCnt);
    assert Lowercase(l) && Lowercase(t) && Lowercase(v) && Lowercase(e);
    LowercaseLabels();
    hide NoKeyword, PrintInt, Lowercase;
    LowercaseAppend("lane: ", l);
    LowercaseAppend("lane: " + l, " timing: ");
    LowercaseAppend("lane: " + l + " timing: ", t);
    LowercaseAppend("lane: " + l + " timing: " + t, " voltage: ");
    LowercaseAppend("lane: " + l + " timing: " + t + " voltage: ", v);
    LowercaseAppend("lane: " + l + " timing: " + t + " voltage: " + v, " error count: ");
    LowercaseAppend("lane: " + l + " timing: " + t + " voltage: " + v + " error count: ", e);
    LowercaseAppend("lane: " + l + " timing: " + t + " voltage: " + v + " error count: " + e, "\n");
    LowercaseNoKeyword(ResultLine(r));
  }

  /** The state after one more result. */
  function WithResult(st: ParseState, gear: int, r: EomResult): ParseState {
    var listed := st.(laneList := WithLane(st.laneList, r.lane), gear := gear);
    if r.lane == 0 then listed.(lane0 := st.lane0[Key(r.timing, r.volt) := r.errorCnt])
    else listed.(lane1 := st.lane1[Key(r.timing, r.volt) := r.errorCnt])
  }

  /** A result line gives back its four numbers. */
  lemma ResultLineParses(st: ParseState, r: EomResult, gear: int)
    requires st.status == Running && r.lane <= 1
    requires gear >= 4 && GearFrom(st.ufsGear, 0) == Some(gear)
    ensures ParseLine(st, ResultLine(r)) == WithResult(st, gear, r)
  {
    ResultLineNoKeyword(r);
    NoKeywordLine(st, ResultLine(r));
    ResultWordsSplit(r);
    ResultData(st, ResultLine(r), r, gear);
    hide HeaderPart, DataPart, ResultLine, WithResult;
  }

  lemma ResultData(st: ParseState, line: string, r: EomResult, gear: int)
    requires st.status == Running && r.lane <= 1 && Split(line) == ResultWords(r)
    requires gear >= 4 && GearFrom(st.ufsGear, 0) == Some(gear)
    ensures DataPart(st, line) == WithResult(st, gear, r)
  {
    NumberRoundTrip(r.lane);
    NumberRoundTrip(r.timing);
    NumberRoundTrip(r.volt);
    NumberRoundTrip(r.errorCnt);
    hide Split, GearFrom, PyInt, StringToNumber, PrintInt;
    assert ResultWords(r)[6] == "error";
  }

  // ----- The header lines, one by one -----

  lemma SideLineParses(st: ParseState, side: Side)
    requires st.status == Running
    ensures ParseLine(st, SideLine(side)) == st.(side := SideName(side))
  {
    var line := SideLine(side);
    SideLineChars(side);
    SideLineWords(side);
    hide Split, Contains, SideLine;
    NoTimingWithout(line);
    NoVoltageWithout(line);
    NoLabelsWithout(line, ':');
    var words := ["UFS", SideName(side), "Side", "Eye", "Monitor", "Start"];
    MatchesAll(words, 0, ["UFS"]);
    MatchesAll(words, 2, ["Side", "Eye", "Monitor", "Start"]);
  }

  lemma SideLineChars(side: Side)
    ensures 'T' !in SideLine(side) && 'V' !in SideLine(side) && ':' !in SideLine(side)
    ensures Contains(SideLine(side), "Side Eye Monitor Start")
  {
    var before := "UFS " + SideName(side) + " ";
    SideLineText(side);
    SideLineLiterals(side);
    hide Contains, SideLine, SideName;
    ContainsAt(before, "Side Eye Monitor Start", "\n");
  }

  lemma SideLineLiterals(side: Side)
    ensures forall c | c in SideName(side) :: c != 'T' && c != 'V' && c != ':'
    ensures forall c | c in "Side Eye Monitor Start" :: c != 'T' && c != 'V' && c != ':'
  {
  }

  lemma SideLineText(side: Side)
    ensures SideLine(side) == "UFS " + SideName(side) + " " + "Side Eye Monitor Start" + "\n"
  {
  }

  lemma SideLineWords(side: Side)
    ensures Split(SideLine(side)) == ["UFS", SideName(side), "Side", "Eye", "Monitor", "Start"]
  {
    var words := ["UFS", SideName(side), "Side", "Eye", "Monitor", "Start"];
    var tail := ["Side", "Eye", "Monitor", "Start"];
    assert IsWord("UFS") && IsWord(SideName(side));
    assert IsWord("Side") && IsWord("Eye") && IsWord("Monitor") && IsWord("Start");
    SideLineText(side);
    SideTail();
    hide IsWord, Split, SideLine, SideName;
    JoinFour("Side", "Eye", "Monitor", "Start");
    JoinPair("UFS", SideName(side), tail);
    assert words == ["UFS", SideName(side)] + tail;
    assert "UFS " == "UFS" + " ";
    SplitJoin(words);
    SplitLineEnd(Join(words));
  }

  lemma SideTail()
    ensures "Side Eye Monitor Start" == "Side" + " " + "Eye" + " " + "Monitor" + " " + "Start"
  {
  }

  lemma JoinFour(a: string, b: string, c: string, d: string)
    ensures Join([a, b, c, d]) == a + " " + b + " " + c + " " + d
  {
    assert [a, b, c, d] == [a] + [b, c, d];
    JoinOne(a, [b, c, d]);
    JoinLast(b, c, d);
    hide Join;
    assert a + " " + (b + " " + c + " " + d) == a + " " + b + " " + c + " " + d;
  }

  lemma {:induction false} MatchesAll(w: seq<string>, i: nat, mark: seq<string>)
    requires i + |mark| <= |w|
    requires forall k | 0 <= k < |mark| :: w[i + k] == mark[k]
    ensures Matches(w, i, mark) == Some(true)
    decreases |mark|
  {
    if mark != [] {
      MatchesAll(w, i + 1, mark[1..]);
    }
  }

  lemma CapabilitiesLineParses(st: ParseState)
    requires st.status == Running
    ensures ParseLine(st, "EOM Capabilities:\n") == st
  {
    var line := "EOM Capabilities:\n";
    CapabilitiesChars();
    CapabilitiesWords();
    hide Split, Contains;
    NoTimingWithout(line);
    NoVoltageWithout(line);
    NoLabelsWithout(line, 'U');
    NoSideWithout(line, 'S');
    NoKeywordLine(st, line);
  }

  lemma CapabilitiesChars()
    ensures var line := "EOM Capabilities:\n"; 'T' !in line && 'V' !in line && 'U' !in line && 'S' !in line
  {
  }

  lemma CapabilitiesWords()
    ensures Split("EOM Capabilities:\n") == ["EOM", "Capabilities:"]
  {
    assert IsWord("EOM") && IsWord("Capabilities:");
    var words := ["EOM", "Capabilities:"];
    assert words == ["EOM"] + ["Capabilities:"];
    JoinOne("EOM", ["Capabilities:"]);
    assert Join(["Capabilities:"]) == "Capabilities:";
    hide IsWord, Join, Split;
    assert Join(words) + "\n" == "EOM Capabilities:\n";
    SplitJoin(words);
    SplitLineEnd(Join(words));
  }

  lemma BlankLineParses(st: ParseState)
    requires st.status == Running
    ensures ParseLine(st, "\n") == st
  {
  }

  // ----- The capability lines -----

  lemma CapsWords(a: string, x: int, b: string, y: int)
    requires IsWord(a) && IsWord(b)
    ensures Split(a + " " + PrintInt(x) + " " + b + " " + PrintInt(y) + "\n") == [a, PrintInt(x), b, PrintInt(y)]
  {
    NumberWord(x);
    NumberWord(y);
    hide IsWord, Split, Join;
    var words := [a, PrintInt(x), b, PrintInt(y)];
    JoinFour(a, PrintInt(x), b, PrintInt(y));
    SplitJoin(words);
    SplitLineEnd(Join(words));
  }

  lemma CapsChars(x: int, y: int, a: string, b: string, line: string, c: char)
    requires line == a + " " + PrintInt(x) + " " + b + " " + PrintInt(y) + "\n"
    requires c !in a && c !in b && !IsDigit(c) && c != '-' && c != ' ' && c != '\n'
    ensures c !in line
  {
    NumberWord(x);
    NumberWord(y);
  }

  /** What both capability lines have in common. */
  lemma CapsLine(a: string, x: int, b: string, y: int, line: string)
    requires line == a + " " + PrintInt(x) + " " + b + " " + PrintInt(y) + "\n"
    requires 'U' !in a && 'U' !in b && 'd' !in a && 'd' !in b && IsWord(a) && IsWord(b)
    ensures Split(line) == [a, PrintInt(x), b, PrintInt(y)]
    ensures Contains(line, a) && Contains(line, b)
    ensures !Contains(line, "UFS Spec Version:") && !Contains(line, "UFS INQUIRY ID:")
    ensures !Contains(line, "UFS Total Size:") && !Contains(line, "UFS Gear Speed:")
    ensures !Contains(line, "Side Eye Monitor Start")
  {
    CapsWords(a, x, b, y);
    CapsChars(x, y, a, b, line, 'U');
    CapsChars(x, y, a, b, line, 'd');
    hide Contains, Split, PrintInt, IsWord;
    NoLabelsWithout(line, 'U');
    NoSideWithout(line, 'd');
    CapsKeywords(a, PrintInt(x), b, PrintInt(y), line);
  }

  lemma CapsKeywords(a: string, x: string, b: string, y: string, line: string)
    requires line == a + " " + x + " " + b + " " + y + "\n"
    ensures Contains(line, a) && Contains(line, b)
  {
    hide Contains;
    ContainsAt("", a, " " + x + " " + b + " " + y + "\n");
    assert line == "" + a + (" " + x + " " + b + " " + y + "\n");
    ContainsAt(a + " " + x + " ", b, " " + y + "\n");
    assert line == a + " " + x + " " + b + (" " + y + "\n");
  }

  function WithTiming(st: ParseState, h: Header): ParseState {
    if h.timingMaxSteps == 0 then st.(status := Crashed)
    else st.(timingMaxSteps := h.timingMaxSteps, timingMaxOffset := h.timingMaxOffset,
             timingStep := TimingStep(h.timingMaxSteps, h.timingMaxOffset))
  }

  lemma TimingLineParses(st: ParseState, h: Header)
    requires st.status == Running
    ensures ParseLine(st, TimingLine(h)) == WithTiming(st, h)
  {
    var line := TimingLine(h);
    var a, b := "TimingMaxSteps", "TimingMaxOffset";
    KeywordsAreWords();
    TimingLineText(h);
    hide IsWord, PrintInt, TimingLine, Split, Contains, StringToNumber, PyInt, HeaderPart, DataPart, ParseLine;
    CapsLine(a, h.timingMaxSteps, b, h.timingMaxOffset, line);
    CapsChars(h.timingMaxSteps, h.timingMaxOffset, a, b, line, 'V');
    NoVoltageWithout(line);
    NumberRoundTrip(h.timingMaxSteps);
    NumberRoundTrip(h.timingMaxOffset);
    TimingSteps(st, line, Split(line));
  }

  lemma KeywordsAreWords()
    ensures IsWord("TimingMaxSteps") && IsWord("TimingMaxOffset")
    ensures IsWord("VoltageMaxSteps") && IsWord("VoltageMaxOffset")
  {
  }

  lemma TimingSteps(st: ParseState, line: string, w: seq<string>)
    requires st.status == Running && Split(line) == w && |w| == 4
    requires w[0] == "TimingMaxSteps" && w[2] == "TimingMaxOffset"
    requires StringToNumber(w[1]).Some? && StringToNumber(w[3]).Some?
    requires Contains(line, "TimingMaxSteps") && Contains(line, "TimingMaxOffset") && !Contains(line, "VoltageMaxSteps")
    requires !Contains(line, "UFS Spec Version:") && !Contains(line, "UFS INQUIRY ID:")
    requires !Contains(line, "UFS Total Size:") && !Contains(line, "UFS Gear Speed:")
    requires !Contains(line, "Side Eye Monitor Start")
    ensures ParseLine(st, line) == TimingPart(st, line)
  {
  }

  lemma TimingLineText(h: Header)
    ensures TimingLine(h) ==
      "TimingMaxSteps" + " " + PrintInt(h.timingMaxSteps) + " " + "TimingMaxOffset" + " " + PrintInt(h.timingMaxOffset) + "\n"
  {
  }

  function WithVoltage(st: ParseState, h: Header): ParseState {
    if h.voltageMaxSteps == 0 then st.(status := Crashed)
    else st.(voltageMaxSteps := h.voltageMaxSteps, voltageMaxOffset := h.voltageMaxOffset,
             voltageStep := VoltageStep(h.voltageMaxSteps, h.voltageMaxOffset))
  }

  lemma VoltageLineParses(st: ParseState, h: Header)
    requires st.status == Running
    ensures ParseLine(st, VoltageLine(h)) == WithVoltage(st, h)
  {
    var line := VoltageLine(h);
    var a, b := "VoltageMaxSteps", "VoltageMaxOffset";
    KeywordsAreWords();
    VoltageLineText(h);
    hide IsWord, PrintInt, VoltageLine, Split, Contains, StringToNumber, PyInt, HeaderPart, DataPart, ParseLine;
    CapsLine(a, h.voltageMaxSteps, b, h.voltageMaxOffset, line);
    CapsChars(h.voltageMaxSteps, h.voltageMaxOffset, a, b, line, 'T');
    NoTimingWithout(line);
    NumberRoundTrip(h.voltageMaxSteps);
    NumberRoundTrip(h.voltageMaxOffset);
    VoltageSteps(st, line, Split(line));
  }

  lemma VoltageSteps(st: ParseState, line: string, w: seq<string>)
    requires st.status == Running && Split(line) == w && |w| == 4
    requires w[0] == "VoltageMaxSteps" && w[2] == "VoltageMaxOffset"
    requires StringToNumber(w[1]).Some? && StringToNumber(w[3]).Some?
    requires Contains(line, "VoltageMaxSteps") && Contains(line, "VoltageMaxOffset") && !Contains(line, "TimingMaxSteps")
    requires !Contains(line, "UFS Spec Version:") && !Contains(line, "UFS INQUIRY ID:")
    requires !Contains(line, "UFS Total Size:") && !Contains(line, "UFS Gear Speed:")
    requires !Contains(line, "Side Eye Monitor Start")
    ensures ParseLine(st, line) == VoltagePart(st, line)
  {
  }

  lemma VoltageLineText(h: Header)
    ensures VoltageLine(h) ==
      "VoltageMaxSteps" + " " + PrintInt(h.voltageMaxSteps) + " " + "VoltageMaxOffset" + " " + PrintInt(h.voltageMaxOffset) + "\n"
  {
  }

  // ----- The gear line -----

  const DASHES: seq<string> := ["-", "-", "-", "-", "UFS"]

  /** A header line that starts with four dashes and UFS. */
  lemma DashedWords(a: string, b: string, text: string)
    requires IsWord(a) && IsWord(b)
    ensures Split("- - - - UFS " + a + " " + b + " " + text + "\n") == DASHES + [a, b] + Split(text)
  {
    var w := "- - - - UFS " + a + " " + b;
    DashesJoined(a, b);
    assert IsWord("-") && IsWord("UFS");
    hide IsWord, Join, Split;
    var words := DASHES + [a, b];
    SplitJoin(words);
    SplitAt(w, ' ', text + "\n");
    SplitLineEnd(text);
    assert w + [' '] + (text + "\n") == "- - - - UFS " + a + " " + b + " " + text + "\n";
  }

  lemma DashesJoined(a: string, b: string)
    ensures Join(DASHES + [a, b]) == "- - - - UFS " + a + " " + b
  {
    var tail := ["UFS", a, b];
    JoinLast("UFS", a, b);
    hide Join;
    JoinPair("-", "-", tail);
    JoinPair("-", "-", ["-", "-"] + tail);
    assert DASHES + [a, b] == ["-", "-"] + (["-", "-"] + tail);
    DashText();
    assert Join(tail) == "UFS " + a + " " + b;
    assert "- - " + ("- - " + ("UFS " + a + " " + b)) == "- - - - UFS " + a + " " + b;
  }

  lemma DashText()
    ensures "-" + " " + "-" + " " == "- - "
    ensures "- - " + "- - " + "UFS " == "- - - - UFS "
    ensures "UFS" + " " == "UFS "
  {
  }

  function GearName(gear: int): string { "HS-G" + PrintInt(gear) }

  function RateWord(rate: int): string { "Rate-" + RateName(rate) }

  lemma GearLineText(gear: int, rate: int)
    ensures GearLine(gear, rate) ==
      "- - - - UFS " + "Gear" + " " + "Speed:" + " " + (GearName(gear) + " " + RateWord(rate)) + "\n"
  {
  }

  lemma GearWords(gear: int, rate: int)
    ensures Split(GearName(gear) + " " + RateWord(rate)) == [GearName(gear), RateWord(rate)]
    ensures GearName(gear) != "count"
  {
    NumberWord(gear);
    assert IsWord(GearName(gear)) && IsWord(RateWord(rate));
    assert GearName(gear)[0] == 'H';
    hide IsWord, Split;
    SplitAt(GearName(gear), ' ', RateWord(rate));
    SplitWord(GearName(gear));
    SplitWord(RateWord(rate));
    assert GearName(gear) + [' '] + RateWord(rate) == GearName(gear) + " " + RateWord(rate);
  }

  lemma GearLineChars(gear: int, rate: int)
    ensures 'T' !in GearLine(gear, rate) && 'V' !in GearLine(gear, rate)
    ensures 'I' !in GearLine(gear, rate) && 'M' !in GearLine(gear, rate)
    ensures Contains(GearLine(gear, rate), "UFS Gear Speed:")
  {
    NumberWord(gear);
    var d := PrintInt(gear);
    GearLiterals(rate);
    hide Contains, RateName, PrintInt;
    ContainsAt("- - - - ", "UFS Gear Speed:", " HS-G" + d + " Rate-" + RateName(rate) + "\n");
    GearPieces(d, RateName(rate));
  }

  lemma GearLiterals(rate: int)
    ensures forall c | c in "- - - - UFS Gear Speed: HS-G" :: c != 'T' && c != 'V' && c != 'I' && c != 'M'
    ensures forall c | c in " Rate-" :: c != 'T' && c != 'V' && c != 'I' && c != 'M'
    ensures forall c | c in RateName(rate) :: c != 'T' && c != 'V' && c != 'I' && c != 'M'
  {
  }

  lemma GearPieces(d: string, rate: string)
    ensures "- - - - UFS Gear Speed: HS-G" + d + " Rate-" + rate + "\n" ==
      "- - - - " + "UFS Gear Speed:" + (" HS-G" + d + " Rate-" + rate + "\n")
  {
  }

  lemma GearLineParses(st: ParseState, gear: int, rate: int)
    requires st.status == Running
    ensures ParseLine(st, GearLine(gear, rate)) == st.(ufsGear := GearName(gear) + " " + RateWord(rate))
  {
    var line := GearLine(gear, rate);
    GearLineChars(gear, rate);
    GearLineText(gear, rate);
    GearWords(gear, rate);
    assert IsWord("Gear") && IsWord("Speed:");
    hide IsWord, GearLine, GearName, RateWord, Contains, Split;
    DashedWords("Gear", "Speed:", GearName(gear) + " " + RateWord(rate));
    NoTimingWithout(line);
    NoVoltageWithout(line);
    GearSteps(st, line, DASHES + ["Gear", "Speed:"] + [GearName(gear), RateWord(rate)]);
  }

  lemma GearFound(gear: nat, rate: int)
    ensures GearFrom(GearName(gear) + " " + RateWord(rate), 0) == Some(gear)
  {
    var s := GearName(gear) + " " + RateWord(rate);
    var d, rest := PrintInt(gear), " " + RateWord(rate);
    PrintNatDigits(gear);
    assert s[4..] == d + rest && s[0..4] == "HS-G";
    assert d[0] in d;
    DigitRunOf(d, rest);
    assert s[4] == d[0] && IsDigit(s[4]);
    hide PrintInt, RateWord, DigitRun;
    assert GearFrom(s, 4) == Some(gear);
    assert GearFrom(s, 3) == Some(gear);
    assert GearFrom(s, 2) == Some(gear);
    assert GearFrom(s, 1) == Some(gear);
  }

  /** A negative gear is printed without a digit after HS-G. */
  lemma NegativeGearNotFound(gear: int, rate: int)
    requires gear < 0
    ensures GearFrom(GearName(gear) + " " + RateWord(rate), 0) == None
  {
    var s := GearName(gear) + " " + RateWord(rate);
    var rest := PrintNat(-gear) + " " + RateWord(rate);
    PrintNatDigits(-gear);
    RateWordChars(rate);
    assert s == "HS-G-" + rest;
    hide PrintNat, RateWord, PrintInt, GearName, GearFrom;
    assert 'H' !in rest;
    OnlyOneH(s, rest);
  }

  lemma OnlyOneH(s: string, rest: string)
    requires s == "HS-G-" + rest && 'H' !in rest
    ensures GearFrom(s, 0) == None
  {
    hide GearFrom;
    assert forall k | 5 <= k < |s| :: s[k] == rest[k - 5];
    assert s[1] == 'S' && s[2] == '-' && s[3] == 'G' && s[4] == '-';
    forall i | 4 <= i < |s|
      ensures !(s[i - 4..i] == "HS-G" && IsDigit(s[i]))
    {
      assert s[i - 4..i][0] == s[i - 4];
    }
    NoGearInside(s, 0);
  }

  lemma RateWordChars(rate: int)
    ensures 'H' !in RateWord(rate)
  {
  }

  lemma {:induction false} NoGearInside(s: string, i: nat)
    requires forall j | 4 <= j < |s| :: !(s[j - 4..j] == "HS-G" && IsDigit(s[j]))
    ensures GearFrom(s, i) == None
    decreases |s| - i
  {
    if i < |s| {
      NoGearInside(s, i + 1);
    }
  }

  lemma {:induction false} DigitRunOf(d: string, rest: string)
    requires AllDigits(d) && rest != "" && !IsDigit(rest[0])
    ensures DigitRun(d + rest) == d
  {
    if d == "" {
      assert d + rest == rest;
    } else {
      assert d[0] in d;
      assert (d + rest)[1..] == d[1..] + rest;
      DigitRunOf(d[1..], rest);
    }
  }

  // ----- The line with the names -----

  lemma InquiryLineText(n: DeviceNames)
    ensures InquiryLine(n) == "- - - - UFS " + "INQUIRY" + " " + "ID:" + " " + NameText(n) + "\n"
  {
  }

  lemma InquiryContains(n: DeviceNames)
    ensures Both(InquiryLine(n), "TimingMaxSteps", "TimingMaxOffset") <==>
      Both(NameText(n), "TimingMaxSteps", "TimingMaxOffset")
    ensures Both(InquiryLine(n), "VoltageMaxSteps", "VoltageMaxOffset") <==>
      Both(NameText(n), "VoltageMaxSteps", "VoltageMaxOffset")
    ensures Contains(InquiryLine(n), "UFS INQUIRY ID:")
  {
    var before := "- - - - UFS INQUIRY ID: ";
    InquiryLiterals();
    NoBreakInKeywords();
    hide Contains, NameText;
    ContainsInside(before, NameText(n), "\n", "TimingMaxSteps");
    ContainsInside(before, NameText(n), "\n", "TimingMaxOffset");
    ContainsInside(before, NameText(n), "\n", "VoltageMaxSteps");
    ContainsInside(before, NameText(n), "\n", "VoltageMaxOffset");
    ContainsAt("- - - - ", "UFS INQUIRY ID:", " " + NameText(n) + "\n");
    assert InquiryLine(n) == "- - - - " + "UFS INQUIRY ID:" + (" " + NameText(n) + "\n");
  }

  lemma InquiryLiterals()
    ensures 'T' !in "- - - - UFS INQUIRY ID: " && 'V' !in "- - - - UFS INQUIRY ID: "
    ensures "- - - - UFS INQUIRY ID: " == "- - - - " + "UFS INQUIRY ID:" + " "
  {
  }

  lemma NoBreakInKeywords()
    ensures '\n' !in "TimingMaxSteps" && '\n' !in "TimingMaxOffset"
    ensures '\n' !in "VoltageMaxSteps" && '\n' !in "VoltageMaxOffset"
  {
  }

  /** The line sets the two name fields. If the names have fewer than two words or contain keywords of
      the capability lines, it raises; if the first word is "count", it is taken for data too, and is
      a bad line. */
  lemma InquiryLineParses(st: ParseState, n: DeviceNames)
    requires st.status == Running
    ensures !NamesRead(n) ==> ParseLine(st, InquiryLine(n)).status == Crashed
    ensures NamesRead(n) ==>
      var words := Split(NameText(n));
      ParseLine(st, InquiryLine(n)) ==
        st.(mfrName := words[0], mfrId := words[1],
            badDataCount := st.badDataCount + if words[0] == "count" then 1 else 0)
  {
    var line, words := InquiryLine(n), Split(NameText(n));
    InquiryContains(n);
    InquiryLineText(n);
    assert IsWord("INQUIRY") && IsWord("ID:");
    DashedWords("INQUIRY", "ID:", NameText(n));
    hide Contains, Split, InquiryLine, NameText, IsWord;
    InquirySteps(st, line, DASHES + ["INQUIRY", "ID:"] + words);
  }

  /** Names of one word each are read back as they are, in this order. */
  lemma NamesReadBack(n: DeviceNames)
    requires IsWord(n.manufacturer) && IsWord(n.product) && IsWord(n.revision)
    ensures Split(NameText(n)) == [n.manufacturer, n.product, n.revision]
  {
    hide IsWord, Split, Join;
    JoinLast(n.manufacturer, n.product, n.revision);
    SplitJoin([n.manufacturer, n.product, n.revision]);
  }

  /** What the report says about the side. */
  lemma SideShown(side: Side)
    ensures SideLine(side) == "UFS " + (if side == Peer then "Device" else "Host") + " Side Eye Monitor Start\n"
  {
  }

  /** And about gear and rate. */
  lemma RateShown(gear: int, rate: int)
    ensures GearLine(gear, rate) ==
      "- - - - UFS Gear Speed: HS-G" + PrintInt(gear) + " Rate-" + (if rate == 1 then "A" else "B") + "\n"
  {
  }

  // ----- A line that starts with four dashes and UFS -----

  lemma DashedHeading(w: seq<string>, a: string, b: string, c: string, d: string)
    requires |w| >= 7 && w[..7] == DASHES + [a, b]
    ensures Matches(w, 4, ["UFS", a, b]) == Some(true) && Matches(w, 0, ["UFS"]) == Some(false)
    ensures c != a ==> Matches(w, 4, ["UFS", c, d]) == Some(false)
  {
    assert forall i | 0 <= i < 7 :: w[i] == w[..7][i];
    MatchesAll(w, 4, ["UFS", a, b]);
    assert ["UFS", c, d][1..] == [c, d];
  }

  /** Such a line is taken for data only if its eighth word is "count", and then it is bad. */
  lemma DashedData(st: ParseState, line: string, w: seq<string>, a: string, b: string)
    requires st.status == Running && Split(line) == w && |w| >= 7 && w[..7] == DASHES + [a, b] && b != "error"
    ensures DataPart(st, line) ==
      if |w| > 7 && w[7] == "count" then st.(badDataCount := st.badDataCount + 1) else st
  {
    hide Split, StringToNumber, GearFrom;
    assert forall i | 0 <= i < 7 :: w[i] == w[..7][i];
    assert PyInt("-") == None;
  }

  lemma InquirySteps(st: ParseState, line: string, w: seq<string>)
    requires st.status == Running && Split(line) == w && |w| >= 7 && w[..7] == DASHES + ["INQUIRY", "ID:"]
    requires Contains(line, "UFS INQUIRY ID:")
    ensures !(NoLimits(line) && |w| >= 9) ==> ParseLine(st, line).status == Crashed
    ensures NoLimits(line) && |w| >= 9 ==>
      ParseLine(st, line) ==
        st.(mfrName := w[7], mfrId := w[8], badDataCount := st.badDataCount + if w[7] == "count" then 1 else 0)
  {
    hide Contains, Split, Matches, DataPart;
    DashedHeading(w, "INQUIRY", "ID:", "Spec", "Version:");
    DashedHeading(w, "INQUIRY", "ID:", "Total", "Size:");
    DashedHeading(w, "INQUIRY", "ID:", "Gear", "Speed:");
    LimitsSpoil(st, line, w);
    if NoLimits(line) && |w| >= 9 {
      DashedData(st.(mfrName := w[7], mfrId := w[8]), line, w, "INQUIRY", "ID:");
    }
  }

  /** A keyword of the capability lines fails an assertion. */
  lemma LimitsSpoil(st: ParseState, line: string, w: seq<string>)
    requires st.status == Running && Split(line) == w && |w| >= 7 && w[..5] == DASHES
    ensures if NoLimits(line) then VoltagePart(TimingPart(st, line), line) == st
            else VoltagePart(TimingPart(st, line), line).status == Crashed
  {
    hide Contains, Split;
    assert w[0] == w[..5][0];
  }

  lemma GearSteps(st: ParseState, line: string, w: seq<string>)
    requires st.status == Running && Split(line) == w && |w| == 9 && w[..7] == DASHES + ["Gear", "Speed:"]
    requires Contains(line, "UFS Gear Speed:") && NoLimits(line) && w[7] != "count"
    ensures ParseLine(st, line) == st.(ufsGear := w[7] + " " + w[8])
  {
    hide Contains, Split, Matches, DataPart;
    DashedHeading(w, "Gear", "Speed:", "Spec", "Version:");
    DashedHeading(w, "Gear", "Speed:", "INQUIRY", "ID:");
    DashedHeading(w, "Gear", "Speed:", "Total", "Size:");
    LimitsSpoil(st, line, w);
    DashedData(st.(ufsGear := w[7] + " " + w[8]), line, w, "Gear", "Speed:");
  }

  /** A version line sets the version; without a version, with "count" for one, or with a keyword of
      the capability lines in it, it spoils the file. */
  lemma VersionLineParses(st: ParseState, text: string)
    requires st.status == Running
    ensures
      var line, words := "- - - - UFS Spec Version: " + text + "\n", Split(text);
      var harmless := NoLimits(line) && |words| >= 1 && words[0] != "count";
      && (harmless ==> ParseLine(st, line) == st.(versionNo := "UFS" + words[0]))
      && (!harmless ==> !Good(ParseLine(st, line)))
  {
    var line := "- - - - UFS Spec Version: " + text + "\n";
    VersionLiterals();
    assert IsWord("Spec") && IsWord("Version:");
    DashedWords("Spec", "Version:", text);
    hide Contains, Split, IsWord;
    LiteralBefore("- - - - UFS Spec Version: ", "- - - - ", "UFS Spec Version:", text);
    ContainsAt("- - - - ", "UFS Spec Version:", " " + text + "\n");
    VersionSteps(st, line, DASHES + ["Spec", "Version:"] + Split(text));
  }

  lemma LiteralBefore(whole: string, before: string, keyword: string, text: string)
    requires whole == before + keyword + " "
    ensures whole + text + "\n" == before + keyword + (" " + text + "\n")
  {
  }

  lemma VersionLiterals()
    ensures "- - - - UFS Spec Version: " == "- - - - UFS " + "Spec" + " " + "Version:" + " "
    ensures "- - - - UFS Spec Version: " == "- - - - " + "UFS Spec Version:" + " "
  {
  }

  lemma VersionSteps(st: ParseState, line: string, w: seq<string>)
    requires st.status == Running && Split(line) == w && |w| >= 7 && w[..7] == DASHES + ["Spec", "Version:"]
    requires Contains(line, "UFS Spec Version:")
    ensures
      var harmless := NoLimits(line) && |w| >= 8 && w[7] != "count";
      && (harmless ==> ParseLine(st, line) == st.(versionNo := "UFS" + w[7]))
      && (!harmless ==> !Good(ParseLine(st, line)))
  {
    hide Contains, Split, Matches, DataPart;
    DashedHeading(w, "Spec", "Version:", "INQUIRY", "ID:");
    DashedHeading(w, "Spec", "Version:", "Total", "Size:");
    DashedHeading(w, "Spec", "Version:", "Gear", "Speed:");
    LimitsSpoil(st, line, w);
    if NoLimits(line) && |w| >= 8 {
      DashedData(st.(versionNo := "UFS" + w[7]), line, w, "Spec", "Version:");
    }
  }

  /** A size line sets the size, number and unit put together; with fewer than two words, with
      "count" for the first, or with a keyword of the capability lines in it, it spoils the file. */
  lemma SizeLineParses(st: ParseState, text: string)
    requires st.status == Running
    ensures
      var line, words := "- - - - UFS Total Size: " + text + "\n", Split(text);
      var harmless := NoLimits(line) && |words| >= 2 && words[0] != "count";
      && (harmless ==> ParseLine(st, line) == st.(deviceSize := words[0] + words[1]))
      && (!harmless ==> !Good(ParseLine(st, line)))
  {
    var line := "- - - - UFS Total Size: " + text + "\n";
    SizeLiterals();
    assert IsWord("Total") && IsWord("Size:");
    DashedWords("Total", "Size:", text);
    hide Contains, Split, IsWord;
    LiteralBefore("- - - - UFS Total Size: ", "- - - - ", "UFS Total Size:", text);
    ContainsAt("- - - - ", "UFS Total Size:", " " + text + "\n");
    SizeSteps(st, line, DASHES + ["Total", "Size:"] + Split(text));
  }

  lemma SizeLiterals()
    ensures "- - - - UFS Total Size: " == "- - - - UFS " + "Total" + " " + "Size:" + " "
    ensures "- - - - UFS Total Size: " == "- - - - " + "UFS Total Size:" + " "
  {
  }

  lemma SizeSteps(st: ParseState, line: string, w: seq<string>)
    requires st.status == Running && Split(line) == w && |w| >= 7 && w[..7] == DASHES + ["Total", "Size:"]
    requires Contains(line, "UFS Total Size:")
    ensures
      var harmless := NoLimits(line) && |w| >= 9 && w[7] != "count";
      && (harmless ==> ParseLine(st, line) == st.(deviceSize := w[7] + w[8]))
      && (!harmless ==> !Good(ParseLine(st, line)))
  {
    hide Contains, Split, Matches, DataPart;
    DashedHeading(w, "Total", "Size:", "Spec", "Version:");
    DashedHeading(w, "Total", "Size:", "INQUIRY", "ID:");
    DashedHeading(w, "Total", "Size:", "Gear", "Speed:");
    LimitsSpoil(st, line, w);
    if NoLimits(line) && |w| >= 9 {
      DashedData(st.(deviceSize := w[7] + w[8]), line, w, "Total", "Size:");
    }
  }

  // ----- The whole report -----

  /** Reading the header raises. */
  predicate HeaderRaises(h: Header) {
    !NamesRead(h.names) || h.timingMaxSteps == 0 || h.voltageMaxSteps == 0
  }

  /** What the header lines leave in the parser. */
  function HeaderState(h: Header): ParseState
    requires !HeaderRaises(h)
  {
    var words := Split(NameText(h.names));
    INITIAL.(
      side := SideName(h.side), mfrName := words[0], mfrId := words[1],
      badDataCount := if words[0] == "count" then 1 else 0,
      ufsGear := GearName(h.gear) + " " + RateWord(h.rate),
      timingMaxSteps := h.timingMaxSteps, timingMaxOffset := h.timingMaxOffset,
      timingStep := TimingStep(h.timingMaxSteps, h.timingMaxOffset),
      voltageMaxSteps := h.voltageMaxSteps, voltageMaxOffset := h.voltageMaxOffset,
      voltageStep := VoltageStep(h.voltageMaxSteps, h.voltageMaxOffset))
  }

  predicate ReadableHeader(h: Header) {
    HarmlessNames(h.names) && h.timingMaxSteps != 0 && h.voltageMaxSteps != 0
  }

  /** What the first two lines leave in the parser. */
  function NamesState(h: Header): ParseState
    requires NamesRead(h.names)
  {
    var words := Split(NameText(h.names));
    INITIAL.(side := SideName(h.side), mfrName := words[0], mfrId := words[1],
             badDataCount := if words[0] == "count" then 1 else 0)
  }

  lemma FirstLinesParse(h: Header)
    ensures !NamesRead(h.names) ==> ParseLines(INITIAL, HeaderLines(h)).status == Crashed
    ensures NamesRead(h.names) ==>
      ParseLines(INITIAL, HeaderLines(h)) == ParseLines(NamesState(h), HeaderLines(h)[2..])
  {
    hide ParseLine, ParseLines, NamesRead, SideLine, InquiryLine, GearLine, TimingLine, VoltageLine, SideName, Split,
         NameText;
    var lines := HeaderLines(h);
    SideLineParses(INITIAL, h.side);
    var s1 := ParseLine(INITIAL, lines[0]);
    InquiryLineParses(s1, h.names);
    var s2 := ParseLine(s1, lines[1]);
    ParseFirst(INITIAL, lines);
    ParseFirst(s1, lines[1..]);
    assert lines[1..][1..] == lines[2..];
    if !NamesRead(h.names) {
      StatusStays(s2, lines[2..]);
    }
  }

  /** The header raises, or every line of it is read. */
  lemma HeaderParses(h: Header)
    ensures HeaderRaises(h) ==> ParseLines(INITIAL, HeaderLines(h)).status == Crashed
    ensures !HeaderRaises(h) ==> ParseLines(INITIAL, HeaderLines(h)) == HeaderState(h)
  {
    hide ParseLine, ParseLines, NamesRead, HeaderLines, GearLine, GearName, RateWord, SideName, Split, NameText, TimingStep,
         VoltageStep;
    FirstLinesParse(h);
    if NamesRead(h.names) {
      GearLineParses(NamesState(h), h.gear, h.rate);
      var s3 := NamesState(h).(ufsGear := GearName(h.gear) + " " + RateWord(h.rate));
      LastLines(h);
      LimitLinesParse(NamesState(h), s3, h, HeaderLines(h)[2..]);
    }
  }

  /** From the gear line on. */
  lemma LimitLinesParse(s2: ParseState, s3: ParseState, h: Header, lines: seq<string>)
    requires s3 == ParseLine(s2, GearLine(h.gear, h.rate)) && s3.status == Running
    requires lines == [GearLine(h.gear, h.rate), "EOM Capabilities:\n", TimingLine(h), VoltageLine(h), "\n"]
    ensures
      var after := ParseLines(s2, lines);
      if h.timingMaxSteps == 0 || h.voltageMaxSteps == 0 then after.status == Crashed
      else after == WithVoltage(WithTiming(s3, h), h)
  {
    WithStatus(s3, h);
    hide ParseLine, ParseLines, GearLine, TimingLine, VoltageLine, WithTiming, WithVoltage;
    FiveLines(s2, lines);
    CapabilitiesLineParses(s3);
    TimingLineParses(s3, h);
    var s4 := ParseLine(s3, lines[2]);
    if h.timingMaxSteps == 0 {
      StatusStays(s4, lines[3..]);
    } else {
      VoltageLineParses(s4, h);
      var s5 := ParseLine(s4, lines[3]);
      if h.voltageMaxSteps == 0 {
        StatusStays(s5, lines[4..]);
      } else {
        BlankLineParses(s5);
      }
    }
  }

  lemma LastLines(h: Header)
    ensures |HeaderLines(h)| == 7
    ensures HeaderLines(h)[2..] ==
      [GearLine(h.gear, h.rate), "EOM Capabilities:\n", TimingLine(h), VoltageLine(h), "\n"]
  {
    hide GearLine, TimingLine, VoltageLine, SideLine, InquiryLine;
  }

  lemma WithStatus(st: ParseState, h: Header)
    requires st.status == Running
    ensures WithTiming(st, h).status == if h.timingMaxSteps == 0 then Crashed else Running
    ensures WithVoltage(WithTiming(st, h), h).status ==
      if h.timingMaxSteps == 0 || h.voltageMaxSteps == 0 then Crashed else Running
  {
  }

  lemma FiveLines(st: ParseState, lines: seq<string>)
    requires |lines| == 5
    ensures
      var s2 := ParseLine(ParseLine(ParseLine(st, lines[0]), lines[1]), lines[2]);
      var s3 := ParseLine(s2, lines[3]);
      ParseLines(st, lines) == ParseLines(s2, lines[3..]) == ParseLines(s3, lines[4..]) == ParseLine(s3, lines[4])
  {
    hide ParseLine;
    var s0 := ParseLine(st, lines[0]);
    var s1 := ParseLine(s0, lines[1]);
    var s2 := ParseLine(s1, lines[2]);
    var s3 := ParseLine(s2, lines[3]);
    ParseFirst(st, lines);
    ParseFirst(s0, lines[1..]);
    ParseFirst(s1, lines[2..]);
    ParseFirst(s2, lines[3..]);
    ParseFirst(s3, lines[4..]);
    assert lines[1..][1..] == lines[2..] && lines[2..][1..] == lines[3..] && lines[3..][1..] == lines[4..];
    assert lines[4..][1..] == [];
  }

  /** A parser that has stopped stays stopped, and for the same reason. */
  lemma {:induction false} StatusStays(st: ParseState, lines: seq<string>)
    requires st.status != Running
    ensures ParseLines(st, lines).status == st.status
  {
    hide ParseLine;
    if lines != [] {
      StatusStays(st, lines[..|lines| - 1]);
    }
  }

  lemma ParseFirst(st: ParseState, lines: seq<string>)
    requires lines != []
    ensures ParseLines(st, lines) == ParseLines(ParseLine(st, lines[0]), lines[1..])
  {
    hide ParseLine;
    assert lines == [lines[0]] + lines[1..];
    ParseLinesAppend(st, [lines[0]], lines[1..]);
    assert [lines[0]][..0] == [];
    assert ParseLines(st, []) == st;
  }

  /** The dictionary of a lane: later results overwrite earlier ones. */
  function LaneMap(results: seq<EomResult>, lane: nat): map<Key, int> {
    if results == [] then map[]
    else
      var r := results[|results| - 1];
      var before := LaneMap(results[..|results| - 1], lane);
      if r.lane == lane then before[Key(r.timing, r.volt) := r.errorCnt] else before
  }

  /** The lanes in the order in which they first occur. */
  function LanesOf(results: seq<EomResult>): seq<int> {
    if results == [] then [] else WithLane(LanesOf(results[..|results| - 1]), results[|results| - 1].lane)
  }

  function ReportState(h: Header, results: seq<EomResult>): ParseState
    requires !HeaderRaises(h)
  {
    HeaderState(h).(laneList := LanesOf(results), lane0 := LaneMap(results, 0), lane1 := LaneMap(results, 1),
                    gear := if results == [] then 0 else h.gear)
  }

  lemma {:induction false} ResultLinesParse(h: Header, results: seq<EomResult>)
    requires !HeaderRaises(h) && h.gear >= 4 && forall r | r in results :: r.lane <= 1
    ensures ParseLines(HeaderState(h), ResultLines(results)) == ReportState(h, results)
  {
    hide ParseLine, HeaderRaises, ResultLine, HarmlessNames, GearFrom, GearName, RateWord, Split, NameText,
         TimingStep, VoltageStep, SideName;
    if results != [] {
      var before, r := results[..|results| - 1], results[|results| - 1];
      assert r in results && forall q | q in before :: q in results;
      ResultLinesParse(h, before);
      GearFound(h.gear, h.rate);
      ResultLineParses(ReportState(h, before), r, h.gear);
    }
  }

  /** A gear below 4 stops the parser at the first result, whatever it is. */
  lemma {:induction false} LowGearStops(h: Header, results: seq<EomResult>)
    requires !HeaderRaises(h) && 0 <= h.gear < 4 && results != []
    ensures ParseLines(HeaderState(h), ResultLines(results)).status == Unsupported
  {
    hide ParseLine, HeaderRaises, ResultLine, GearFrom, GearName, RateWord, SideName;
    var before, r := results[..|results| - 1], results[|results| - 1];
    if before == [] {
      GearFound(h.gear, h.rate);
      AnyResultLine(HeaderState(h), r);
    } else {
      LowGearStops(h, before);
    }
  }

  /** A gear that is no number makes every result a bad line. */
  lemma {:induction false} NoGearSpoils(h: Header, results: seq<EomResult>)
    requires !HeaderRaises(h) && h.gear < 0
    ensures
      var st := ParseLines(HeaderState(h), ResultLines(results));
      && st.status == Running && st.badDataCount == HeaderState(h).badDataCount + |results|
      && st.ufsGear == HeaderState(h).ufsGear
  {
    hide ParseLine, HeaderRaises, ResultLine, GearFrom, GearName, RateWord, SideName;
    if results != [] {
      NoGearSpoils(h, results[..|results| - 1]);
      NegativeGearNotFound(h.gear, h.rate);
      AnyResultLine(ParseLines(HeaderState(h), ResultLines(results[..|results| - 1])), results[|results| - 1]);
    }
  }

  /** A lane other than 0 and 1 makes the plotter quit. */
  lemma {:induction false} ThirdLaneQuits(h: Header, results: seq<EomResult>)
    requires !HeaderRaises(h) && h.gear >= 4 && exists r :: r in results && r.lane > 1
    ensures ParseLines(HeaderState(h), ResultLines(results)).status == Quit
  {
    hide ParseLine, HeaderRaises, ResultLine, GearFrom, GearName, RateWord, SideName, ReportState;
    var before, last := results[..|results| - 1], results[|results| - 1];
    assert results == before + [last];
    if exists r :: r in before && r.lane > 1 {
      ThirdLaneQuits(h, before);
    } else {
      ResultLinesParse(h, before);
      GearFound(h.gear, h.rate);
      ReportStateKeeps(h, before);
      AnyResultLine(ReportState(h, before), last);
    }
  }

  lemma ReportStateKeeps(h: Header, results: seq<EomResult>)
    requires !HeaderRaises(h)
    ensures ReportState(h, results).status == Running && ReportState(h, results).ufsGear == HeaderState(h).ufsGear
  {
  }

  /** A result line, whatever its lane and the gear. */
  lemma AnyResultLine(st: ParseState, r: EomResult)
    requires st.status == Running
    ensures
      var after, gear := ParseLine(st, ResultLine(r)), GearFrom(st.ufsGear, 0);
      && after.ufsGear == st.ufsGear
      && (gear == None ==> after.status == Running && after.badDataCount == st.badDataCount + 1)
      && (gear.Some? && gear.value < 4 ==> after.status == Unsupported)
      && (gear.Some? && gear.value >= 4 && r.lane > 1 ==> after.status == Quit)
  {
    ResultLineNoKeyword(r);
    NoKeywordLine(st, ResultLine(r));
    ResultWordsSplit(r);
    hide HeaderPart, ResultLine;
    AnyResultData(st, ResultLine(r), r);
  }

  lemma AnyResultData(st: ParseState, line: string, r: EomResult)
    requires st.status == Running && Split(line) == ResultWords(r)
    ensures
      var after, gear := DataPart(st, line), GearFrom(st.ufsGear, 0);
      && after.ufsGear == st.ufsGear
      && (gear == None ==> after.status == Running && after.badDataCount == st.badDataCount + 1)
      && (gear.Some? && gear.value < 4 ==> after.status == Unsupported)
      && (gear.Some? && gear.value >= 4 && r.lane > 1 ==> after.status == Quit)
  {
    NumberRoundTrip(r.lane);
    NumberRoundTrip(r.timing);
    NumberRoundTrip(r.volt);
    NumberRoundTrip(r.errorCnt);
    hide Split, GearFrom, PyInt, StringToNumber, PrintInt;
    assert ResultWords(r)[6] == "error";
  }

  /** Reading a report gives back everything that was printed into it, exactly when its header is
      readable; otherwise the file counts as bad. */
  lemma ReportParses(h: Header, results: seq<EomResult>)
    requires h.gear >= 4 && forall r | r in results :: r.lane <= 1
    ensures Good(ParseLines(INITIAL, Lines(h, results))) <==> ReadableHeader(h)
    ensures ReadableHeader(h) ==> ParseLines(INITIAL, Lines(h, results)) == ReportState(h, results)
  {
    AnyReportParses(h, results);
    if !HeaderRaises(h) {
      ResultLinesParse(h, results);
    }
  }

  /** Whatever the header says, its lines are read first, then the results. */
  lemma AnyReportParses(h: Header, results: seq<EomResult>)
    ensures HeaderRaises(h) ==> ParseLines(INITIAL, Lines(h, results)).status == Crashed
    ensures !HeaderRaises(h) ==>
      ParseLines(INITIAL, Lines(h, results)) == ParseLines(HeaderState(h), ResultLines(results))
  {
    HeaderParses(h);
    hide ParseLines, HeaderLines, ResultLines, HeaderRaises;
    ParseLinesAppend(INITIAL, HeaderLines(h), ResultLines(results));
    if HeaderRaises(h) {
      StatusStays(ParseLines(INITIAL, HeaderLines(h)), ResultLines(results));
    }
  }

  // ----- From the text to the lines -----

  lemma EndsLine(body: string)
    requires OneLine(body)
    ensures IsLine(body + "\n")
  {
  }

  lemma ResultLineIsLine(r: EomResult)
    ensures IsLine(ResultLine(r))
  {
    var l, t, v, e := PrintInt(r.lane), PrintInt(r.timing), PrintInt(r.volt), PrintInt(r.errorCnt);
    NumberWord(r.lane);
    NumberWord(r.timing);
    NumberWord(r.volt);
    NumberWord(r.errorCnt);
    NoBreakInLabels();
    hide PrintInt, IsLine;
    EndsLine("lane: " + l + " timing: " + t + " voltage: " + v + " error count: " + e);
  }

  lemma NoBreakInLabels()
    ensures OneLine("lane: ") && OneLine(" timing: ") && OneLine(" voltage: ") && OneLine(" error count: ")
  {
  }

  lemma NoBreakInGearLine()
    ensures OneLine("- - - - UFS Gear Speed: HS-G") && OneLine(" Rate-") && OneLine("A") && OneLine("B")
  {
  }

  lemma NoBreakInTiming()
    ensures OneLine("TimingMaxSteps ") && OneLine(" TimingMaxOffset ")
  {
  }

  lemma NoBreakInVoltage()
    ensures OneLine("VoltageMaxSteps ") && OneLine(" VoltageMaxOffset ")
  {
  }

  lemma SideIsLine(side: Side)
    ensures IsLine(SideLine(side))
  {
  }

  lemma InquiryIsLine(n: DeviceNames)
    requires OneLine(NameText(n))
    ensures IsLine(InquiryLine(n))
  {
  }

  lemma GearIsLine(gear: int, rate: int)
    ensures IsLine(GearLine(gear, rate))
  {
    NumberWord(gear);
    NoBreakInGearLine();
    assert OneLine(RateName(rate));
    hide IsLine, PrintInt, RateName;
    EndsLine("- - - - UFS Gear Speed: HS-G" + PrintInt(gear) + " Rate-" + RateName(rate));
  }

  lemma CapsAreLines(h: Header)
    ensures IsLine(TimingLine(h)) && IsLine(VoltageLine(h))
  {
    NumberWord(h.timingMaxSteps);
    NumberWord(h.timingMaxOffset);
    NumberWord(h.voltageMaxSteps);
    NumberWord(h.voltageMaxOffset);
    NoBreakInTiming();
    NoBreakInVoltage();
    hide PrintInt, IsLine;
    EndsLine("TimingMaxSteps " + PrintInt(h.timingMaxSteps) + " TimingMaxOffset " + PrintInt(h.timingMaxOffset));
    EndsLine("VoltageMaxSteps " + PrintInt(h.voltageMaxSteps) + " VoltageMaxOffset " + PrintInt(h.voltageMaxOffset));
  }

  lemma FixedLines()
    ensures IsLine("EOM Capabilities:\n") && IsLine("\n")
  {
  }

  lemma HeaderLinesAreLines(h: Header)
    requires OneLine(NameText(h.names))
    ensures forall line | line in HeaderLines(h) :: IsLine(line)
  {
    hide IsLine, SideLine, InquiryLine, GearLine, TimingLine, VoltageLine, NameText;
    SideIsLine(h.side);
    InquiryIsLine(h.names);
    GearIsLine(h.gear, h.rate);
    CapsAreLines(h);
    FixedLines();
  }

  lemma {:induction false} ResultLinesAreLines(results: seq<EomResult>)
    ensures forall line | line in ResultLines(results) :: IsLine(line)
  {
    hide IsLine, ResultLine;
    if results != [] {
      ResultLinesAreLines(results[..|results| - 1]);
      ResultLineIsLine(results[|results| - 1]);
    }
  }

  /** The lines of the text are the lines that were printed. */
  lemma LinesOfReport(h: Header, results: seq<EomResult>)
    requires OneLine(NameText(h.names))
    ensures ReadLines(ReportText(h, results)) == Lines(h, results)
  {
    HeaderLinesAreLines(h);
    ResultLinesAreLines(results);
    hide HeaderLines, ResultLines, IsLine, ReadLines, Concat;
    ReadLinesConcat(Lines(h, results));
  }

  /** The round trip on the text of the report: printing and then reading back gives sides,
      limits, gear and both dictionaries, exactly when the header is readable. */
  lemma ReportRoundTrip(h: Header, results: seq<EomResult>)
    requires h.gear >= 4 && OneLine(NameText(h.names)) && forall r | r in results :: r.lane <= 1
    ensures
      var st := ParseLines(INITIAL, ReadLines(ReportText(h, results)));
      && (Good(st) <==> ReadableHeader(h))
      && (ReadableHeader(h) ==> st == ReportState(h, results))
  {
    hide ReportText, Lines, ReadableHeader, ParseLines, ReadLines;
    LinesOfReport(h, results);
    ReportParses(h, results);
  }

  // ----- What the dictionaries mean -----

  /** A dictionary entry is a result of that lane. */
  lemma {:induction false} EntryIsResult(results: seq<EomResult>, lane: nat, k: Key)
    requires k in LaneMap(results, lane)
    ensures EomResult(lane, k.timing, k.volt, LaneMap(results, lane)[k]) in results
  {
    var before, r := results[..|results| - 1], results[|results| - 1];
    assert r in results && forall q | q in before :: q in results;
    if !(r.lane == lane && Key(r.timing, r.volt) == k) {
      EntryIsResult(before, lane, k);
    }
  }

  /** If no point was recorded twice, every result is a dictionary entry. */
  lemma {:induction false} ResultIsEntry(results: seq<EomResult>, r: EomResult)
    requires r in results
    requires forall i, j | 0 <= i < j < |results| :: CellOf(results[i]) != CellOf(results[j])
    ensures
      var k := Key(r.timing, r.volt);
      k in LaneMap(results, r.lane) && LaneMap(results, r.lane)[k] == r.errorCnt
  {
    var before, last := results[..|results| - 1], results[|results| - 1];
    if last != r {
      assert r in before;
      var i :| 0 <= i < |before| && before[i] == r;
      assert CellOf(results[i]) != CellOf(last);
      ResultIsEntry(before, r);
    }
  }
}
