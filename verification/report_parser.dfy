/** How the plotter reads a report, line by line. */
module ReportParser {
  import opened Wrappers
  import opened Decimal
  import opened Text

  /** Crashed: an uncaught exception. Unsupported: a gear below 4. Quit: a lane other than 0 or 1. */
  datatype Status = Running | Crashed | Unsupported | Quit

  /** A grid point of one lane. */
  datatype Key = Key(timing: int, volt: int)

  datatype ParseState = ParseState(
    status: Status,
    timingMaxSteps: int, timingMaxOffset: int, timingStep: real,
    voltageMaxSteps: int, voltageMaxOffset: int, voltageStep: real,
    laneList: seq<int>, lane0: map<Key, int>, lane1: map<Key, int>,
    badDataCount: nat, gear: int,
    versionNo: string, mfrName: string, mfrId: string, deviceSize: string, ufsGear: string, side: string)

  const INITIAL: ParseState :=
    ParseState(Running, 0, 0, 0.0, 0, 0, 0.0, [], map[], map[], 0, 0, "", "", "", "", "", "")

  /** The dictionary key of a grid point, as the plotter formats it. */
  function KeyText(k: Key): string {
    "t#" + PrintInt(k.timing) + "#v#" + PrintInt(k.volt)
  }

  /** Different points have different keys, so the dictionaries may be indexed by the points. */
  lemma KeyTextInjective(a: Key, b: Key)
    ensures KeyText(a) == KeyText(b) <==> a == b
  {
    if KeyText(a) == KeyText(b) {
      var s, t := PrintInt(a.timing), PrintInt(b.timing);
      var u, v := PrintInt(a.volt), PrintInt(b.volt);
      PrintIntChars(a.timing);
      PrintIntChars(b.timing);
      assert KeyText(a) == "t#" + (s + ['#'] + ("v#" + u));
      assert KeyText(b) == "t#" + (t + ['#'] + ("v#" + v));
      assert KeyText(a)[2..] == s + ['#'] + ("v#" + u) && KeyText(b)[2..] == t + ['#'] + ("v#" + v);
      SameUpToMark(s, "v#" + u, t, "v#" + v, '#');
      assert ("v#" + u)[2..] == u && ("v#" + v)[2..] == v;
      NumberRoundTrip(a.timing);
      NumberRoundTrip(b.timing);
      NumberRoundTrip(a.volt);
      NumberRoundTrip(b.volt);
    }
  }

  lemma SameUpToMark(s: string, x: string, t: string, y: string, mark: char)
    requires mark !in s && mark !in t && s + [mark] + x == t + [mark] + y
    ensures s == t && x == y
  {
    var whole := s + [mark] + x;
    assert whole[|s|] == mark && whole[|t|] == mark;
    assert forall k | 0 <= k < |s| :: whole[k] == s[k] && s[k] in s;
    assert forall k | 0 <= k < |t| :: whole[k] == t[k] && t[k] in t;
    assert |s| == |t|;
    assert whole[..|s|] == s && whole[..|s|] == t;
    assert whole[|s| + 1..] == x && whole[|s| + 1..] == y;
  }

  // ----- The header lines -----

  /** No line takes back an exception, a refusal or a bad line before it. */
  predicate Keeps(st: ParseState, r: ParseState) {
    r.badDataCount >= st.badDataCount && (st.status != Running ==> r.status == st.status)
  }

  predicate Both(line: string, a: string, b: string) {
    Contains(line, a) && Contains(line, b)
  }

  function TimingPart(st: ParseState, line: string): (r: ParseState)
    ensures Keeps(st, r) && r.laneList == st.laneList
  {
    var w := Split(line);
    if st.status != Running || !Both(line, "TimingMaxSteps", "TimingMaxOffset") then st
    else if |w| <= 3 || w[0] != "TimingMaxSteps" || w[2] != "TimingMaxOffset" then st.(status := Crashed)
    else
      var steps, offset := StringToNumber(w[1]), StringToNumber(w[3]);
      if steps == None || offset == None || steps.value == 0 then st.(status := Crashed)
      else st.(timingMaxSteps := steps.value, timingMaxOffset := offset.value,
               timingStep := TimingStep(steps.value, offset.value))
  }

  function TimingStep(steps: int, offset: int): real
    requires steps != 0
  {
    (offset as real * 0.01) / steps as real
  }

  function VoltagePart(st: ParseState, line: string): (r: ParseState)
    ensures Keeps(st, r) && r.laneList == st.laneList
  {
    var w := Split(line);
    if st.status != Running || !Both(line, "VoltageMaxSteps", "VoltageMaxOffset") then st
    else if |w| <= 3 || w[0] != "VoltageMaxSteps" || w[2] != "VoltageMaxOffset" then st.(status := Crashed)
    else
      var steps, offset := StringToNumber(w[1]), StringToNumber(w[3]);
      if steps == None || offset == None || steps.value == 0 then st.(status := Crashed)
      else st.(voltageMaxSteps := steps.value, voltageMaxOffset := offset.value,
               voltageStep := VoltageStep(steps.value, offset.value))
  }

  function VoltageStep(steps: int, offset: int): real
    requires steps != 0
  {
    (offset as real * 10.0) / steps as real
  }

  /** w[i] == heading[0] and w[i+1] == heading[1] and ..., from left to right; None is an IndexError. */
  function Matches(w: seq<string>, i: nat, heading: seq<string>): Option<bool>
    decreases |heading|
  {
    if heading == [] then Some(true)
    else if i >= |w| then None
    else if w[i] != heading[0] then Some(false)
    else Matches(w, i + 1, heading[1..])
  }

  /** A line that carries a keyword and has the heading from word 4 on must have `needed` words;
      None is an exception, Some(false) means that the line is of another kind. */
  function Labelled(line: string, keyword: string, heading: seq<string>, needed: nat): Option<bool> {
    if !Contains(line, keyword) then Some(false)
    else match Matches(Split(line), 4, heading)
      case None => None
      case Some(false) => Some(false)
      case Some(true) => if |Split(line)| < needed then None else Some(true)
  }

  function VersionPart(st: ParseState, line: string): (r: ParseState)
    ensures Keeps(st, r) && r.laneList == st.laneList
  {
    if st.status != Running then st
    else match Labelled(line, "UFS Spec Version:", ["UFS", "Spec", "Version:"], 8)
      case None => st.(status := Crashed)
      case Some(found) => if found then st.(versionNo := "UFS" + Split(line)[7]) else st
  }

  function InquiryPart(st: ParseState, line: string): (r: ParseState)
    ensures Keeps(st, r) && r.laneList == st.laneList
  {
    if st.status != Running then st
    else match Labelled(line, "UFS INQUIRY ID:", ["UFS", "INQUIRY", "ID:"], 9)
      case None => st.(status := Crashed)
      case Some(found) => if found then st.(mfrName := Split(line)[7], mfrId := Split(line)[8]) else st
  }

  function SizePart(st: ParseState, line: string): (r: ParseState)
    ensures Keeps(st, r) && r.laneList == st.laneList
  {
    if st.status != Running then st
    else match Labelled(line, "UFS Total Size:", ["UFS", "Total", "Size:"], 9)
      case None => st.(status := Crashed)
      case Some(found) => if found then st.(deviceSize := Split(line)[7] + Split(line)[8]) else st
  }

  function GearPart(st: ParseState, line: string): (r: ParseState)
    ensures Keeps(st, r) && r.laneList == st.laneList
  {
    if st.status != Running then st
    else match Labelled(line, "UFS Gear Speed:", ["UFS", "Gear", "Speed:"], 9)
      case None => st.(status := Crashed)
      case Some(found) => if found then st.(ufsGear := Split(line)[7] + " " + Split(line)[8]) else st
  }

  function SidePart(st: ParseState, line: string): (r: ParseState)
    ensures Keeps(st, r) && r.laneList == st.laneList
  {
    var w := Split(line);
    if st.status != Running || !Contains(line, "Side Eye Monitor Start") then st
    else match Matches(w, 0, ["UFS"])
      case None => st.(status := Crashed)
      case Some(false) => st
      case Some(true) =>
        match Matches(w, 2, ["Side", "Eye", "Monitor", "Start"])
        case None => st.(status := Crashed)
        case Some(found) => if found then st.(side := w[1]) else st
  }

  // ----- The data lines -----

  function DigitRun(s: string): string {
    if s == "" || !IsDigit(s[0]) then "" else [s[0]] + DigitRun(s[1..])
  }

  lemma DigitRunDigits(s: string)
    ensures AllDigits(DigitRun(s))
  {
  }

  /** re.search of digits preceded by HS-G, from position i on. */
  function GearFrom(s: string, i: nat): Option<nat>
    decreases |s| - i
  {
    if i >= |s| then None
    else if i >= 4 && s[i - 4..i] == "HS-G" && IsDigit(s[i]) then
      DigitRunDigits(s[i..]);
      Some(ValueOf(DigitRun(s[i..])))
    else GearFrom(s, i + 1)
  }

  /** The line is taken for data unless all five labels differ. */
  predicate TakenForData(w: seq<string>) {
    |w| > 7 && !(w[0] != "lane" && w[2] != "timing" && w[4] != "voltage" && w[6] != "error" && w[7] != "count")
  }

  datatype Data = Data(lane: int, timing: int, volt: int, errorCount: int, gear: nat)

  /** The try block; None is any exception in it. */
  function ReadData(w: seq<string>, ufsGear: string): Option<Data>
    requires |w| > 7
  {
    if |w| == 8 then None
    else
      match (PyInt(w[1]), StringToNumber(w[3]), StringToNumber(w[5]), StringToNumber(w[8]), GearFrom(ufsGear, 0))
      case (Some(l), Some(t), Some(v), Some(e), Some(g)) => Some(Data(l, t, v, e, g))
      case _ => None
  }

  function WithLane(lanes: seq<int>, lane: int): seq<int> {
    if lane in lanes then lanes else lanes + [lane]
  }

  /** Enters one cell, unless the gear is not supported or the lane is unknown. */
  function Stored(st: ParseState, d: Data): (r: ParseState)
    requires st.status == Running
    ensures Keeps(st, r) && r.laneList == st.laneList
  {
    var read := st.(gear := d.gear);
    if d.gear < 4 then read.(status := Unsupported)
    else if d.lane == 0 then read.(lane0 := st.lane0[Key(d.timing, d.volt) := d.errorCount])
    else if d.lane == 1 then read.(lane1 := st.lane1[Key(d.timing, d.volt) := d.errorCount])
    else read.(status := Quit)
  }

  function DataPart(st: ParseState, line: string): (r: ParseState)
    ensures Keeps(st, r)
  {
    var w := Split(line);
    if st.status != Running || !TakenForData(w) then st
    else
      var listed := if PyInt(w[1]).Some? then st.(laneList := WithLane(st.laneList, PyInt(w[1]).value)) else st;
      match ReadData(w, st.ufsGear)
      case None => listed.(badDataCount := st.badDataCount + 1)
      case Some(d) => Stored(listed, d)
  }

  const LABELS: seq<(nat, string)> := [(0, "lane"), (2, "timing"), (4, "voltage"), (6, "error"), (7, "count")]

  /** One of the five labels stands at its place. */
  predicate HasLabel(w: seq<string>) {
    |w| > 7 && exists i | 0 <= i < |LABELS| :: LABELS[i].0 < |w| && w[LABELS[i].0] == LABELS[i].1
  }

  /** A single label is enough for a line to be taken for data; a line without any, or of fewer than eight
      words, is passed over. */
  lemma OneLabelSuffices(w: seq<string>)
    ensures TakenForData(w) <==> HasLabel(w)
  {
    if TakenForData(w) {
      assert w[LABELS[0].0] == LABELS[0].1 || w[LABELS[1].0] == LABELS[1].1 || w[LABELS[2].0] == LABELS[2].1
        || w[LABELS[3].0] == LABELS[3].1 || w[LABELS[4].0] == LABELS[4].1;
    }
  }

  /** A line that is taken for data is a bad line unless its lane is an integer, its timing, voltage and
      count are numbers up to a comma, and the gear is known; a line that is passed over changes
      nothing. */
  lemma BadExactly(st: ParseState, line: string)
    requires st.status == Running
    ensures !HasLabel(Split(line)) ==> DataPart(st, line) == st
    ensures HasLabel(Split(line)) ==>
      var w, after := Split(line), DataPart(st, line);
      if |w| > 8 && PyInt(w[1]).Some? && StringToNumber(w[3]).Some? && StringToNumber(w[5]).Some?
         && StringToNumber(w[8]).Some? && GearFrom(st.ufsGear, 0).Some?
      then after.badDataCount == st.badDataCount
      else after.badDataCount == st.badDataCount + 1 && after.status == Running
  {
    OneLabelSuffices(Split(line));
    hide Split, PyInt, StringToNumber, GearFrom, HasLabel;
  }

  // ----- The whole file -----

  function HeaderPart(st: ParseState, line: string): (r: ParseState)
    ensures Keeps(st, r) && r.laneList == st.laneList
  {
    SidePart(GearPart(SizePart(InquiryPart(VersionPart(VoltagePart(TimingPart(st, line), line), line), line), line), line), line)
  }

  function ParseLine(st: ParseState, line: string): (r: ParseState)
    ensures Keeps(st, r)
  {
    DataPart(HeaderPart(st, line), line)
  }

  function ParseLines(st: ParseState, lines: seq<string>): ParseState {
    if lines == [] then st else ParseLine(ParseLines(st, lines[..|lines| - 1]), lines[|lines| - 1])
  }

  /** The file was read without an exception, a refusal or a bad line. */
  predicate Good(st: ParseState) {
    st.status == Running && st.badDataCount == 0
  }

  lemma {:induction false} ParseLinesAppend(st: ParseState, a: seq<string>, b: seq<string>)
    ensures ParseLines(st, a + b) == ParseLines(ParseLines(st, a), b)
    decreases |b|
  {
    hide ParseLine;
    if b == [] {
      assert a + b == a;
    } else {
      var n := |b| - 1;
      ParseLinesAppend(st, a, b[..n]);
      assert (a + b)[..|a| + n] == a + b[..n];
    }
  }

  /** Once bad, always bad. */
  lemma {:induction false} BadStays(st: ParseState, lines: seq<string>)
    requires !Good(st)
    ensures !Good(ParseLines(st, lines))
  {
    hide ParseLine;
    if lines != [] {
      BadStays(st, lines[..|lines| - 1]);
    }
  }
}
