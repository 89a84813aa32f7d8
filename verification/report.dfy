/** The report `ufseom` writes. */
module Report {
  import opened Uic
  import opened EomTrace
  import opened Decimal
  import opened Text

  const PA_HS_MODE_A: int := 1

  /** Manufacturer, product and revision, as the string descriptors gave them. */
  datatype DeviceNames = DeviceNames(manufacturer: string, product: string, revision: string)

  datatype Header = Header(
    side: Side, names: DeviceNames, gear: int, rate: int,
    timingMaxSteps: int, timingMaxOffset: int, voltageMaxSteps: int, voltageMaxOffset: int)

  function SideName(side: Side): string {
    if side == Peer then "Device" else "Host"
  }

  function RateName(rate: int): string {
    if rate == PA_HS_MODE_A then "A" else "B"
  }

  function NameText(n: DeviceNames): string {
    n.manufacturer + " " + n.product + " " + n.revision
  }

  function SideLine(side: Side): string {
    "UFS " + SideName(side) + " Side Eye Monitor Start\n"
  }

  function InquiryLine(n: DeviceNames): string {
    "- - - - UFS INQUIRY ID: " + NameText(n) + "\n"
  }

  function GearLine(gear: int, rate: int): string {
    "- - - - UFS Gear Speed: HS-G" + PrintInt(gear) + " Rate-" + RateName(rate) + "\n"
  }

  function TimingLine(h: Header): string {
    "TimingMaxSteps " + PrintInt(h.timingMaxSteps) + " TimingMaxOffset " + PrintInt(h.timingMaxOffset) + "\n"
  }

  function VoltageLine(h: Header): string {
    "VoltageMaxSteps " + PrintInt(h.voltageMaxSteps) + " VoltageMaxOffset " + PrintInt(h.voltageMaxOffset) + "\n"
  }

  function ResultLine(r: EomResult): string {
    "lane: " + PrintInt(r.lane) + " timing: " + PrintInt(r.timing) + " voltage: " + PrintInt(r.volt)
    + " error count: " + PrintInt(r.errorCnt) + "\n"
  }

  function HeaderLines(h: Header): seq<string> {
    [SideLine(h.side), InquiryLine(h.names), GearLine(h.gear, h.rate), "EOM Capabilities:\n",
     TimingLine(h), VoltageLine(h), "\n"]
  }

  function ResultLines(results: seq<EomResult>): seq<string> {
    if results == [] then [] else ResultLines(results[..|results| - 1]) + [ResultLine(results[|results| - 1])]
  }

  function Lines(h: Header, results: seq<EomResult>): seq<string> {
    HeaderLines(h) + ResultLines(results)
  }

  function ReportText(h: Header, results: seq<EomResult>): string {
    Concat(Lines(h, results))
  }

  /** A result line is its nine words with single spaces between them. */
  function ResultWords(r: EomResult): seq<string> {
    ["lane:", PrintInt(r.lane), "timing:", PrintInt(r.timing), "voltage:", PrintInt(r.volt),
     "error", "count:", PrintInt(r.errorCnt)]
  }

  lemma JoinPair(a: string, b: string, rest: seq<string>)
    requires rest != []
    ensures Join([a, b] + rest) == a + " " + b + " " + Join(rest)
  {
  }

  lemma JoinOne(a: string, rest: seq<string>)
    requires rest != []
    ensures Join([a] + rest) == a + " " + Join(rest)
  {
  }

  lemma JoinLast(a: string, b: string, c: string)
    ensures Join([a, b, c]) == a + " " + b + " " + c
  {
    assert [a, b, c][1..] == [b, c] && [b, c][1..] == [c];
    assert Join([c]) == c;
    assert Join([b, c]) == b + " " + c;
  }

  lemma ResultLineWords(r: EomResult)
    ensures ResultLine(r) == Join(ResultWords(r)) + "\n"
  {
    hide Join, PrintInt;
    var l, t, v, e := PrintInt(r.lane), PrintInt(r.timing), PrintInt(r.volt), PrintInt(r.errorCnt);
    var counts := ["error", "count:", e];
    var volts := ["voltage:", v] + counts;
    var timings := ["timing:", t] + volts;
    JoinLast("error", "count:", e);
    JoinPair("voltage:", v, counts);
    JoinPair("timing:", t, volts);
    JoinPair("lane:", l, timings);
    assert ResultWords(r) == ["lane:", l] + timings;
    var tail := Join(counts);
    assert tail == "error count: " + e;
    assert " voltage: " + v + " error count: " + e == " " + Join(volts);
    assert " timing: " + t + (" " + Join(volts)) == " " + Join(timings);
    LineAssembled(l, t, v, e);
  }

  lemma LineAssembled(l: string, t: string, v: string, e: string)
    ensures "lane: " + l + " timing: " + t + " voltage: " + v + " error count: " + e + "\n"
      == "lane: " + l + (" timing: " + t + (" voltage: " + v + " error count: " + e)) + "\n"
  {
  }

  /** Printing one more result appends its line. */
  lemma ReportGrows(h: Header, results: seq<EomResult>, r: EomResult)
    ensures ReportText(h, results + [r]) == ReportText(h, results) + ResultLine(r)
  {
    assert (results + [r])[..|results|] == results;
    assert Lines(h, results + [r]) == Lines(h, results) + [ResultLine(r)];
    ConcatAppend(Lines(h, results), [ResultLine(r)]);
    ConcatOne(ResultLine(r));
  }

  /** Printing the header line by line. */
  lemma HeaderGrows(h: Header, k: nat)
    requires k < |HeaderLines(h)|
    ensures Concat(HeaderLines(h)[..k + 1]) == Concat(HeaderLines(h)[..k]) + HeaderLines(h)[k]
  {
    var lines := HeaderLines(h);
    hide Concat;
    assert lines[..k + 1] == lines[..k] + [lines[k]];
    ConcatAppend(lines[..k], [lines[k]]);
    ConcatOne(lines[k]);
  }

  lemma ConcatOne(line: string)
    ensures Concat([line]) == line
  {
  }
}
