# UFS eye monitoring, from the registers to the verdict

This project models the eye-opening-monitor (EOM) tools for UFS devices and proves what they promise.
A driver programs a monitor in the receiver over UIC commands, measures every point of a lane x timing x
voltage grid, and writes a text report. A plotter reads the report back, finds the centre of the eye and
decides PASS or FAIL. To verify: `dafny verify dfyconfig.toml`.

The headline (`Pipeline.ReportSoundness`, and `Pipeline.MeasureAndPlot` for the two programs run one after
the other): when the plotter passes the report of a complete sweep, then for every swept lane whose eye centre
was found, every grid cell inside the mask was measured by one uninterrupted group of commands that set the
monitor to exactly that step, ran to the full test count and counted no error. It holds for any mask test and any
coordinates, so for whatever the plotter's floating point makes of them. `Pipeline.PassExactly` gives
both directions. What PASS does not mean is settled as well: `Pipeline.NoCenterInReport` says of the recorded
results exactly when nothing is checked. The step registers have six bits for the magnitude, so the headline is
about hardware limits of at most 63 steps; beyond them a register does not hold the step asked for
(`EomTrace.DecodesWhenFits`).

`Pipeline.ReportOutcome` settles every report of `ufseom`: from its header and results alone, whether plotting it
raises, exits, is refused, gives no verdict, passes or fails. For reports of `ufs-eom.py` that is
`PyReport.PyReportHasNoVerdict`, and there one promise of the repository fails. Its README.md:22 says that such a report
can be fed into the plotter. No such report with a result in it ever gets a verdict, because it names no gear.

## The parts

| file | what it models |
|---|---|
| `pattern_generator.dfy` | the random pattern of the I/O stress, a generator modulo 2^64 |
| `uic.dfy` | UIC command words, a device that executes them, `uic_get` and `uic_set` |
| `grid.dfy` | the grid and the order in which it is swept |
| `eom_trace.dfy` | the commands of a measurement and of a whole run, and what they leave in the registers |
| `ufs_eom.dfy` | the C program `ufseom`: one point, the sweep, the report |
| `py_trace.dfy`, `ufs_eom_py.dfy` | the Python program `ufs-eom.py` on any device, and that both programs record the same |
| `text.dfy`, `report.dfy`, `report_parser.dfy`, `round_trip.dfy` | printing the report and reading it back |
| `verdict.dfy`, `plot.dfy` | the plotter: fill, check, eye centre, mask, verdict, labels |
| `exact.dfy`, `mask.dfy` | the plotter's coordinates and its mask in exact arithmetic: when two cells are drawn at the same place, and that the mask tested is the diamond drawn |
| `pipeline.dfy` | device, report and verdict together |
| `py_report.dfy` | the report of `ufs-eom.py` in the plotter |
| `query.dfy`, `descriptor.dfy`, `string_descriptor.dfy` | query requests, the descriptor walk, the device's names |

## The device

`Uic.UfsDevice` stands for host and device behind the ioctl. Any command may fail, with any error, and a SET
that is reported as failed may have taken effect all the same. While a measurement is under way the status and
count registers may read as anything. The device makes one promise, progress: a successful poll uses up work,
and when no work is left the link is up, Start is clear, and either the test count has reached the target then
programmed or at least 60 errors were counted. A monitor that has stopped keeps its counts until PA_PWRMODE is
written again. The polling loops of the C program and its whole sweep terminate because of that promise.
`ufs-eom.py` does not look at failed writes, so its loop ends by itself only under the condition
`UfsEomPy.Driver.Ends`; otherwise the user may have to interrupt it, after `patience` rounds. A `faithful` device
never fails and shows counts that depend on the programmed registers only; it is what the two drivers are compared
on. The device behind the query requests (`Query.QueryDevice`) may fail in the same way, refuses to write its
read-only attributes, to read what it does not have, and an opcode with the wrong function.

Machine words are bounded integers with explicit wrap-around; bit fields are written with division and remainder.
The plotter's coordinates and its mask test are parameters: whatever its floating point makes of limits, steps and the
mask's inequality, they are functions of these. The results about the middle row ask no more of them than that columns
are monotone and that moving towards the centre column does not leave the mask. `Exact.ExactX`, `Exact.ExactY` and
`Verdict.InEyeMask` are the ones of exact arithmetic, with rounding half to even (`Exact.RoundsToNearest`,
`EyeMask.MaskIsDiamond`).

## Where the code is not what it seems

The model follows the code. These are the places where that matters.

- The plotter means to skip lines that lack a label, but its `and` chain takes a line for data unless all five
  labels differ (scripts/ufs-eom-plot.py:138). The lines `ufseom` writes carry `lane:` and not `lane`; they are
  taken for data only because their seventh word is `error`.
- `validate_data` leaves out the last timing column (scripts/ufs-eom-plot.py:273): `Plot.NoGapExactly`,
  `Plot.LastColumnUnchecked`.
- Without an eye centre nothing is checked and the lane passes (scripts/ufs-eom-plot.py:417-418):
  `Pipeline.NoCenterInReport`, with the inputs `Pipeline.SkippedMiddlePasses`, `Pipeline.NarrowSweepPasses` and
  `Pipeline.FullCountPasses`.
- The flag for skipped cells is set and never cleared (scripts/ufs-eom-plot.py:424), so one unscanned cell in a mask
  takes the label from the pictures of all later lanes and files: `Plot.NoLabelAfterSkip`.
- 999 marks a missing cell, so a recorded count of 999 reads as one.
- The pivot that lays out the picture raises when two cells have the same rounded coordinates
  (scripts/ufs-eom-plot.py:387-388): `Plot.ListsCollide`. In exact arithmetic that is the case exactly for more than 100
  timing steps or 1000 voltage steps for each unit of the offset: `Exact.CollidesExactly`, with the input
  `Pipeline.CoarseOffsetRaises`.
- A report of `ufs-eom.py` has no gear line, so each of its results counts as a bad line
  (scripts/ufs-eom-plot.py:148-153): `PyReport.VerdictWithoutGear`.
- A single voltage of 255 means "not given" to the C program (ufs-cli/ufs_eom.c:610-614), and only to it:
  `UfsEomPy.RunBoth`.
- `uic_set` reports an error for a value that was written if it reads as -2 when taken for an int
  (ufs-cli/uic.c:205, 273).
- `ufs-eom.py` ignores failed writes. A lost write may leave its loop polling for ever
  (`UfsEomPy.Driver.KeepPolling`, `UfsEomPy.LowTargetMayStick`, with the input `UfsEomPy.PollsForEver`) or record
  counts of another measurement (`PyTrace.BackedExactly`, `PyTrace.LostWriteShows`).
- `ufs-eom.py` does not check that it could read the limits. Without one it switches the first lane's monitor on before
  it raises (scripts/ufs-eom.py:207-214): `UfsEomPy.EomProgram`.
- `send_query_command` narrows the response to eight bits before it shifts it by eight (ufs-cli/query.c:243-244),
  so a refused query looks like a successful one: `Query.RefusalLooksLikeSuccess`,
  `Query.RefusedWriteLooksLikeSuccess`.
- An opcode that does not fit into its byte is sent with the function of the number given, not of the byte sent
  (ufs-cli/query.c:222-231): `Query.FunctionFitsExactly`.

## Model

The main results come first, then the members behind them, file by file.

| member | source | states |
|---|---|---|
| Pipeline.ReportSoundness | scripts/ufs-eom-plot.py:237-245 | for any coordinates and any mask test: a passed report of a complete sweep has a header that can be read, and every mask that was looked at was measured clean |
| Pipeline.MeasureAndPlot | ufs-cli/ufs_eom.c:669-870 | the same for `ufseom` and the plotter run one after the other on any device |
| Pipeline.PassExactly | scripts/ufs-eom-plot.py:417-424 | a lane passes exactly when it has no centre or every cell of the mask was recorded with zero errors |
| Pipeline.PassSoundness | scripts/ufs-eom-plot.py:417-424 | PASS of a lane with a centre: every cell of the mask lies in the swept window and was measured clean on the device |
| Pipeline.NoCenterInReport | scripts/ufs-eom-plot.py:297-340 | nothing is checked exactly when, in one direction, a zero-voltage column that was not recorded, or recorded as 999, comes before any column with errors |
| Pipeline.PassRowInRun | scripts/ufs-eom-plot.py:417-422 | on a report, for any monotone columns and any convex mask, the zero-voltage columns of the mask lie between the two boundaries |
| Pipeline.ReportOutcome | scripts/ufs-eom-plot.py:102-245 | the outcome of plotting any report of `ufseom`, for every gear, from header and results alone: raises, no verdict, refused below gear 4, exits on a third lane or an offset of zero, otherwise PASS exactly when every lane that occurs passes |
| Pipeline.ExactPlotDecides | scripts/ufs-eom-plot.py:168-245 | with exact coordinates plotting the report of a complete sweep exits exactly for an offset of zero, raises exactly for more than 100 timing or 1000 voltage steps a unit of the other offsets, and otherwise judges exactly the swept lanes |
| PyReport.PyReportHasNoVerdict | README.md:22 | false as promised: the exact outcome of a report of `ufs-eom.py` from names, limits and results; with any result in it, it raises if names or limits cannot be read and otherwise has no verdict, whatever was measured; without results it passes exactly when names and limits can be read and the offsets are not zero |
| PyReport.MeasureAndPlot | README.md:22 | `ufs-eom.py` and the plotter run one after the other: that outcome, and no picture on anything recorded, on any device; one that does not fail always records something |
| RoundTrip.ReportRoundTrip | ufs-cli/ufs_eom.c:426-435 | on the text of the report: the plotter reads back everything the driver printed, exactly when the header can be read, for all names that do not break their line |
| UfsEom.Monitor.Sweep | ufs-cli/ufs_eom.c:834-852 | whatever happens the array holds a measured prefix of the grid; on success it is full and the trace is a complete run; a device that does not fail, with no file I/O asked for, makes it succeed with the counts it shows |
| UfsEom.Monitor.Run | ufs-cli/ufs_eom.c:669-870 | a report comes out only of a complete sweep over the range asked for; its header holds gear, rate and limits as the registers held them, and it prints what was measured, with file I/O under at least one transfer a point; a device that does not fail, with no file I/O asked for, gives one exactly when it offers the sweep and memory, names and file are there |
| UfsEom.CanSweepExactly | ufs-cli/ufs_eom.c:689-813 | what offering the sweep takes of the registers: the lowest capability bit, gear 4 or more, a rate and four limits that can be read, and a range with at least one point, all within what the hardware can be set to |
| UfsEomPy.RunBoth | scripts/ufs-eom.py:182-226 | both programs run on one device that does not fail, asked for the same sweep: with a link that is ready and limits that can be read the C program succeeds exactly when the Python program gets to its sweep, unless the single voltage is 255, and they record the same results in the same order, exactly unless it is 255 |
| UfsEomPy.Driver.EomScan | scripts/ufs-eom.py:228-259 | on any device: the loop ends by itself if the power mode write succeeded and the target register holds at least the target, and the user need not interrupt it unless one of the six writes was lost; at most one result is recorded, out of the last three reads; a device that does not fail gives the counts it shows |
| UfsEomPy.Driver.RecordedStems | scripts/ufs-eom.py:200-226 | on any device, however far the sweep got: the report has one line for each result, and each result stems from an attempt of its point, which measures it exactly when none of its six writes was lost |
| PatternGenerator.GeometricDivides | ufs-cli/ufs_eom.c:138 | for a multiplier that is 1 modulo 4, 2^k divides 1 + a + ... + a^(n-1) exactly when 2^k divides n |
| PatternGenerator.LeastPeriod | ufs-cli/ufs_eom.c:134-142 | for k up to 64 the low k bits return after n calls exactly when 2^k divides n |
| PatternGenerator.EveryValueOnce | ufs-cli/ufs_eom.c:134-142 | in any 2^63 successive calls every 63-bit value is returned once and only once |
| PatternGenerator.PopulateDataPattern | ufs-cli/ufs_eom.c:144-156 | word i of the buffer is the low half of the (i+1)-th result, and no word occurs twice, for every seed |
| PatternGenerator.BuffersDifferEverywhere | ufs-cli/ufs_eom.c:148-155 | buffers filled from two different results of rand() differ in every word |
| EomTrace.CompleteRunRecordsGrid | ufs-cli/ufs_eom.c:835-852 | a complete run records exactly the grid, in sweep order, every entry measured, every lane switched off |
| EomTrace.FewErrorsOverFullTest | ufs-cli/ufs_eom.c:385-401 | a result of fewer than 60 errors within -63..63 was counted over the full test count, with enable, both steps, target and NO_ADAPT set to exactly that point and the power mode change last |
| Verdict.BoundaryExact | scripts/ufs-eom-plot.py:284-308 | the search returns the far end of the maximal error-free run, or 0 if the middle has errors, and nothing exactly when it meets a missing cell before any error |
| Verdict.PassInsideRun | scripts/ufs-eom-plot.py:417-422 | for any monotone columns and any convex mask, PASS puts every zero-voltage column of the mask into the error-free run |
| EyeMask.TestedIsDrawn | scripts/ufs-eom-plot.py:342-351 | in exact arithmetic the mask that is tested is the polygon that is drawn: a point passes the test exactly when it is a convex combination of the drawn corners |
| Plot.EyeMonitorPlot.OpenFile | scripts/ufs-eom-plot.py:47-245 | the outcome is a function of the text alone: raised (also when two cells are drawn at the same place), exited, no verdict, or PASS exactly when every lane passes; a picture is labelled exactly when its lane has a centre and no mask so far, of any lane or file, had a cell without data |
| Uic.SetThenGet | ufs-cli/uic.c:211-274 | SET then GET through the packed words gives the value back exactly when its top bit is clear, and changes no other register |
| Query.WriteThenRead | ufs-cli/query.c:330-335 | an attribute written through the overlay is read back with all 64 bits unless it is read-only, and no other attribute changes |
| Query.DoQueryWriteAttribute | ufs-cli/query.c:340-357 | exactly one I/O, with the composed bytes, whose result is the result: success is reported exactly when the I/O works, and then the device holds the value exactly when the attribute is not read-only or held it before |
| Descriptor.TranslateDeviceDescriptor | ufs-cli/query.c:282-283 | for every buffer and length, exactly the device descriptor's fields that fit are printed |
| PatternGenerator.FastRand64 | ufs-cli/ufs_eom.c:134-142 | advances the seed in place by one step of the generator and returns it without its top bit |
| PatternGenerator.LowBitsRepeat | ufs-cli/ufs_eom.c:134-142 | two calls agree in their low k bits exactly when they are a multiple of 2^k calls apart |
| PatternGenerator.WordsDiffer | ufs-cli/ufs_eom.c:151-155 | fewer than 2^32 calls apart, two words of the pattern differ |
| PatternGenerator.RunsStayApart | ufs-cli/ufs_eom.c:134-142 | two runs in step agree in their low k bits exactly when their seeds did |
| Uic.RequestTargets | ufs-cli/uic.h:14-21 | the packed words name the side, selector and attribute they were packed from |
| Uic.PackingInjective | ufs-cli/uic.h:14 | packed words are equal exactly when attribute and selector are, for 16-bit values |
| Uic.LanesDoNotCollide | ufs-cli/uic.h:20-21 | no receiver register of lanes 0..3 shares its packed word with a transmitter register |
| Uic.LaneSelectors | ufs-cli/uic.h:20-21 | the four lanes of a side are, in order, the selectors 0..3 for transmitters and 4..7 for receivers |
| Uic.SetTypeField | ufs-cli/uic.h:17 | the set type stands in its own byte of argument 2, and a reply that echoes the request reports success |
| Uic.UfsDevice.Io | ufs-cli/ufs_bsg.c:13-49 | the device: a SET that succeeds stores its value, one that fails may have stored it or not; a GET loads a value and changes only volatile registers; the counts of a stopped monitor stay until PA_PWRMODE is written |
| Uic.SendUicCommand | ufs-cli/uic.c:188-209 | an error exactly when the command failed, otherwise argument 3 as a signed int; one event is added to the trace |
| Uic.UicGet | ufs-cli/uic.c:211-226 | reads the register the packed word names, and agrees with the plain register file on a register the device does not change by itself |
| Uic.UicSet | ufs-cli/uic.c:253-274 | writes the register the packed word names; the result is an error if the command failed or the value reads as -2 |
| Uic.SetRegister | ufs-cli/ufs_eom.c:246-251 | uic_set of a normal attribute: success means that this one register, and no other, now holds the value |
| Uic.GetRegister | ufs-cli/ufs_eom.c:359-364 | a result that is not negative is the value of the register |
| Uic.ReadStatic | ufs-cli/ufs_eom.c:689-729 | a result that is not negative is what the register held before; a device that does not fail gives an error only for a register that is not there |
| Grid.CellAtIndex | ufs-cli/ufs_eom.c:835-844 | point (l, t, v) of the sweep stands at ((l - first) * T + (t - left)) * V + (v - low) |
| Grid.PlaceHoldsCell | ufs-cli/ufs_eom.c:835-844 | conversely, what stands at place i is a point of the grid whose index is i |
| Grid.SweepIsGrid | ufs-cli/ufs_eom.c:835-844 | the sweep visits exactly the points of the grid, each once |
| Grid.AllCellsSize | ufs-cli/ufs_eom.c:819 | the sweep has as many points as results are allocated |
| Grid.ProgressIsPrefix | ufs-cli/ufs_eom.c:835-844 | wherever the three loops stop, they have visited a proper prefix of the sweep |
| EomTrace.DecodesWhenFits | ufs-cli/ufs_eom.c:315-329 | the sign-magnitude register holds the step asked for exactly when it lies in -63..63 |
| EomTrace.NegativeZeroOnlyByOverflow | ufs-cli/ufs_eom.c:315-329 | 0x40, the second zero, is written exactly for negative multiples of 64 |
| EomTrace.StopsAreConclusive | ufs-cli/ufs_eom.c:385 | the counts the driver takes for conclusive are exactly those a monitor stops with |
| EomTrace.PointWrites | ufs-cli/ufs_eom.c:242-305 | after a measurement every register holds what its six writes put there, because polling writes nothing |
| EomTrace.RunMeasures | ufs-cli/ufs_eom.c:385-401 | every result of a run was measured: an uninterrupted group of commands in its trace ends in the counts recorded |
| EomTrace.EnableAfterRun | ufs-cli/ufs_eom.c:846-851 | what a run leaves in a lane's enable register follows from its last action on that lane |
| EomTrace.CompleteRunDisables | ufs-cli/ufs_eom.c:846-851 | after a complete run the last write to the enable register of every scanned lane is 0 |
| EomTrace.RoomForNext | ufs-cli/ufs_eom.c:391-399 | before every point of the sweep the results so far are a prefix of the grid with room for one more, so the overflow check cannot fire |
| EomTrace.LaneDone | ufs-cli/ufs_eom.c:846-851 | at the end of a lane the results are a prefix of the grid, and the disable write is the next step of the plan |
| UfsEom.Monitor.constructor | ufs-cli/ufs_eom.c:571-585 | the defaults of lane, number of lanes and target count, and an empty result array |
| UfsEom.Monitor.ConfigEom | ufs-cli/ufs_eom.c:242-305 | on success the six writes enable, timing, voltage, target, NO_ADAPT, power mode were made in that order, followed by the poll of the link state until it is up or cannot be read, and the registers hold them |
| UfsEom.Monitor.WaitForLinkUp | ufs-cli/ufs_eom.c:289-298 | the poll of the link state ends on every device that makes progress, when the link is up or cannot be read and not before, and writes nothing |
| UfsEom.Monitor.EomScan | ufs-cli/ufs_eom.c:307-406 | SUCCESS appends exactly one entry for the point, backed by its commands, after waiting for the link; with file I/O there was one transfer for each reading of Start; an error appends none; earlier entries stay |
| UfsEom.Monitor.AwaitResult | ufs-cli/ufs_eom.c:337-405 | the polling loop ends on every device that makes progress, with conclusive counts or a failed command; with file I/O every round has its transfer |
| UfsEom.Monitor.StressLink | ufs-cli/ufs_eom.c:341-356 | one transfer: the buffer written is the pattern of one seed below 2^31, and it is read back exactly for the local receiver |
| UfsEom.Monitor.PollRound | ufs-cli/ufs_eom.c:336-405 | one round: a transfer if there is file I/O, then one reading of Start |
| UfsEom.Monitor.PollResult | ufs-cli/ufs_eom.c:358-405 | one round reads Start, test count and error count in that order; it fails exactly when a read fails or gives a negative number, goes on while Start is set or the counts are inconclusive, and uses up work if it must go on |
| UfsEom.Monitor.TimingVoltageSanityCheck | ufs-cli/ufs_eom.c:606-653 | fills in the limits not given, and succeeds exactly when the range that results has a point and the hardware can be set to all of its points |
| UfsEom.SanityExactly | ufs-cli/ufs_eom.c:625-646 | the range passes the check exactly when some point respects the limits given, and the hardware can be set to all that do |
| UfsEom.SweptAdmitted | ufs-cli/ufs_eom.c:610-620 | the points swept are exactly those that respect every limit given, and the hardware's where none was |
| UfsEom.Monitor.ReadLink | ufs-cli/ufs_eom.c:689-729 | success gives the capability bit, the gear and the rate as the registers held them; a device that does not fail succeeds exactly when its link is ready |
| UfsEom.Monitor.ReadLimits | ufs-cli/ufs_eom.c:761-799 | success gives all four limits as the registers held them; a device that does not fail succeeds exactly when all four are there |
| UfsEom.Monitor.Allocate | ufs-cli/ufs_eom.c:819-827 | room for exactly one result a point of the sweep |
| UfsEom.Monitor.Prepare | ufs-cli/ufs_eom.c:689-827 | success means that link, limits and range are those of the device and of the options, and that there is room for the sweep; a device that does not fail succeeds exactly when it offers the sweep and there is memory |
| UfsEom.Monitor.GenerateEomReport | ufs-cli/ufs_eom.c:408-441 | succeeds exactly when the names were read and the file opened, and then prints the report of the whole array |
| UfsEomPy.SameEncoding | scripts/ufs-eom.py:275-278 | both drivers encode a step alike, for all integers |
| UfsEomPy.LsufsSet | scripts/ufs-eom.py:25-29 | one write to the register of the lane, lane 0 if none is given, on the given side; it may fail, and nobody looks |
| UfsEomPy.LsufsGet | scripts/ufs-eom.py:31-37 | the value the register showed, or nothing if the command failed or the value reads as -2 |
| UfsEomPy.EomPrepare | scripts/ufs-eom.py:69-100 | nothing is written; the limits are what the device holds if they were read, and settle whether it exits or raises, goes on without a limit, or sets up the driver with lanes, voltage and limits |
| UfsEomPy.StartWithoutLimits | scripts/ufs-eom.py:207-214 | without a limit the first lane is switched on, and nothing else is done before the program raises |
| UfsEomPy.EomProgram | scripts/ufs-eom.py:182-226 | the whole program on any device: it exits without a write exactly for a single voltage that is out of range or whose limit could not be read, raises after switching the first lane on exactly when another limit is missing, is given up half way after a lost write, or finishes its plan |
| UfsEomPy.Driver.constructor | scripts/ufs-eom.py:182-198 | the defaults of lanes and target count |
| UfsEomPy.Driver.ConfigEom | scripts/ufs-eom.py:261-273 | on any device the six writes of the C program are attempted in the same order; if all succeed the registers hold them and a new measurement has begun |
| UfsEomPy.Driver.PollRound | scripts/ufs-eom.py:241-259 | one round, from what is read in it: Start 1 goes on, Start 0 reads both counts and decides, anything else gives the point up; a loop that must end uses up work; a loop that is stuck, with a stopped monitor and inconclusive counts, is afterwards where it was unless a read failed |
| UfsEomPy.Driver.KeepPolling | scripts/ufs-eom.py:241-259 | a stuck loop is where it was after any number of rounds, unless a read failed |
| UfsEomPy.LowTargetMayStick | scripts/ufs-eom.py:251 | a monitor may stop with counts that are inconclusive for a target exactly when it was given a lower one |
| UfsEomPy.PollsForEver | scripts/ufs-eom.py:241-259 | a monitor that stopped after 10 tests while 93 are waited for: with reads that do not fail the loop still polls after any number of rounds |
| UfsEomPy.Driver.Poll | scripts/ufs-eom.py:241-259 | the polling loop on any device: it ends by itself when the stopped monitor shows conclusive counts, or a running one has a target high enough |
| PyTrace.BackedExactly | scripts/ufs-eom.py:239-252 | a point the Python program recorded was measured exactly when none of its six writes was lost |
| PyTrace.LostWriteShows | scripts/ufs-eom.py:261-273 | a lost write of a recorded point leaves its register unwritten for the whole measurement |
| PyTrace.PyRunRecords | scripts/ufs-eom.py:200-226 | whatever fails, every recorded result stems from an attempt of its own point, which measures it exactly if no write was lost |
| UfsEomPy.Driver.SweepLane | scripts/ufs-eom.py:207-219 | one lane of a full or single-voltage sweep: enable, all points in order, disable, or the user gives up on the way after a lost write |
| UfsEomPy.Driver.EomStart | scripts/ufs-eom.py:200-226 | on any device every point of the plan is attempted, or the user gives up: then the attempts are a prefix of the plan, and a write was lost |
| UfsEomPy.Driver.SweepRecordsGrid | scripts/ufs-eom.py:207-219 | a finished sweep on a device that does not fail has recorded what the device says about every cell in sweep order, every entry measured, one report line each, every lane switched off |
| PyTrace.PlansAgree | scripts/ufs-eom.py:207-219 | with the one extra enable of each lane taken out, the Python program does exactly what the C program does |
| UfsEomPy.RunC | ufs-cli/ufs_eom.c:669-870 | the C program on a device that does not fail: it succeeds exactly when the sweep is offered, and records what the device shows over the range asked for |
| UfsEomPy.SuccessesAgree | scripts/ufs-eom.py:92-100 | with the link ready and the limits readable both programs get to their sweep or neither does, unless the single voltage is 255; the Python program does exactly for no voltage or one within the limits |
| UfsEomPy.CapsAgree | scripts/ufs-eom.py:69-80 | both programs read the same four limits |
| UfsEomPy.DriversAgree | scripts/ufs-eom.py:207-219 | sequences recorded over the C and the Python window of the same options are equal exactly unless the single voltage is 255 |
| Decimal.NumberRoundTrip | scripts/ufs-eom-plot.py:35-41 | reading back a printed number is the identity on all integers, for int() and string_to_number |
| Decimal.NumberUpToComma | scripts/ufs-eom-plot.py:35-41 | a number is read up to the first comma, whatever follows |
| Decimal.PyIntExactly | scripts/ufs-eom-plot.py:35-41 | int() takes digits with at most one sign before them, and nothing else |
| Text.SplitJoin | scripts/ufs-eom-plot.py:104 | splitting words joined by spaces gives the words back |
| Text.AsciiBlanks | scripts/ufs-eom-plot.py:104 | the ten ASCII characters that separate words |
| Text.ReadLinesConcat | scripts/ufs-eom-plot.py:50 | reading the lines of a file gives the lines that were written |
| Text.EndsDoNotMatter | scripts/ufs-eom-plot.py:49-50 | a file whose lines end with carriage return and newline, or with a carriage return alone, is read like one with newlines |
| Text.LinesLoseNothing | scripts/ufs-eom-plot.py:50 | the lines put together are the text, and only the last may lack its line end |
| ReportParser.KeyTextInjective | scripts/ufs-eom-plot.py:160 | two grid points have the same dictionary key exactly when they are equal |
| ReportParser.ParseLinesAppend | scripts/ufs-eom-plot.py:102-166 | reading a file in two parts is reading it whole |
| ReportParser.BadStays | scripts/ufs-eom-plot.py:149-153 | once a line is bad no later line makes the file good |
| ReportParser.OneLabelSuffices | scripts/ufs-eom-plot.py:136-139 | a line of eight words or more is taken for data exactly when one of the five labels stands at its place |
| ReportParser.BadExactly | scripts/ufs-eom-plot.py:141-153 | a line taken for data is bad exactly unless its lane is an integer, its three numbers are numbers up to a comma, and the gear is known |
| RoundTrip.SideLineParses | scripts/ufs-eom-plot.py:130-132 | the first report line sets the side and nothing else |
| RoundTrip.InquiryLineParses | scripts/ufs-eom-plot.py:120-123 | the two names are read back, unless there are fewer than two words or keywords of a capability line, which raise; a first word "count" makes the line bad as well |
| RoundTrip.NamesReadBack | ufs-cli/ufs_eom.c:427 | names of one word each are read back in the order manufacturer, product, revision |
| RoundTrip.SideShown | ufs-cli/ufs_eom.c:426 | the report names the side: Device for the peer, Host for local |
| RoundTrip.RateShown | ufs-cli/ufs_eom.c:428 | the report names gear and rate: A for series 1, B for any other |
| RoundTrip.VersionLineParses | scripts/ufs-eom-plot.py:117-119 | a version line sets the version and nothing else; without a version, with "count" for one or with the keywords of a capability line in it, it spoils the file |
| RoundTrip.SizeLineParses | scripts/ufs-eom-plot.py:124-126 | a size line sets number and unit put together and nothing else; with fewer than two words, with "count" for the first or with the keywords of a capability line in it, it spoils the file |
| RoundTrip.GearLineParses | scripts/ufs-eom-plot.py:127-129 | the gear line sets the gear text and nothing else |
| RoundTrip.GearFound | scripts/ufs-eom-plot.py:148 | the search for the gear number finds the gear that was printed |
| RoundTrip.CapabilitiesLineParses | scripts/ufs-eom-plot.py:133-139 | the heading of the capabilities changes nothing |
| RoundTrip.TimingLineParses | scripts/ufs-eom-plot.py:105-110 | the timing limits are read back, unless the steps are zero and the division fails |
| RoundTrip.VoltageLineParses | scripts/ufs-eom-plot.py:111-116 | the voltage limits are read back, unless the steps are zero and the division fails |
| RoundTrip.ResultLineParses | scripts/ufs-eom-plot.py:136-166 | a result line enters its error count for its lane and point, and nothing else |
| RoundTrip.HeaderParses | scripts/ufs-eom-plot.py:102-132 | the header raises exactly when the names cannot be read or steps are zero; otherwise every line of it is read back |
| RoundTrip.ReportParses | scripts/ufs-eom-plot.py:102-169 | reading the printed lines gives side, limits, gear and both dictionaries exactly when the header is readable |
| RoundTrip.LowGearStops | scripts/ufs-eom-plot.py:155-157 | a gear from 0 to 3 stops the parser at the first result, whatever it is |
| RoundTrip.ThirdLaneQuits | scripts/ufs-eom-plot.py:165-166 | a result of a lane other than 0 and 1 makes the plotter quit |
| RoundTrip.EntryIsResult | scripts/ufs-eom-plot.py:159-164 | every dictionary entry is a result of its lane |
| RoundTrip.ResultIsEntry | scripts/ufs-eom-plot.py:159-164 | if no point occurs twice every result is a dictionary entry |
| Verdict.FillExact | scripts/ufs-eom-plot.py:178-200 | filling keeps what was parsed, gives 999 to every other visited cell and adds nothing else |
| Verdict.FilledExact | scripts/ufs-eom-plot.py:178-200 | after the fill a lane's dictionary covers its grid |
| Verdict.RunUnique | scripts/ufs-eom-plot.py:284-308 | that far end is unique |
| Verdict.CenterInside | scripts/ufs-eom-plot.py:320-331 | the centre lies in the run and its two sides differ by at most one step |
| Verdict.NoCenterExactly | scripts/ufs-eom-plot.py:325-340 | there is no centre exactly when in one direction a missing cell comes before any error |
| Verdict.BoundaryMirrored | scripts/ufs-eom-plot.py:287-292 | the right and the left search are mirror images |
| Verdict.CenterMirrored | scripts/ufs-eom-plot.py:326-327 | mirroring a lane maps the centre c to -c for an odd width and to 1 - c for an even one |
| Verdict.MasksNest | scripts/ufs-eom-plot.py:348-351 | the exact Gear 5 diamond lies inside the other |
| Verdict.MaskConvex | scripts/ufs-eom-plot.py:348-351 | in the exact mask moving towards the centre column never leaves it |
| EyeMask.MaskIsDiamond | scripts/ufs-eom-plot.py:348-351 | a point passes the test exactly when it is a convex combination of the corners 0.15 UI and 30 mV from the centre for gear 5, and 0.24 UI and 40 mV from it for every other gear |
| EyeMask.MaskedExactly | scripts/ufs-eom-plot.py:342-351 | a cell is masked exactly when its rounded coordinates lie in the diamond of its gear around the rounded centre |
| Exact.ExactMonotone | scripts/ufs-eom-plot.py:213-215 | with exact arithmetic and offsets that are not negative, rounded columns are monotone |
| Exact.RoundsToNearest | scripts/ufs-eom-plot.py:213-219 | rounding takes the nearest integer, and of two equally near the even one |
| Exact.ApartExactly | scripts/ufs-eom-plot.py:213-219 | 2 S + 1 rounded columns are all different exactly when the last is at least S units out |
| Exact.CollidesExactly | scripts/ufs-eom-plot.py:213-219 | two cells of the grid are drawn at the same place exactly for more than 100 timing steps, or more than 1000 voltage steps, a unit of the offset |
| Verdict.PassCovers | scripts/ufs-eom-plot.py:417-424 | PASS leaves no cell of the mask unscanned or with errors |
| Verdict.VerdictMonotone | scripts/ufs-eom-plot.py:417-422 | raising error counts or removing cells never turns FAIL into PASS |
| Verdict.PassAtGearFive | scripts/ufs-eom-plot.py:348-351 | where the masks nest, PASS under the wider mask implies PASS under the Gear 5 mask |
| Plot.ParsingKeepsLanesKnown | scripts/ufs-eom-plot.py:141-166 | a file read without a bad line names only lanes 0 and 1, each once |
| Plot.StoppedForGood | scripts/ufs-eom-plot.py:155-157 | after an exception or a refusal nothing more is read |
| Plot.FillGrid | scripts/ufs-eom-plot.py:179-200 | the loops fill the dictionary and leave three lists that run through the grid in step with it |
| Plot.ListsEnumerateGrid | scripts/ufs-eom-plot.py:178-200 | the lists contain every grid cell exactly once, with the dictionary's count |
| Plot.ValidateData | scripts/ufs-eom-plot.py:247-282 | counts the missing cells between the extremes, without the last column; empty lists raise |
| Plot.NoGapExactly | scripts/ufs-eom-plot.py:272-282 | the check finds nothing missing exactly when every cell between the extremes is there, the last column left out |
| Plot.LastColumnUnchecked | scripts/ufs-eom-plot.py:273 | data that lack a cell of the last column are found complete |
| Plot.FillLeavesNothingMissing | scripts/ufs-eom-plot.py:238-240 | after the fill the check finds nothing missing |
| Plot.ListsDecide | scripts/ufs-eom-plot.py:417-422 | the loop over the lists decides exactly what the dictionary says about the mask |
| Plot.ListsSkip | scripts/ufs-eom-plot.py:423-424 | the loop over the lists notices a cell without data exactly when the mask has one |
| Plot.SkipsExactly | scripts/ufs-eom-plot.py:423-424 | a mask is skipped exactly when one of its cells was not recorded, or recorded as 999 |
| Plot.NoLabelAfterSkip | scripts/ufs-eom-plot.py:423-441 | once a mask had a cell without data no picture is labelled, of any later lane or file |
| Plot.LabelMeans | scripts/ufs-eom-plot.py:437-441 | a label PASS means that every cell of the mask was recorded without errors, FAIL that one was recorded with errors |
| Plot.FirstFileLabels | scripts/ufs-eom-plot.py:437-441 | in the first file a lane is labelled exactly when it has a centre and the masks of this lane and those before it were recorded in full; the label is the lane's verdict |
| Plot.ListsCollide | scripts/ufs-eom-plot.py:387-388 | the rounded lists contain a pair twice exactly when two cells of the grid are drawn at the same place |
| Plot.ApartUnlessSame | scripts/ufs-eom-plot.py:387-388 | no two cells are drawn at the same place exactly when all columns differ and all rows differ |
| Plot.EyeMonitorPlot.Reset | scripts/ufs-eom-plot.py:52-98 | all fields are reset, but not the flag for skipped cells |
| Plot.EyeMonitorPlot.ParseTimingLimits | scripts/ufs-eom-plot.py:105-110 | the step on the timing limits, with its assertions and the division by zero |
| Plot.EyeMonitorPlot.ParseVoltageLimits | scripts/ufs-eom-plot.py:111-116 | the step on the voltage limits |
| Plot.EyeMonitorPlot.ParseInquiry | scripts/ufs-eom-plot.py:120-123 | the step on the names |
| Plot.EyeMonitorPlot.ParseGear | scripts/ufs-eom-plot.py:127-129 | the step on the gear line |
| Plot.EyeMonitorPlot.ParseSide | scripts/ufs-eom-plot.py:130-132 | the step on the side line |
| Plot.EyeMonitorPlot.ParseData | scripts/ufs-eom-plot.py:136-166 | the step on a data line: bad lines are counted, a low gear refuses the file, an unknown lane quits |
| Plot.EyeMonitorPlot.ParseOne | scripts/ufs-eom-plot.py:102-166 | one line of the report updates the fields as the parser's specification says |
| Plot.EyeMonitorPlot.ParseAll | scripts/ufs-eom-plot.py:102-166 | the loop over the lines, with its early exits, computes the parse of the whole file |
| Plot.EyeMonitorPlot.FindEyeWidthBoundary | scripts/ufs-eom-plot.py:284-308 | the loop computes the boundary that BoundaryExact characterises |
| Plot.EyeMonitorPlot.CalculateEyeWidthCenter | scripts/ufs-eom-plot.py:310-340 | sets this lane's centre and leaves the other's |
| Plot.EyeMonitorPlot.PlotEye | scripts/ufs-eom-plot.py:353-455 | raises exactly when two cells are drawn at the same place; otherwise true exactly when no cell in the mask has errors; what is shown is recorded, with the label that all pictures so far allow |
| Plot.EyeMonitorPlot.Show | scripts/ufs-eom-plot.py:437-441 | the label is drawn exactly when the lane has a centre and no mask so far had a cell without data |
| Plot.EyeMonitorPlot.JudgeLane | scripts/ufs-eom-plot.py:237-243 | one lane's verdict is the one its parsed data deserve |
| Plot.EyeMonitorPlot.JudgeLanes | scripts/ufs-eom-plot.py:237-245 | the file passes exactly when every lane does |
| Pipeline.SweepResults | ufs-cli/ufs_eom.c:835-852 | a complete sweep records every cell of its window once and nothing else |
| Pipeline.PlotDecides | scripts/ufs-eom-plot.py:168-245 | plotting the report of a complete sweep judges exactly the swept lanes, unless an offset of zero makes it quit or two cells drawn at the same place make it raise |
| Pipeline.PassNeedsHeader | scripts/ufs-eom-plot.py:168-173 | a report that passes has a header that can be read |
| Pipeline.RegisterStepsDecide | scripts/ufs-eom-plot.py:387-388 | with exact coordinates, at most 63 steps and positive offsets, the plotter always decides |
| Pipeline.CoarseOffsetRaises | scripts/ufs-eom-plot.py:387-388 | with exact coordinates 200 timing steps up to an offset of 1 make the plotter raise, whatever was measured |
| Pipeline.GearFourFails | scripts/ufs-eom-plot.py:348-351 | with 25 timing steps up to an offset of 50 a gear 4 lane with errors in the columns 10 and -10 fails, because its mask reaches them |
| Pipeline.ExactRowInRun | scripts/ufs-eom-plot.py:417-422 | the same as PassRowInRun for exact arithmetic and an offset that is not negative |
| Pipeline.NoCenterPasses | scripts/ufs-eom-plot.py:417-418 | a lane whose middle row has a gap before any error, in one direction, passes |
| Pipeline.SkippedMiddlePasses | scripts/ufs-eom-plot.py:297-298 | a sweep without the middle point has no centre and passes, whatever else it recorded |
| Pipeline.NarrowSweepPasses | ufs-cli/ufs_eom.c:105-106 | a sweep of the timings -1 to 1 with a clean middle row has no centre and passes |
| Pipeline.FullCountPasses | scripts/ufs-eom-plot.py:297-298 | a middle point recorded with 999 errors gives no centre and passes |
| PyReport.WithoutGear | scripts/ufs-eom-plot.py:144-153 | a file that names no gear is good only if it has no line of data |
| PyReport.VerdictWithoutGear | scripts/ufs-eom-plot.py:144-173 | a file that names no gear gets a verdict exactly when it was read without an exception or bad line and gives both step sizes; then the verdict is PASS |
| Query.BigEndianRoundTrip | ufs-cli/query.c:207-210 | a number survives its big-endian bytes exactly when it fits them |
| Query.BytesRoundTrip | ufs-cli/query.c:335 | bytes survive the number they stand for |
| Query.Dword | ufs-cli/common.h:29-30 | DWORD puts its four arguments into memory in order |
| Query.ComposeUfsBsgReq | ufs-cli/query.c:189-212 | the request buffer filled in place: header, fields and overlay, every other byte as before |
| Query.RequestRoundTrip | ufs-cli/query.c:189-212 | decoding the composed bytes gives function, lengths and value back, and each of opcode, idn, index and selector exactly when it is a byte |
| Query.ResponseSeenOnlyWhenZero | ufs-cli/query.c:243-244 | the tool sees response 0 whatever the device answers, so it sees the answer exactly when that is 0 |
| Query.RefusalLooksLikeSuccess | ufs-cli/query.c:243-250 | a read the device refuses is seen as a success with value 0 |
| Query.RefusedWriteLooksLikeSuccess | ufs-cli/query.c:243-250 | a write the device refuses stores nothing and is seen as a success |
| Query.QueryDevice.UfsBsgIo | ufs-cli/ufs_bsg.c:13-49 | the device performs or refuses the request; an I/O that fails may have reached it or not; every I/O is remembered with its bytes and its result |
| Query.SendQueryCommand | ufs-cli/query.c:214-253 | sets the function code by opcode, sends exactly one request, the composed bytes, returns what that I/O returned, and takes the new length from the header |
| Query.FunctionFitsExactly | ufs-cli/query.c:222-231 | the bytes carry the read function exactly for the opcodes 1, 3 and 5 and the write function for all others; the device accepts it exactly unless an opcode too large for its byte is cut off to one of those three |
| Query.DoQueryReadAttribute | ufs-cli/query.c:313-338 | exactly one I/O, whose result is the result; success prints the device's value, or 0 if it has none; nothing changes |
| Descriptor.StopLosesNothing | ufs-cli/query_trans.c:65-75 | stopping at the first field that does not fit loses nothing exactly when no field that fits comes later |
| Descriptor.TiledWalkIsComplete | ufs-cli/query_trans.c:65-75 | with a table that tiles its range, whatever the bytes, the walk prints exactly the non-reserved fields that fit |
| Descriptor.DeviceTableTiled | ufs-cli/query.h:156-203 | the device descriptor's fields tile [0x00, 0x59) in order |
| Descriptor.ByteHasField | ufs-cli/query.h:156-203 | every byte of a tiled range belongs to exactly one field |
| Descriptor.PrintedExactly | ufs-cli/query_trans.c:65-75 | a field of a tiled table is printed exactly when it is not reserved and every byte of it lies below the limit |
| Descriptor.NamesMean | ufs-cli/query_trans.c:23-40 | the first character of a name gives the size of the field: w two bytes, d four, q eight |
| Descriptor.LineKeepsBytes | ufs-cli/query_trans.c:79-91 | a printed value stands for the very bytes of its field |
| Descriptor.UfsDescTranslate | ufs-cli/query_trans.c:52-102 | the loop computes the walk from the bytes below both the given length and bLength, and from no others |
| StringDescriptor.ParseStringDesc | ufs-cli/ufs_eom.c:158-176 | the string holds the payload's non-zero bytes in order, the rest of the buffer as before |
| StringDescriptor.ParseDesc | scripts/ufs-eom.py:102-110 | the result is the non-zero low bytes of the first characters |
| StringDescriptor.DriversReadSameName | scripts/ufs-eom.py:102-110 | both drivers read the same name exactly when all high bytes are zero and nothing follows the first characters |
| StringDescriptor.NameRoundTrip | ufs-cli/ufs_eom.c:158-176 | the C driver reads back every encoded name; the Python driver exactly those that are short enough |

## Left out

- UicGet: the byte overlay of `uic_command` on the UPIU buffer and the memcpy of the reply are not modelled; request and reply are four words.
- ConfigEom: the delay after a link state that cannot be read is not modelled.
- GenerateEomReport: reading the names takes four query requests; the model gets their result as a parameter.
- ReportRoundTrip: stated for names without a line break, which would end the header line early; decoding the bytes of the file is not modelled.
- PyInt: underscores and digits outside ASCII, which Python's int() also takes, are not modelled.
- ParseDesc: the dump of the descriptor is taken as its bytes; the text of the dump and the regular expression that searches it are not modelled.
- ParseStringDesc: asks for a destination that holds the descriptor's non-zero bytes, which the source does not check.
- UfsDescTranslate: the columns of the output and the translation of the feature bits are not modelled.
- SendQueryCommand: the data buffer of a descriptor read is not modelled.
- EomPrepare: the exceptions of a missing `adb` or `lsufs` are not modelled; the header lines it prints are in `PyReport.PyHeaderLines`.
- PlotEye: drawing is not modelled beyond the pivot's refusal of cells drawn at the same place and the label.
- CollidesExactly: about exact arithmetic; a product that lies at a half in exact arithmetic may round the other way in doubles.
- I/O: ioctl, file descriptors, pread and pwrite, delays, clocks, adb and the process's exit codes. Their outcomes are arbitrary choices or parameters.
- Option parsing, the interactive shell, and the name tables for attributes and flags: string handling with loose number recognition.
- Flag queries, descriptor dumps and the hexadecimal dump: they would add easy members only.
