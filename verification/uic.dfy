/** UIC commands: the request words, the device that executes them, and the driver's
    `uic_get` and `uic_set`. Bit fields are written with `/` and `%`; the fields or-ed
    together never overlap, so `|` is `+`. */
module Uic {
  import opened Words

  datatype Side = Local | Peer

  // ----- Request words (UFSHCI 2.1, section 5.6.1) -----

  const UIC_CMD_DME_GET: Word32 := 1
  const UIC_CMD_DME_SET: Word32 := 2
  const UIC_CMD_DME_PEER_GET: Word32 := 3
  const UIC_CMD_DME_PEER_SET: Word32 := 4

  const ATTR_SET_NOR: nat := 0

  const RX_EYEMON_CAPABILITY: nat := 0xF1
  const RX_EYEMON_TIMING_MAX_STEPS_CAPABILITY: nat := 0xF2
  const RX_EYEMON_TIMING_MAX_OFFSET_CAPABILITY: nat := 0xF3
  const RX_EYEMON_VOLTAGE_MAX_STEPS_CAPABILITY: nat := 0xF4
  const RX_EYEMON_VOLTAGE_MAX_OFFSET_CAPABILITY: nat := 0xF5
  const RX_EYEMON_ENABLE: nat := 0xF6
  const RX_EYEMON_TIMING_STEPS: nat := 0xF7
  const RX_EYEMON_VOLTAGE_STEPS: nat := 0xF8
  const RX_EYEMON_TARGET_TEST_COUNT: nat := 0xF9
  const RX_EYEMON_TESTED_COUNT: nat := 0xFA
  const RX_EYEMON_ERROR_COUNT: nat := 0xFB
  const RX_EYEMON_START: nat := 0xFC
  const PA_PWRMODE: nat := 0x1571
  const PA_TXHSADAPTTYPE: nat := 0x15D4
  const PA_RXGEAR: nat := 0x1583
  const RX_HSRATE_SERIES: nat := 0xA2
  const QCOM_DME_VS_UNIPRO_STATE: nat := 0xD000
  const UNIPRO_STATE_LINK_UP: nat := 2
  const PA_NO_ADAPT: nat := 3
  const EOM_PHY_ERROR_COUNT_THRESHOLD: nat := 0x3C

  datatype UicCommand = UicCommand(command: Word32, argument1: Word32, argument2: Word32, argument3: Word32)

  function MibSel(attribute: nat, selector: nat): Word32 {
    (attribute % 0x1_0000) * 0x1_0000 + selector % 0x1_0000
  }

  function AttrType(t: nat): Word32 { (t % 0x100) * 0x1_0000 }

  function SelectRx(lane: nat): nat { lane + 4 }

  function SelectTx(lane: nat): nat { lane }

  function GetRequest(attrSel: Word32, side: Side): UicCommand {
    UicCommand(if side == Peer then UIC_CMD_DME_PEER_GET else UIC_CMD_DME_GET, attrSel, 0, 0)
  }

  function SetRequest(attrSel: Word32, attrSet: nat, value: Word32, side: Side): UicCommand {
    UicCommand(if side == Peer then UIC_CMD_DME_PEER_SET else UIC_CMD_DME_SET,
               attrSel, AttrType(attrSet), value)
  }

  /** What `send_uic_command` makes of a reply: a configuration result code other than zero
      is an error, otherwise argument 3 is the value, read as a signed int. */
  function DecodeReply(reply: UicCommand): int {
    if reply.argument2 % 0x100 != 0 then ERROR else ToInt(reply.argument3)
  }

  // ----- The registers behind the words -----

  datatype Register = Register(side: Side, selector: nat, attribute: nat)

  predicate WellFormed(c: UicCommand) {
    1 <= c.command <= 4
  }

  predicate IsSet(c: UicCommand) {
    c.command == UIC_CMD_DME_SET || c.command == UIC_CMD_DME_PEER_SET
  }

  function Target(c: UicCommand): Register {
    Register(if c.command == UIC_CMD_DME_PEER_GET || c.command == UIC_CMD_DME_PEER_SET then Peer else Local,
             c.argument1 % 0x1_0000,
             c.argument1 / 0x1_0000)
  }

  /** A plain register file: SET stores argument 3, GET loads it, a GET of a register that does
      not exist fails with INVALID_MIB_ATTRIBUTE. The reply echoes the request. */
  function Execute(regs: map<Register, Word32>, c: UicCommand): (map<Register, Word32>, UicCommand) {
    if IsSet(c) then (regs[Target(c) := c.argument3], c)
    else if Target(c) in regs then (regs, c.(argument3 := regs[Target(c)]))
    else (regs, c.(argument2 := 1))
  }

  lemma RequestTargets(attribute: Word16, selector: Word16, attrSet: nat, value: Word32, side: Side)
    ensures Target(SetRequest(MibSel(attribute, selector), attrSet, value, side)) == Register(side, selector, attribute)
    ensures Target(GetRequest(MibSel(attribute, selector), side)) == Register(side, selector, attribute)
  {
  }

  /** Two requests name the same register only if side, selector and attribute all agree. */
  lemma PackingInjective(a: Word16, s: Word16, b: Word16, t: Word16)
    ensures MibSel(a, s) == MibSel(b, t) <==> a == b && s == t
  {
  }

  /** What a lane's receiver registers are called never names a transmitter register: with four
      lanes a side the selectors 0..3 and 4..7 do not meet, whatever the attributes. */
  lemma LanesDoNotCollide(a: Word16, b: Word16, rx: nat, tx: nat)
    requires rx < 4 && tx < 4
    ensures MibSel(a, SelectRx(rx)) != MibSel(b, SelectTx(tx))
  {
  }

  /** The four lanes of a side, in order, are the selectors 0..3 for the transmitters and 4..7 for the
      receivers. */
  lemma LaneSelectors(a: nat, b: nat)
    requires a < b < 4
    ensures 0 <= SelectTx(a) < SelectTx(b) < 4 <= SelectRx(a) < SelectRx(b) < 8
  {
  }

  /** The set type stands in bits 16..23 of argument 2; the result code's place is left zero, so a
      reply that echoes the request reports success. */
  lemma SetTypeField(t: nat, regs: map<Register, Word32>, attrSel: Word32, value: Word32, side: Side)
    ensures AttrType(t) / 0x1_0000 % 0x100 == t <==> t < 0x100
    ensures AttrType(t) % 0x1_0000 == 0
    ensures DecodeReply(Execute(regs, SetRequest(attrSel, t, value, side)).1) == ToInt(value)
  {
  }

  /** Writing through the packed words and reading back gives the value exactly when its top bit
      is clear; every other register reads as before. */
  lemma SetThenGet(regs: map<Register, Word32>, a: Word16, s: Word16, value: Word32, side: Side,
                   b: Word16, t: Word16, other: Side)
    ensures
      var after := Execute(regs, SetRequest(MibSel(a, s), ATTR_SET_NOR, value, side)).0;
      && (DecodeReply(Execute(after, GetRequest(MibSel(a, s), side)).1) == value <==> value < 0x8000_0000)
      && ((b, t, other) != (a, s, side) ==>
           DecodeReply(Execute(after, GetRequest(MibSel(b, t), other)).1)
           == DecodeReply(Execute(regs, GetRequest(MibSel(b, t), other)).1))
  {
    RequestTargets(a, s, ATTR_SET_NOR, value, side);
    RequestTargets(b, t, ATTR_SET_NOR, value, other);
  }

  // ----- The device -----

  /** One command the device saw. For a SET `value` is what was to be written, for a GET it is
      what was read; `ok` says whether the command succeeded. */
  datatype Event = Event(isSet: bool, reg: Register, value: Word32, ok: bool)

  datatype Counters = Counters(tested: Word32, errors: Word32)

  /** When a monitor stops by itself: after all tests, or after so many errors. */
  predicate MayStop(c: Counters, target: nat) {
    c.tested >= target || c.errors >= EOM_PHY_ERROR_COUNT_THRESHOLD
  }

  function RxRegister(side: Side, lane: nat, attribute: nat): Register {
    Register(side, SelectRx(lane), attribute)
  }

  /** Registers the device changes on its own. */
  predicate Volatile(r: Register) {
    r.attribute in {RX_EYEMON_START, RX_EYEMON_TESTED_COUNT, RX_EYEMON_ERROR_COUNT, QCOM_DME_VS_UNIPRO_STATE}
  }

  function Lookup(regs: map<Register, Word32>, r: Register): Word32 {
    if r in regs then regs[r] else 0
  }

  /** The counters a concluded measurement left in the registers. */
  function CountersOf(regs: map<Register, Word32>, r: Register): Counters {
    Counters(Lookup(regs, r.(attribute := RX_EYEMON_TESTED_COUNT)),
             Lookup(regs, r.(attribute := RX_EYEMON_ERROR_COUNT)))
  }

  function TargetOf(regs: map<Register, Word32>, r: Register): Word32 {
    Lookup(regs, r.(attribute := RX_EYEMON_TARGET_TEST_COUNT))
  }

  /** Reading changes no register but the volatile ones. */
  ghost predicate Unvolatile(before: map<Register, Word32>, after: map<Register, Word32>) {
    forall q :: !Volatile(q) ==> (q in after <==> q in before) && Lookup(after, q) == Lookup(before, q)
  }

  method AnyWord() returns (w: Word32) {
    var x: int := *;
    w := x % 0x1_0000_0000;
  }

  /** A UFS host or device behind the UIC layer. Any command may fail, a SET that is reported as
      failed may have taken effect all the same, and as long as work is left the status and count
      registers may read as anything. The only promise is progress: each successful poll of the
      link state or of RX_EYEMON_Start uses up work, and once none is left the link is up, Start is
      clear and the counts are ones that a monitor stops with, for the target then programmed.
      From then on the monitor is stopped and its counts stay, until a write of PA_PWRMODE starts
      the next measurement. A `faithful` device never fails, reads 1 from Start until it has
      finished, and then shows the counts that `oracle` gives for the programmed registers. */
  class UfsDevice {
    const faithful: bool
    const oracle: (Register, Word32, Word32, Word32) -> Counters
    var regs: map<Register, Word32>
    var linkWork: nat
    var eomWork: nat
    /** The Start registers of the monitors that have stopped since the last measurement began. */
    var stopped: set<Register>
    ghost var trace: seq<Event>

    ghost predicate Valid() {
      faithful ==> forall r: Register, timing: Word32, volt: Word32, target: Word32 ::
        && MayStop(oracle(r, timing, volt, target), target)
        && oracle(r, timing, volt, target).tested < 0x8000_0000
        && oracle(r, timing, volt, target).errors < 0x8000_0000
    }

    constructor (faithful: bool, oracle: (Register, Word32, Word32, Word32) -> Counters, regs: map<Register, Word32>)
      ensures this.faithful == faithful && this.oracle == oracle && this.regs == regs && trace == []
    {
      this.faithful, this.oracle, this.regs := faithful, oracle, regs;
      linkWork, eomWork := *, *;
      stopped := {};
      trace := [];
    }

    /** The oracle's counts for what is programmed at the side and selector of r. */
    function OracleFor(r: Register): Counters
      reads this
    {
      oracle(r.(attribute := RX_EYEMON_START),
             Lookup(regs, r.(attribute := RX_EYEMON_TIMING_STEPS)),
             Lookup(regs, r.(attribute := RX_EYEMON_VOLTAGE_STEPS)),
             TargetOf(regs, r))
    }

    /** Time passes before the link state r is read. */
    method EvolveLink(r: Register)
      modifies this`regs, this`linkWork
      ensures r in regs && regs == old(regs)[r := regs[r]]
      ensures if old(linkWork) == 0 then regs[r] % 8 == UNIPRO_STATE_LINK_UP else linkWork < old(linkWork)
    {
      var any := AnyWord();
      if linkWork == 0 {
        regs := regs[r := (any / 8) * 8 + UNIPRO_STATE_LINK_UP];
      } else {
        var less: nat := *;
        linkWork := less % linkWork;
        regs := regs[r := any];
      }
    }

    /** Time passes before a Start register r is read. */
    method EvolveStart(r: Register)
      requires Valid() && r.attribute == RX_EYEMON_START
      modifies this`regs, this`eomWork, this`stopped
      ensures r in regs && Unvolatile(old(regs), regs)
      ensures StartPolled(r, regs[r])
    {
      if eomWork > 0 {
        var any := AnyWord();
        var less: nat := *;
        eomWork := less % eomWork;
        regs := regs[r := if faithful then 1 else any];
      } else if r in stopped {
        regs := regs[r := if faithful then 0 else Lookup(regs, r) / 2 * 2];
      } else {
        stopped := stopped + {r};
        var counts := FinalCounters(r);
        var any := AnyWord();
        regs := regs[r := if faithful then 0 else (any / 2) * 2];
        regs := regs[r.(attribute := RX_EYEMON_TESTED_COUNT) := counts.tested];
        regs := regs[r.(attribute := RX_EYEMON_ERROR_COUNT) := counts.errors];
        assert CountersOf(regs, r) == counts;
      }
    }

    method FinalCounters(r: Register) returns (counts: Counters)
      requires Valid()
      ensures MayStop(counts, TargetOf(regs, r))
      ensures faithful ==> counts == OracleFor(r)
    {
      if faithful {
        return OracleFor(r);
      }
      var tested := AnyWord();
      var errors := AnyWord();
      counts := Counters(tested, errors);
      if !MayStop(counts, TargetOf(regs, r)) {
        counts := counts.(errors := EOM_PHY_ERROR_COUNT_THRESHOLD);
      }
    }

    /** Time passes before a volatile register r is read. A count is stable once the measurement
        has finished. */
    method Evolve(r: Register)
      requires Valid() && Volatile(r)
      modifies this`regs, this`linkWork, this`eomWork, this`stopped
      ensures r in regs && Unvolatile(old(regs), regs)
      ensures Polled(r, regs[r])
    {
      if r.attribute == QCOM_DME_VS_UNIPRO_STATE {
        EvolveLink(r);
      } else if r.attribute == RX_EYEMON_START {
        EvolveStart(r);
      } else {
        var any := AnyWord();
        regs := regs[r := if eomWork == 0 then Lookup(regs, r) else any];
      }
    }

    /** The ioctl: `ret` is what it returns, `reply` the reply words. */
    method Io(req: UicCommand) returns (ret: int, reply: UicCommand)
      requires Valid() && WellFormed(req)
      modifies this
      ensures trace == old(trace) +
        [Event(IsSet(req), Target(req), reply.argument3, ret == 0 && reply.argument2 % 0x100 == 0)]
      ensures faithful && (IsSet(req) || Volatile(Target(req)) || Target(req) in old(regs)) ==>
        ret == 0 && reply.argument2 % 0x100 == 0
      ensures IsSet(req) ==> reply.argument3 == req.argument3
      ensures IsSet(req) && ret == 0 && reply.argument2 % 0x100 == 0 ==>
        regs == old(regs)[Target(req) := req.argument3]
      ensures IsSet(req) && !(ret == 0 && reply.argument2 % 0x100 == 0) ==>
        regs == old(regs) || regs == old(regs)[Target(req) := req.argument3]
      ensures IsSet(req) && ret == 0 && reply.argument2 % 0x100 == 0 && Target(req).attribute == PA_PWRMODE ==> stopped == {}
      ensures IsSet(req) && Target(req).attribute != PA_PWRMODE ==> stopped == old(stopped) && eomWork == old(eomWork)
      ensures !IsSet(req) ==> Unvolatile(old(regs), regs)
      ensures !IsSet(req) && !(ret == 0 && reply.argument2 % 0x100 == 0) ==>
        regs == old(regs) && stopped == old(stopped) && eomWork == old(eomWork)
      ensures !IsSet(req) && ret == 0 && reply.argument2 % 0x100 == 0 ==>
        Target(req) in regs && reply.argument3 == regs[Target(req)]
      ensures !IsSet(req) && ret == 0 && reply.argument2 % 0x100 == 0 ==> Polled(Target(req), reply.argument3)
    {
      var r := Target(req);
      var fails: bool := *;
      if fails && !faithful {
        var result := AnyWord();
        ret := *;
        reply := req.(argument2 := if result % 0x100 == 0 then 1 else result);
        var stored: bool := *;
        if IsSet(req) && stored {
          Store(r, req.argument3);
        }
      } else if IsSet(req) {
        ret, reply := 0, req.(argument2 := (req.argument2 / 0x100) * 0x100);
        Store(r, req.argument3);
      } else {
        if Volatile(r) {
          Evolve(r);
        }
        ret := 0;
        reply := if r in regs then req.(argument2 := 0, argument3 := regs[r]) else req.(argument2 := 1);
      }
      trace := trace + [Event(IsSet(req), r, reply.argument3, ret == 0 && reply.argument2 % 0x100 == 0)];
    }

    /** A write takes effect. */
    method Store(r: Register, value: Word32)
      modifies this`regs, this`linkWork, this`eomWork, this`stopped
      ensures regs == old(regs)[r := value]
      ensures if r.attribute == PA_PWRMODE then stopped == {} else stopped == old(stopped) && eomWork == old(eomWork)
    {
      regs := regs[r := value];
      if r.attribute == PA_PWRMODE {
        linkWork, eomWork, stopped := *, *, {};
      }
    }

    /** What a successful GET of a volatile register tells about the device's progress. */
    twostate predicate Polled(r: Register, value: Word32)
      reads this
    {
      && (r.attribute == QCOM_DME_VS_UNIPRO_STATE ==>
           if old(linkWork) == 0 then value % 8 == UNIPRO_STATE_LINK_UP else linkWork < old(linkWork))
      && (if r.attribute == RX_EYEMON_START then StartPolled(r, value)
          else eomWork == old(eomWork) && stopped == old(stopped))
      && (r.attribute in {RX_EYEMON_TESTED_COUNT, RX_EYEMON_ERROR_COUNT} && old(eomWork) == 0 ==>
           value == Lookup(old(regs), r) && forall q :: Lookup(regs, q) == Lookup(old(regs), q))
    }

    twostate predicate StartPolled(r: Register, value: Word32)
      reads this
    {
      if old(eomWork) > 0 then
        eomWork < old(eomWork) && stopped == old(stopped) && (faithful ==> value == 1)
      else
        && eomWork == 0 && stopped == old(stopped) + {r} && value % 2 == 0 && (faithful ==> value == 0)
        && if r in old(stopped) then
             && (!faithful ==> value == Lookup(old(regs), r) / 2 * 2)
             && forall q | q != r :: Lookup(regs, q) == Lookup(old(regs), q)
           else
             && MayStop(CountersOf(regs, r), TargetOf(regs, r))
             && (faithful ==> CountersOf(regs, r) == OracleFor(r))
    }

    /** What a SET does to a measurement: PA_PWRMODE starts a new one, any other leaves it alone. */
    twostate predicate Restarted(e: Event)
      reads this
    {
      if e.reg.attribute == PA_PWRMODE then e.ok ==> stopped == {}
      else stopped == old(stopped) && eomWork == old(eomWork)
    }

    twostate predicate Unmoved()
      reads this
    {
      regs == old(regs) && stopped == old(stopped) && eomWork == old(eomWork)
    }

    /** If r's monitor has stopped, its counts are final for what is programmed now. */
    ghost predicate Settled(r: Register)
      reads this
    {
      r in stopped ==>
        && eomWork == 0 && MayStop(CountersOf(regs, r), TargetOf(regs, r))
        && (faithful ==> CountersOf(regs, r) == OracleFor(r))
    }
  }

  // ----- The driver's side -----

  method SendUicCommand(dev: UfsDevice, req: UicCommand) returns (ret: int)
    requires dev.Valid() && WellFormed(req)
    modifies dev
    ensures |dev.trace| == |old(dev.trace)| + 1 && dev.trace[..|old(dev.trace)|] == old(dev.trace)
    ensures
      var e := dev.trace[|old(dev.trace)|];
      && e.isSet == IsSet(req) && e.reg == Target(req)
      && (e.isSet ==> e.value == req.argument3)
      && ret == (if e.ok then ToInt(e.value) else ERROR)
      && (dev.faithful && (e.isSet || Volatile(e.reg) || e.reg in old(dev.regs)) ==> e.ok)
      && (e.isSet && e.ok ==> dev.regs == Execute(old(dev.regs), req).0)
      && (e.isSet && !e.ok ==> dev.regs == old(dev.regs) || dev.regs == Execute(old(dev.regs), req).0)
      && (e.isSet ==> dev.Restarted(e))
      && (!e.isSet ==> Unvolatile(old(dev.regs), dev.regs))
      && (!e.isSet && !e.ok ==> dev.Unmoved())
      && (!e.isSet && e.ok ==> e.reg in dev.regs && e.value == dev.regs[e.reg] && dev.Polled(e.reg, e.value))
  {
    var code, reply := dev.Io(req);
    if code != 0 {
      return ERROR;
    }
    var result := reply.argument2 % 0x100;
    if result != 0 {
      ret := ERROR;
    } else {
      ret := ToInt(reply.argument3);
    }
  }

  method UicGet(dev: UfsDevice, attrSel: Word32, side: Side) returns (ret: int)
    requires dev.Valid()
    modifies dev
    ensures |dev.trace| == |old(dev.trace)| + 1 && dev.trace[..|old(dev.trace)|] == old(dev.trace)
    ensures
      var req := GetRequest(attrSel, side);
      var e := dev.trace[|old(dev.trace)|];
      && !e.isSet && e.reg == Target(req)
      && ret == (if e.ok then ToInt(e.value) else ERROR)
      && (dev.faithful && (Volatile(e.reg) || e.reg in old(dev.regs)) ==> e.ok)
      && Unvolatile(old(dev.regs), dev.regs)
      && (e.ok ==> e.reg in dev.regs && e.value == dev.regs[e.reg] && dev.Polled(e.reg, e.value))
      && (!e.ok ==> dev.Unmoved())
      && (e.ok && !Volatile(e.reg) ==> ret == DecodeReply(Execute(old(dev.regs), req).1))
  {
    var req := UicCommand(if side == Peer then UIC_CMD_DME_PEER_GET else UIC_CMD_DME_GET, attrSel, 0, 0);
    ret := SendUicCommand(dev, req);
  }

  /** SUCCESS, or ERROR when the command failed. A value that reads as ERROR when taken for a
      signed int is reported as an error although it was written. */
  method UicSet(dev: UfsDevice, attrSel: Word32, attrSet: nat, value: Word32, side: Side) returns (ret: int)
    requires dev.Valid()
    modifies dev
    ensures |dev.trace| == |old(dev.trace)| + 1 && dev.trace[..|old(dev.trace)|] == old(dev.trace)
    ensures
      var req := SetRequest(attrSel, attrSet, value, side);
      var e := dev.trace[|old(dev.trace)|];
      && e == Event(true, Target(req), value, e.ok)
      && ret == (if e.ok && ToInt(value) != ERROR then SUCCESS else ERROR)
      && (dev.faithful ==> e.ok)
      && (dev.regs == Execute(old(dev.regs), req).0 || (!e.ok && dev.regs == old(dev.regs)))
      && dev.Restarted(e)
  {
    var req := UicCommand(if side == Peer then UIC_CMD_DME_PEER_SET else UIC_CMD_DME_SET,
                          attrSel, AttrType(attrSet), value);
    ret := SendUicCommand(dev, req);
    ret := if ret == ERROR then ret else 0;
  }

  /** `uic_set` of a normal attribute: the packed words reach the register they are meant for. */
  method SetRegister(dev: UfsDevice, attribute: Word16, selector: Word16, value: Word32, side: Side) returns (ret: int)
    requires dev.Valid() && ToInt(value) != ERROR
    modifies dev
    ensures ret == SUCCESS || ret == ERROR
    ensures dev.trace == old(dev.trace) + [Event(true, Register(side, selector, attribute), value, ret == SUCCESS)]
    ensures
      || dev.regs == old(dev.regs)[Register(side, selector, attribute) := value]
      || (ret != SUCCESS && dev.regs == old(dev.regs))
    ensures dev.Restarted(dev.trace[|old(dev.trace)|])
    ensures dev.faithful ==> ret == SUCCESS
  {
    RequestTargets(attribute, selector, ATTR_SET_NOR, value, side);
    ret := UicSet(dev, MibSel(attribute, selector), ATTR_SET_NOR, value, side);
  }

  /** `uic_get`; a negative result is an error or a value with its top bit set. */
  method GetRegister(dev: UfsDevice, attribute: Word16, selector: Word16, side: Side) returns (ret: int)
    requires dev.Valid()
    modifies dev
    ensures |dev.trace| == |old(dev.trace)| + 1 && dev.trace[..|old(dev.trace)|] == old(dev.trace)
    ensures !dev.trace[|old(dev.trace)|].isSet
    ensures Unvolatile(old(dev.regs), dev.regs)
    ensures -0x8000_0000 <= ret < 0x8000_0000
    ensures
      var e := dev.trace[|old(dev.trace)|];
      && e.reg == Register(side, selector, attribute)
      && ret == (if e.ok then ToInt(e.value) else ERROR)
      && (e.ok ==> e.reg in dev.regs && e.value == Lookup(dev.regs, e.reg) && dev.Polled(e.reg, e.value))
      && (!e.ok ==> dev.Unmoved())
    ensures
      var r := Register(side, selector, attribute);
      dev.faithful && (Volatile(r) || r in old(dev.regs)) ==> dev.trace[|old(dev.trace)|].ok
    ensures ret >= 0 ==>
      && ret < 0x8000_0000
      && dev.trace[|old(dev.trace)|] == Event(false, Register(side, selector, attribute), ret, true)
      && dev.Polled(Register(side, selector, attribute), ret)
      && Lookup(dev.regs, Register(side, selector, attribute)) == ret
    ensures dev.faithful && Volatile(Register(side, selector, attribute)) ==>
      ret == ToInt(Lookup(dev.regs, Register(side, selector, attribute)))
      && dev.Polled(Register(side, selector, attribute), Lookup(dev.regs, Register(side, selector, attribute)))
  {
    RequestTargets(attribute, selector, ATTR_SET_NOR, 0, side);
    ret := UicGet(dev, MibSel(attribute, selector), side);
  }

  /** What `uic_get` returns when no command fails: an error only for a register that is not there. */
  function StaticValue(regs: map<Register, Word32>, r: Register): int {
    if r in regs then ToInt(Lookup(regs, r)) else ERROR
  }

  /** `uic_get` of a register the device does not change on its own. */
  method ReadStatic(dev: UfsDevice, attribute: Word16, selector: Word16, side: Side) returns (ret: int)
    requires dev.Valid() && !Volatile(Register(side, selector, attribute))
    modifies dev
    ensures Unvolatile(old(dev.regs), dev.regs)
    ensures ret >= 0 ==> ret == StaticValue(old(dev.regs), Register(side, selector, attribute))
    ensures dev.faithful ==> ret == StaticValue(old(dev.regs), Register(side, selector, attribute))
  {
    ret := GetRegister(dev, attribute, selector, side);
  }
}
