/** Query requests: the bytes the tool composes, what a device makes of them, and the way back. */
module Query {
  import opened Words

  const UTP_UPIU_QUERY_REQ: Byte := 0x16
  const QUERY_REQ_FUNC_STD_READ: Byte := 0x01
  const QUERY_REQ_FUNC_STD_WRITE: Byte := 0x81
  const QUERY_REQ_OP_READ_DESC: int := 0x1
  const QUERY_REQ_OP_READ_ATTR: int := 0x3
  const QUERY_REQ_OP_WRITE_ATTR: int := 0x4
  const QUERY_REQ_OP_READ_FLAG: int := 0x5
  const UPIU_SIZE: nat := 32
  const REQUEST_SIZE: nat := 36

  // ----- Numbers as bytes -----

  function BigEndian(value: nat, size: nat): (bytes: seq<Byte>)
    ensures |bytes| == size
  {
    if size == 0 then [] else BigEndian(value / 0x100, size - 1) + [value % 0x100]
  }

  function FromBigEndian(bytes: seq<Byte>): nat {
    if bytes == [] then 0 else FromBigEndian(bytes[..|bytes| - 1]) * 0x100 + bytes[|bytes| - 1]
  }

  /** How many values `size` bytes can hold. */
  function Values(size: nat): nat {
    if size == 0 then 1 else Values(size - 1) * 0x100
  }

  /** A number survives exactly when it fits. */
  lemma {:induction false} BigEndianRoundTrip(value: nat, size: nat)
    ensures FromBigEndian(BigEndian(value, size)) == value <==> value < Values(size)
    ensures FromBigEndian(BigEndian(value, size)) < Values(size)
  {
    if size > 0 {
      var high := BigEndian(value / 0x100, size - 1);
      BigEndianRoundTrip(value / 0x100, size - 1);
      assert (high + [value % 0x100])[..size - 1] == high;
    }
  }

  /** And every sequence of bytes is the encoding of the number it stands for. */
  lemma {:induction false} BytesRoundTrip(bytes: seq<Byte>)
    ensures BigEndian(FromBigEndian(bytes), |bytes|) == bytes
    ensures FromBigEndian(bytes) < Values(|bytes|)
  {
    if bytes != [] {
      BytesRoundTrip(bytes[..|bytes| - 1]);
    }
  }

  lemma WordSizes()
    ensures Values(2) == 0x1_0000 && Values(4) == 0x1_0000_0000 && Values(8) == 0x1_0000_0000_0000_0000
  {
  }

  /** The four bytes of DWORD(b3, b2, b1, b0) in memory. */
  function Dword(b3: Byte, b2: Byte, b1: Byte, b0: Byte): (bytes: seq<Byte>)
    ensures bytes == [b3, b2, b1, b0]
  {
    var word := b3 * 0x100_0000 + b2 * 0x1_0000 + b1 * 0x100 + b0;
    DwordBytes(b3, b2, b1, b0);
    BigEndian(word, 4)
  }

  lemma DwordBytes(b3: Byte, b2: Byte, b1: Byte, b0: Byte)
    ensures BigEndian(b3 * 0x100_0000 + b2 * 0x1_0000 + b1 * 0x100 + b0, 4) == [b3, b2, b1, b0]
  {
    var word := b3 * 0x100_0000 + b2 * 0x1_0000 + b1 * 0x100 + b0;
    assert word / 0x100 == b3 * 0x1_0000 + b2 * 0x100 + b1;
    assert word / 0x100 / 0x100 == b3 * 0x100 + b2;
    assert word / 0x100 / 0x100 / 0x100 == b3;
    assert BigEndian(b3, 1) == [] + [b3];
    assert BigEndian(b3 * 0x100 + b2, 2) == [b3, b2];
    assert BigEndian(b3 * 0x1_0000 + b2 * 0x100 + b1, 3) == [b3, b2, b1];
  }

  /** An int stored into a __u8. */
  function ByteOf(x: int): Byte { x % 0x100 }

  // ----- The request -----

  /** What the command line asked for. */
  datatype Operation = Operation(func: Byte, opcode: int, idn: int, index: int, selector: int, attrValue: Word64)

  class QueryOperation {
    var func: Byte
    var opcode: int
    var idn: int
    var index: int
    var selector: int
    var attrValue: Word64

    constructor (opcode: int, idn: int, index: int, selector: int, attrValue: Word64)
      ensures View() == Operation(func, opcode, idn, index, selector, attrValue)
    {
      this.func, this.opcode, this.idn := 0, opcode, idn;
      this.index, this.selector, this.attrValue := index, selector, attrValue;
    }

    function View(): Operation
      reads this
    {
      Operation(func, opcode, idn, index, selector, attrValue)
    }
  }

  /** Copies bytes over a part of the buffer. */
  method Put(buf: array<Byte>, at: nat, bytes: seq<Byte>)
    requires at + |bytes| <= buf.Length
    modifies buf
    ensures buf[..] == old(buf[..at]) + bytes + old(buf[at + |bytes|..])
  {
    forall i | 0 <= i < |bytes| {
      buf[at + i] := bytes[i];
    }
  }

  /** The last sixteen bytes of the query area: the attribute's value is laid over the reserved
      bytes and the descriptor's length. */
  function QueryTail(op: Operation, length: Word16, before: seq<Byte>): (tail: seq<Byte>)
    requires |before| == 16
    ensures |tail| == 16
  {
    if op.opcode == QUERY_REQ_OP_READ_DESC then before[..2] + BigEndian(length, 2) + before[4..]
    else if op.opcode == QUERY_REQ_OP_WRITE_ATTR then BigEndian(op.attrValue, 8) + before[8..]
    else before
  }

  /** The UPIU composed over a buffer whose last sixteen bytes held `before`. */
  function Upiu(op: Operation, length: Word16, before: seq<Byte>): (upiu: seq<Byte>)
    requires |before| == 16
    ensures |upiu| == UPIU_SIZE
  {
    [UTP_UPIU_QUERY_REQ, 0, 0, 0] + [0, op.func, 0, 0] + [0, 0, length / 0x100, length % 0x100]
    + FieldBytes(op) + QueryTail(op, length, before)
  }

  /** Fills the request in place, field by field. */
  method ComposeUfsBsgReq(op: QueryOperation, req: array<Byte>, length: Word16)
    requires req.Length == REQUEST_SIZE
    modifies req
    ensures req[..] == [UTP_UPIU_QUERY_REQ, 0, 0, 0] + Upiu(op.View(), length, old(req[20..]))
  {
    hide Dword, ByteOf, QueryTail, Upiu, FieldBytes, BigEndian;
    ghost var before := req[..];
    ghost var s := req[..];
    Put(req, 0, [UTP_UPIU_QUERY_REQ, 0, 0, 0]);
    Extends(before, s, [], [UTP_UPIU_QUERY_REQ, 0, 0, 0], req[..]);
    ghost var prefix := [] + [UTP_UPIU_QUERY_REQ, 0, 0, 0];
    s := req[..];
    Put(req, 4, Dword(UTP_UPIU_QUERY_REQ, 0, 0, 0));
    Extends(before, s, prefix, [UTP_UPIU_QUERY_REQ, 0, 0, 0], req[..]);
    prefix, s := prefix + [UTP_UPIU_QUERY_REQ, 0, 0, 0], req[..];
    Put(req, 8, Dword(0, op.func, 0, 0));
    Extends(before, s, prefix, [0, op.func, 0, 0], req[..]);
    prefix, s := prefix + [0, op.func, 0, 0], req[..];
    Put(req, 12, Dword(0, 0, length / 0x100, length % 0x100));
    Extends(before, s, prefix, [0, 0, length / 0x100, length % 0x100], req[..]);
    prefix, s := prefix + [0, 0, length / 0x100, length % 0x100], req[..];
    PutFields(op, req);
    Extends(before, s, prefix, FieldBytes(op.View()), req[..]);
    prefix, s := prefix + FieldBytes(op.View()), req[..];
    if op.opcode == QUERY_REQ_OP_READ_DESC {
      Put(req, 22, BigEndian(length, 2));
    } else if op.opcode == QUERY_REQ_OP_WRITE_ATTR {
      Put(req, 20, BigEndian(op.attrValue, 8));
    }
    TailWritten(before, s, prefix, op.View(), length, req[..]);
    UpiuParts(op.View(), length, before[20..], prefix);
  }

  /** The one-byte fields of the query area. */
  function FieldBytes(op: Operation): (bytes: seq<Byte>)
    ensures |bytes| == 4
  {
    [ByteOf(op.opcode), ByteOf(op.idn), ByteOf(op.index), ByteOf(op.selector)]
  }

  method PutFields(op: QueryOperation, req: array<Byte>)
    requires req.Length == REQUEST_SIZE
    modifies req
    ensures req[..] == old(req[..16]) + FieldBytes(op.View()) + old(req[20..])
  {
    req[16] := ByteOf(op.opcode);
    req[17] := ByteOf(op.idn);
    req[18] := ByteOf(op.index);
    req[19] := ByteOf(op.selector);
  }

  /** The front of the buffer is written, the rest is as before. */
  predicate Written(before: seq<Byte>, s: seq<Byte>, prefix: seq<Byte>) {
    |s| == |before| && |prefix| <= |s| && s[..|prefix|] == prefix && s[|prefix|..] == before[|prefix|..]
  }

  lemma Extends(before: seq<Byte>, s: seq<Byte>, prefix: seq<Byte>, bytes: seq<Byte>, after: seq<Byte>)
    requires Written(before, s, prefix) && |prefix| + |bytes| <= |s|
    requires after == s[..|prefix|] + bytes + s[|prefix| + |bytes|..]
    ensures Written(before, after, prefix + bytes)
  {
  }

  lemma TailWritten(before: seq<Byte>, s: seq<Byte>, prefix: seq<Byte>, op: Operation, length: Word16, after: seq<Byte>)
    requires Written(before, s, prefix) && |prefix| == 20 && |before| == REQUEST_SIZE
    requires after ==
      if op.opcode == QUERY_REQ_OP_READ_DESC then s[..22] + BigEndian(length, 2) + s[24..]
      else if op.opcode == QUERY_REQ_OP_WRITE_ATTR then s[..20] + BigEndian(op.attrValue, 8) + s[28..]
      else s
    ensures after == prefix + QueryTail(op, length, before[20..])
  {
  }

  lemma UpiuParts(op: Operation, length: Word16, before: seq<Byte>, prefix: seq<Byte>)
    requires |before| == 16
    requires prefix == [] + [UTP_UPIU_QUERY_REQ, 0, 0, 0] + [UTP_UPIU_QUERY_REQ, 0, 0, 0] + [0, op.func, 0, 0]
      + [0, 0, length / 0x100, length % 0x100] + FieldBytes(op)
    ensures prefix + QueryTail(op, length, before) == [UTP_UPIU_QUERY_REQ, 0, 0, 0] + Upiu(op, length, before)
  {
  }

  /** A QUERY REQUEST UPIU as JESD220, section 10.7.8, lays it out. */
  datatype Request = Request(
    transaction: Byte, func: Byte, segment: nat,
    opcode: Byte, idn: Byte, index: Byte, selector: Byte, length: nat, value: nat)

  function DecodeRequest(upiu: seq<Byte>): Request
    requires |upiu| == UPIU_SIZE
  {
    Request(upiu[0], upiu[5], FromBigEndian(upiu[10..12]), upiu[12], upiu[13], upiu[14], upiu[15],
            FromBigEndian(upiu[18..20]), FromBigEndian(upiu[16..24]))
  }

  function Zeros(): (zeros: seq<Byte>)
    ensures |zeros| == 16
  {
    [0, 0, 0, 0, 0, 0, 0, 0, 0, 0, 0, 0, 0, 0, 0, 0]
  }

  predicate IsByte(x: int) { 0 <= x < 0x100 }

  /** The device finds every field again: opcode, idn, index and selector exactly when they are
      bytes; a descriptor read says its length twice, in the header and in the query area; an
      attribute write carries all 64 bits of the value and leaves the four bytes before it alone. */
  lemma RequestRoundTrip(op: Operation, length: Word16)
    ensures
      var r := DecodeRequest(Upiu(op, length, Zeros()));
      && r.transaction == UTP_UPIU_QUERY_REQ && r.func == op.func && r.segment == length
      && (r.opcode == op.opcode <==> IsByte(op.opcode))
      && (r.idn == op.idn <==> IsByte(op.idn))
      && (r.index == op.index <==> IsByte(op.index))
      && (r.selector == op.selector <==> IsByte(op.selector))
      && (op.opcode == QUERY_REQ_OP_READ_DESC ==> r.length == length)
      && (op.opcode == QUERY_REQ_OP_WRITE_ATTR ==> r.value == op.attrValue)
  {
    var upiu := Upiu(op, length, Zeros());
    var tail := QueryTail(op, length, Zeros());
    assert upiu[16..] == tail;
    assert upiu[18..20] == tail[2..4] && upiu[16..24] == tail[..8];
    WordSizes();
    LengthBytes(length);
    assert upiu[10..12] == [length / 0x100, length % 0x100];
    BigEndianRoundTrip(length, 2);
    BigEndianRoundTrip(op.attrValue, 8);
    TailFields(op, length, Zeros());
    hide BigEndian, FromBigEndian, Values, QueryTail;
  }

  lemma TailFields(op: Operation, length: Word16, before: seq<Byte>)
    requires |before| == 16
    ensures op.opcode == QUERY_REQ_OP_READ_DESC ==> QueryTail(op, length, before)[2..4] == BigEndian(length, 2)
    ensures op.opcode == QUERY_REQ_OP_WRITE_ATTR ==> QueryTail(op, length, before)[..8] == BigEndian(op.attrValue, 8)
  {
    hide BigEndian;
  }

  lemma LengthBytes(length: Word16)
    ensures BigEndian(length, 2) == [length / 0x100, length % 0x100]
  {
  }

  // ----- A device that keeps attributes -----

  datatype Item = Item(idn: Byte, index: Byte, selector: Byte)

  const INVALID_IDN: Byte := 0xFD
  const NOT_WRITEABLE: Byte := 0xF7
  const INVALID_OPCODE: Byte := 0xFE

  function ReplyUpiu(r: Request, response: Byte, value: Word64): (reply: seq<Byte>)
    ensures |reply| == UPIU_SIZE
  {
    [0x36, 0, 0, 0, 0, r.func, response, 0, 0, 0, 0, 0, r.opcode, r.idn, r.index, r.selector]
    + BigEndian(value, 8) + [0, 0, 0, 0, 0, 0, 0, 0]
  }

  /** Reading a descriptor, an attribute or a flag needs the standard read function, everything else the
      standard write function. */
  predicate FunctionFits(r: Request) {
    r.func == if r.opcode == 1 || r.opcode == 3 || r.opcode == 5 then 0x01 else 0x81
  }

  /** A write stores all 64 bits, a read answers with them at the same place. The device refuses to
      write its read-only attributes, to read what it does not have, and an opcode with the wrong
      function. */
  function Perform(readOnly: set<Item>, attributes: map<Item, Word64>, upiu: seq<Byte>): (map<Item, Word64>, seq<Byte>)
    requires |upiu| == UPIU_SIZE
  {
    var r := DecodeRequest(upiu);
    var item := Item(r.idn, r.index, r.selector);
    if !FunctionFits(r) then
      (attributes, ReplyUpiu(r, INVALID_OPCODE, 0))
    else if r.opcode == QUERY_REQ_OP_WRITE_ATTR && item in readOnly then
      (attributes, ReplyUpiu(r, NOT_WRITEABLE, 0))
    else if r.opcode == QUERY_REQ_OP_WRITE_ATTR then
      WordSizes();
      BytesRoundTrip(upiu[16..24]);
      (attributes[item := r.value], ReplyUpiu(r, 0, 0))
    else if r.opcode == QUERY_REQ_OP_READ_ATTR && item in attributes then
      (attributes, ReplyUpiu(r, 0, attributes[item]))
    else
      (attributes, ReplyUpiu(r, INVALID_IDN, 0))
  }

  /** be64toh of the reply's query area, four bytes in. */
  function AttributeValue(reply: seq<Byte>): nat
    requires |reply| == UPIU_SIZE
  {
    FromBigEndian(reply[16..24])
  }

  /** The response byte of the reply's header. */
  function ResponseByte(reply: seq<Byte>): Byte
    requires |reply| == UPIU_SIZE
  {
    reply[6]
  }

  lemma ReplyFields(r: Request, response: Byte, value: Word64)
    ensures AttributeValue(ReplyUpiu(r, response, value)) == value
    ensures ResponseByte(ReplyUpiu(r, response, value)) == response
  {
    assert ReplyUpiu(r, response, value)[16..24] == BigEndian(value, 8);
    BigEndianRoundTrip(value, 8);
    WordSizes();
  }

  /** The operation's func for its opcode. */
  function FuncFor(opcode: int): Byte {
    if opcode == QUERY_REQ_OP_READ_DESC || opcode == QUERY_REQ_OP_READ_ATTR || opcode == QUERY_REQ_OP_READ_FLAG
    then QUERY_REQ_FUNC_STD_READ else QUERY_REQ_FUNC_STD_WRITE
  }

  /** The operation as it is sent. */
  function AsSent(op: Operation): Operation {
    op.(func := FuncFor(op.opcode))
  }

  /** The function fits the opcode, for the opcodes 1 to 8 and for all others, exactly unless an opcode too
      large for its byte is cut off to one of the three that read. */
  lemma FunctionFitsExactly(op: Operation, length: Word16, before: seq<Byte>)
    requires |before| == 16
    ensures
      var r := DecodeRequest(Upiu(AsSent(op), length, before));
      && (r.func == 0x01 <==> op.opcode == 1 || op.opcode == 3 || op.opcode == 5)
      && (r.func == 0x01 || r.func == 0x81)
      && (FunctionFits(r) <==> IsByte(op.opcode) || (r.opcode != 1 && r.opcode != 3 && r.opcode != 5))
  {
    RequestNames(AsSent(op), length, before);
    hide Upiu, DecodeRequest;
  }

  function ItemOf(op: Operation): Item {
    Item(ByteOf(op.idn), ByteOf(op.index), ByteOf(op.selector))
  }

  lemma RequestNames(op: Operation, length: Word16, before: seq<Byte>)
    requires |before| == 16
    ensures
      var r := DecodeRequest(Upiu(op, length, before));
      && r.opcode == ByteOf(op.opcode) && r.func == op.func && Item(r.idn, r.index, r.selector) == ItemOf(op)
      && (op.opcode == QUERY_REQ_OP_WRITE_ATTR ==> r.value == op.attrValue)
  {
    var upiu, tail := Upiu(op, length, before), QueryTail(op, length, before);
    assert upiu[16..] == tail;
    if op.opcode == QUERY_REQ_OP_WRITE_ATTR {
      assert upiu[16..24] == tail[..8] == BigEndian(op.attrValue, 8);
      BigEndianRoundTrip(op.attrValue, 8);
      WordSizes();
    }
  }

  /** Writing an attribute and reading it back, through the bytes of both requests and of the
      reply, gives the value written unless the attribute is read-only; any other attribute reads
      as before. */
  lemma WriteThenRead(readOnly: set<Item>, attributes: map<Item, Word64>, w: Operation, r: Operation, length: Word16)
    requires w.opcode == QUERY_REQ_OP_WRITE_ATTR && r.opcode == QUERY_REQ_OP_READ_ATTR
    ensures
      var after := Perform(readOnly, attributes, Upiu(AsSent(w), length, Zeros())).0;
      var reply := Perform(readOnly, after, Upiu(AsSent(r), length, Zeros())).1;
      if ItemOf(r) == ItemOf(w) && ItemOf(w) !in readOnly then
        ResponseByte(reply) == 0 && AttributeValue(reply) == w.attrValue
      else
        reply == Perform(readOnly, attributes, Upiu(AsSent(r), length, Zeros())).1
  {
    RequestNames(AsSent(w), length, Zeros());
    RequestNames(AsSent(r), length, Zeros());
    var after := Perform(readOnly, attributes, Upiu(AsSent(w), length, Zeros())).0;
    var request := DecodeRequest(Upiu(AsSent(r), length, Zeros()));
    hide Upiu, DecodeRequest, ReplyUpiu, AttributeValue, ResponseByte;
    assert after == if ItemOf(w) in readOnly then attributes else attributes[ItemOf(w) := w.attrValue];
    ReplyFields(request, 0, w.attrValue);
  }

  // ----- Sending -----

  /** One I/O: the bytes of the request, and what it returned. */
  datatype Sent = Sent(request: seq<Byte>, result: int)

  /** The device behind the bsg node. An I/O that fails may have reached it or not. */
  class QueryDevice {
    const readOnly: set<Item>
    var attributes: map<Item, Word64>
    ghost var sent: seq<Sent>

    constructor (readOnly: set<Item>, attributes: map<Item, Word64>)
      ensures this.readOnly == readOnly && this.attributes == attributes && sent == []
    {
      this.readOnly, this.attributes, sent := readOnly, attributes, [];
    }

    method UfsBsgIo(req: array<Byte>, reply: array<Byte>) returns (ret: int)
      requires req.Length == REQUEST_SIZE && reply.Length == UPIU_SIZE && req != reply
      modifies this, reply
      ensures sent == old(sent) + [Sent(req[..], ret)]
      ensures ret != 0 ==>
        && (attributes == old(attributes) || attributes == Perform(readOnly, old(attributes), req[4..]).0)
        && reply[..] == old(reply[..])
      ensures ret == 0 ==> (attributes, reply[..]) == Perform(readOnly, old(attributes), req[4..])
    {
      ret := *;
      sent := sent + [Sent(req[..], ret)];
      var done := Perform(readOnly, attributes, req[4..]);
      if ret != 0 {
        var reached: bool := *;
        attributes := if reached then done.0 else attributes;
        return;
      }
      attributes := done.0;
      forall i | 0 <= i < UPIU_SIZE {
        reply[i] := done.1[i];
      }
      assert reply[..] == done.1;
      assert req[..] == old(req[..]) && req[4..] == old(req[4..]);
    }
  }

  /** What the tool takes for the response code: the low 16 bits of the header's second word,
      assigned to a __u8 and then shifted down. */
  function SeenResponse(reply: seq<Byte>): nat
    requires |reply| == UPIU_SIZE
  {
    ByteOf(FromBigEndian(reply[4..8]) % 0x1_0000) / 0x100
  }

  /** The byte is gone before the shift: whatever the device answers, the tool sees zero, so it
      sees the device's response exactly when that is zero. */
  lemma ResponseSeenOnlyWhenZero(reply: seq<Byte>)
    requires |reply| == UPIU_SIZE
    ensures SeenResponse(reply) == 0
    ensures SeenResponse(reply) == ResponseByte(reply) <==> ResponseByte(reply) == 0
  {
  }

  /** A device that refuses a read is taken for one that answered. */
  lemma RefusalLooksLikeSuccess(readOnly: set<Item>, attributes: map<Item, Word64>, op: Operation)
    requires op.opcode == QUERY_REQ_OP_READ_ATTR && ItemOf(op) !in attributes
    ensures
      var reply := Perform(readOnly, attributes, Upiu(AsSent(op), 0, Zeros())).1;
      ResponseByte(reply) == INVALID_IDN && SeenResponse(reply) == 0 && AttributeValue(reply) == 0
  {
    RequestNames(AsSent(op), 0, Zeros());
    ReplyFields(DecodeRequest(Upiu(AsSent(op), 0, Zeros())), INVALID_IDN, 0);
  }

  /** So is one that refuses a write: nothing was stored, and the tool sees no error. */
  lemma RefusedWriteLooksLikeSuccess(readOnly: set<Item>, attributes: map<Item, Word64>, op: Operation)
    requires op.opcode == QUERY_REQ_OP_WRITE_ATTR && ItemOf(op) in readOnly
    ensures
      var (after, reply) := Perform(readOnly, attributes, Upiu(AsSent(op), 0, Zeros()));
      after == attributes && ResponseByte(reply) == NOT_WRITEABLE && SeenResponse(reply) == 0
  {
    RequestNames(AsSent(op), 0, Zeros());
    ReplyFields(DecodeRequest(Upiu(AsSent(op), 0, Zeros())), NOT_WRITEABLE, 0);
  }

  /** The request for an operation, as it goes to the device. */
  function RequestBytes(op: Operation, length: Word16): seq<Byte> {
    [UTP_UPIU_QUERY_REQ, 0, 0, 0] + Upiu(op, length, Zeros())
  }

  /** Sends one request and returns what that I/O returned: the device's answer does not matter. */
  method SendQueryCommand(op: QueryOperation, dev: QueryDevice, bufLen: Word16, reply: array<Byte>)
    returns (ret: int, newLen: Word16)
    requires reply.Length == UPIU_SIZE
    modifies op`func, dev, reply
    ensures op.View() == AsSent(old(op.View()))
    ensures dev.sent == old(dev.sent) + [Sent(RequestBytes(op.View(), bufLen), ret)]
    ensures ret != 0 ==>
      && (dev.attributes == old(dev.attributes)
          || dev.attributes == Perform(dev.readOnly, old(dev.attributes), Upiu(op.View(), bufLen, Zeros())).0)
      && newLen == bufLen
    ensures ret == 0 ==>
      && (dev.attributes, reply[..]) == Perform(dev.readOnly, old(dev.attributes), Upiu(op.View(), bufLen, Zeros()))
      && newLen == FromBigEndian(reply[10..12])
  {
    var req := new Byte[REQUEST_SIZE](_ => 0);
    if op.opcode == QUERY_REQ_OP_READ_DESC || op.opcode == QUERY_REQ_OP_READ_ATTR || op.opcode == QUERY_REQ_OP_READ_FLAG {
      op.func := QUERY_REQ_FUNC_STD_READ;
    } else {
      op.func := QUERY_REQ_FUNC_STD_WRITE;
    }
    assert req[20..] == Zeros();
    ComposeUfsBsgReq(op, req, bufLen);
    assert req[4..] == Upiu(op.View(), bufLen, Zeros());
    ret := dev.UfsBsgIo(req, reply);
    newLen := bufLen;
    if ret != 0 {
      return;
    }
    ResponseSeenOnlyWhenZero(reply[..]);
    var queryResp := SeenResponse(reply[..]);
    if queryResp != 0 {
      ret := ERROR;
    } else {
      SegmentLength(reply[..]);
      newLen := FromBigEndian(reply[8..12]) % 0x1_0000;
    }
  }

  lemma SegmentLength(reply: seq<Byte>)
    requires |reply| == UPIU_SIZE
    ensures FromBigEndian(reply[8..12]) % 0x1_0000 == FromBigEndian(reply[10..12]) < 0x1_0000
  {
    var word, low := reply[8..12], reply[10..12];
    assert word[..3][..2] == reply[8..10] && word[..3] == reply[8..11];
    assert FromBigEndian(word[..3]) == FromBigEndian(reply[8..10]) * 0x100 + reply[10];
    assert low[..1] == [reply[10]] && low[..1][..0] == [];
    assert FromBigEndian(low[..1]) == FromBigEndian([]) * 0x100 + reply[10];
  }

  /** Writes an attribute: one I/O, and its result is the result. Success is reported exactly when the
      I/O worked; then the device holds the value exactly when the attribute is not read-only, or
      held it before. */
  method DoQueryWriteAttribute(op: QueryOperation, dev: QueryDevice) returns (ret: int)
    requires op.opcode == QUERY_REQ_OP_WRITE_ATTR
    modifies op`func, dev
    ensures op.View() == old(op.View()).(func := QUERY_REQ_FUNC_STD_WRITE)
    ensures dev.sent == old(dev.sent) + [Sent(RequestBytes(op.View(), 0), ret)]
    ensures
      var item, before := ItemOf(op.View()), old(dev.attributes);
      && (ret == 0 ==> dev.attributes == if item in dev.readOnly then before else before[item := op.attrValue])
      && (ret == 0 ==>
           ((item in dev.attributes && dev.attributes[item] == op.attrValue) <==>
            item !in dev.readOnly || (item in before && before[item] == op.attrValue)))
      && (ret != 0 ==>
           dev.attributes == before || (item !in dev.readOnly && dev.attributes == before[item := op.attrValue]))
  {
    var reply := new Byte[UPIU_SIZE](_ => 0);
    var len;
    ret, len := SendQueryCommand(op, dev, 0, reply);
    WritePerformed(dev.readOnly, old(dev.attributes), op.View());
    hide Perform, Upiu;
  }

  lemma WritePerformed(readOnly: set<Item>, attributes: map<Item, Word64>, op: Operation)
    requires op.opcode == QUERY_REQ_OP_WRITE_ATTR && op.func == QUERY_REQ_FUNC_STD_WRITE
    ensures Perform(readOnly, attributes, Upiu(op, 0, Zeros())).0 ==
      if ItemOf(op) in readOnly then attributes else attributes[ItemOf(op) := op.attrValue]
  {
    RequestNames(op, 0, Zeros());
    hide Upiu, DecodeRequest, ReplyUpiu;
  }

  /** Reads an attribute with one I/O, whose result is the result: prints the device's value, or 0 when
      the device has none. */
  method DoQueryReadAttribute(op: QueryOperation, dev: QueryDevice) returns (ret: int, value: nat)
    requires op.opcode == QUERY_REQ_OP_READ_ATTR
    modifies op`func, dev
    ensures op.View() == old(op.View()).(func := QUERY_REQ_FUNC_STD_READ)
    ensures dev.sent == old(dev.sent) + [Sent(RequestBytes(op.View(), 0), ret)]
    ensures dev.attributes == old(dev.attributes)
    ensures ret == 0 ==> value == if ItemOf(op.View()) in dev.attributes then dev.attributes[ItemOf(op.View())] else 0
  {
    var reply := new Byte[UPIU_SIZE](_ => 0);
    var len;
    ret, len := SendQueryCommand(op, dev, 0, reply);
    ReadPerformed(dev.readOnly, old(dev.attributes), op.View());
    hide Perform, Upiu, AttributeValue;
    if ret != 0 {
      return ret, 0;
    }
    value := AttributeValue(reply[..]);
  }

  lemma ReadPerformed(readOnly: set<Item>, attributes: map<Item, Word64>, op: Operation)
    requires op.opcode == QUERY_REQ_OP_READ_ATTR && op.func == QUERY_REQ_FUNC_STD_READ
    ensures
      var (after, reply) := Perform(readOnly, attributes, Upiu(op, 0, Zeros()));
      after == attributes
      && AttributeValue(reply) == if ItemOf(op) in attributes then attributes[ItemOf(op)] else 0
  {
    RequestNames(op, 0, Zeros());
    var request := DecodeRequest(Upiu(op, 0, Zeros()));
    hide Upiu, DecodeRequest, ReplyUpiu, AttributeValue;
    if ItemOf(op) in attributes {
      ReplyFields(request, 0, attributes[ItemOf(op)]);
    } else {
      ReplyFields(request, INVALID_IDN, 0);
    }
  }
}
