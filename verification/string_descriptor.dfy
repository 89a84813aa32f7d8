/** The device's names, as the C and the Python driver take them out of a string descriptor: two
    bytes a character, the high byte first, after a length and a type. */
module StringDescriptor {
  import opened Words

  const STRING_DESCRIPTOR_IDN: Byte := 0x5

  function NonZero(bytes: seq<Byte>): seq<Byte> {
    if bytes == [] then []
    else if bytes[|bytes| - 1] == 0 then NonZero(bytes[..|bytes| - 1])
    else NonZero(bytes[..|bytes| - 1]) + [bytes[|bytes| - 1]]
  }

  /** What follows the two header bytes, up to the descriptor's own length. */
  function Payload(desc: seq<Byte>): seq<Byte>
    requires desc != [] && desc[0] <= |desc|
  {
    if desc[0] < 2 then [] else desc[2..desc[0]]
  }

  lemma {:induction false} NonZeroGrows(bytes: seq<Byte>, n: nat)
    requires n <= |bytes|
    ensures |NonZero(bytes[..n])| <= |NonZero(bytes)|
  {
    if n < |bytes| {
      NonZeroGrows(bytes[..|bytes| - 1], n);
      assert bytes[..|bytes| - 1][..n] == bytes[..n];
    } else {
      assert bytes[..n] == bytes;
    }
  }

  /** The C driver collects every byte that is not zero; its buffer must have room for them and for
      the zero that ends the string. */
  method ParseStringDesc(buf: array<Byte>, text: array<Byte>) returns (n: nat)
    requires buf != text && buf.Length >= 1 && buf[0] <= buf.Length
    requires |NonZero(Payload(buf[..]))| < text.Length
    modifies text
    ensures n < text.Length && text[..n] == NonZero(Payload(buf[..]))
    ensures text[n..] == old(text[n..])
  {
    hide NonZero;
    var len := buf[0];
    n := 0;
    ghost var payload := Payload(buf[..]);
    NonZeroStart(payload);
    var i := 2;
    while i < len
      invariant 2 <= i <= |payload| + 2 && |payload| == if len < 2 then 0 else len - 2
      invariant n < text.Length && text[..n] == NonZero(payload[..i - 2])
      invariant text[n..] == old(text[n..])
    {
      KeepNext(payload, i - 2);
      if buf[i] != 0 {
        text[n] := buf[i];
        n := n + 1;
      }
      i := i + 1;
    }
    assert payload[..i - 2] == payload;
  }

  lemma NonZeroStart(payload: seq<Byte>)
    ensures NonZero(payload[..0]) == []
  {
  }

  lemma KeepNext(payload: seq<Byte>, k: nat)
    requires k < |payload|
    ensures NonZero(payload[..k + 1]) ==
      if payload[k] == 0 then NonZero(payload[..k]) else NonZero(payload[..k]) + [payload[k]]
    ensures |NonZero(payload[..k + 1])| <= |NonZero(payload)|
  {
    hide NonZero;
    assert payload[..k + 1] == payload[..k] + [payload[k]];
    NonZeroAppend(payload[..k], payload[k]);
    NonZeroGrows(payload, k + 1);
  }

  /** The low bytes of the first `chars` characters. */
  function LowBytes(desc: seq<Byte>, chars: nat): seq<Byte> {
    if chars == 0 then []
    else if 2 * chars + 1 < |desc| then LowBytes(desc, chars - 1) + [desc[2 * chars + 1]]
    else LowBytes(desc, chars - 1)
  }

  /** The Python driver looks up the low byte of every character in the dump of the descriptor;
      a byte that was not dumped is passed over like a zero. */
  method ParseDesc(desc: seq<Byte>, length: nat) returns (result: seq<Byte>)
    ensures result == NonZero(LowBytes(desc, length))
  {
    NonZeroStart(LowBytes(desc, 0));
    hide NonZero, LowBytes;
    result := [];
    for i := 0 to length
      invariant result == NonZero(LowBytes(desc, i))
    {
      var offset := 2 * i + 3;
      LowBytesNext(desc, i);
      if offset < |desc| {
        NonZeroAppend(LowBytes(desc, i), desc[offset]);
        if desc[offset] != 0 {
          result := result + [desc[offset]];
        }
      }
    }
  }

  lemma LowBytesNext(desc: seq<Byte>, i: nat)
    ensures LowBytes(desc, 0) == []
    ensures LowBytes(desc, i + 1) ==
      if 2 * i + 3 < |desc| then LowBytes(desc, i) + [desc[2 * i + 3]] else LowBytes(desc, i)
  {
  }

  /** Every high byte is zero, and so is every low byte from character `chars` on. */
  predicate Latin(payload: seq<Byte>, chars: nat) {
    forall i | 0 <= i < |payload| :: i % 2 == 0 || i / 2 >= chars ==> payload[i] == 0
  }

  /** The low bytes of the first `chars` pairs of the payload. */
  function LowOf(payload: seq<Byte>, chars: nat): seq<Byte>
    requires |payload| % 2 == 0
  {
    if payload == [] then []
    else
      var n := |payload| - 2;
      if n / 2 < chars then LowOf(payload[..n], chars) + [payload[n + 1]] else LowOf(payload[..n], chars)
  }

  lemma NonZeroAppend(a: seq<Byte>, b: Byte)
    ensures NonZero(a + [b]) == if b == 0 then NonZero(a) else NonZero(a) + [b]
  {
  }

  /** The two readings agree exactly on Latin text of at most `chars` characters. */
  lemma {:induction false} ReadingsAgree(payload: seq<Byte>, chars: nat)
    requires |payload| % 2 == 0
    ensures |NonZero(LowOf(payload, chars))| <= |NonZero(payload)|
    ensures |NonZero(LowOf(payload, chars))| == |NonZero(payload)| ==> Latin(payload, chars)
    ensures Latin(payload, chars) ==> NonZero(LowOf(payload, chars)) == NonZero(payload)
  {
    hide NonZero, LowOf, Latin;
    if payload == [] {
      EmptyPayload(chars);
    } else {
      var n := |payload| - 2;
      ReadingsAgree(payload[..n], chars);
      LatinPair(payload, chars);
      LastTwo(payload);
      NonZeroAppend(payload[..n], payload[n]);
      NonZeroAppend(payload[..n] + [payload[n]], payload[n + 1]);
      LowOfPair(payload, chars);
    }
  }

  lemma EmptyPayload(chars: nat)
    ensures NonZero(LowOf([], chars)) == NonZero([]) == [] && Latin([], chars)
  {
  }

  lemma LastTwo(payload: seq<Byte>)
    requires |payload| >= 2
    ensures payload == payload[..|payload| - 2] + [payload[|payload| - 2]] + [payload[|payload| - 1]]
  {
  }

  lemma LatinPair(payload: seq<Byte>, chars: nat)
    requires |payload| >= 2 && |payload| % 2 == 0
    ensures
      var n := |payload| - 2;
      Latin(payload, chars) <==>
        Latin(payload[..n], chars) && payload[n] == 0 && (n / 2 < chars || payload[n + 1] == 0)
  {
  }

  lemma LowOfPair(payload: seq<Byte>, chars: nat)
    requires |payload| >= 2 && |payload| % 2 == 0
    ensures
      var n := |payload| - 2;
      var before := NonZero(LowOf(payload[..n], chars));
      NonZero(LowOf(payload, chars)) ==
        if n / 2 < chars && payload[n + 1] != 0 then before + [payload[n + 1]] else before
  {
    hide NonZero;
    var n := |payload| - 2;
    var low := LowOf(payload[..n], chars);
    if n / 2 < chars {
      NonZeroAppend(low, payload[n + 1]);
    }
  }

  lemma {:induction false} LowBytesOfPayload(desc: seq<Byte>, chars: nat)
    requires |desc| >= 2 && |desc| % 2 == 0
    ensures LowBytes(desc, chars) == LowOf(desc[2..], chars)
    decreases |desc|, chars
  {
    if |desc| == 2 {
      NoLowBytes(desc, chars);
    } else {
      var n := |desc| - 2;
      assert desc[2..][..n - 2] == desc[..n][2..];
      LowBytesOfPayload(desc[..n], chars);
      LastLowByte(desc, chars);
    }
  }

  lemma {:induction false} NoLowBytes(desc: seq<Byte>, chars: nat)
    requires |desc| == 2
    ensures LowBytes(desc, chars) == []
  {
    if chars > 0 {
      NoLowBytes(desc, chars - 1);
    }
  }

  lemma {:induction false} LastLowByte(desc: seq<Byte>, chars: nat)
    requires |desc| >= 4 && |desc| % 2 == 0
    ensures
      var n := |desc| - 2;
      LowBytes(desc, chars) == if n / 2 <= chars then LowBytes(desc[..n], chars) + [desc[n + 1]] else LowBytes(desc[..n], chars)
  {
    if chars > 0 {
      LastLowByte(desc, chars - 1);
    }
  }

  /** The C and the Python driver read the same name from a descriptor exactly when its high bytes
      are zero and it has no character beyond the first `chars`. */
  lemma DriversReadSameName(desc: seq<Byte>, chars: nat)
    requires |desc| >= 2 && |desc| % 2 == 0 && desc[0] == |desc|
    ensures NonZero(LowBytes(desc, chars)) == NonZero(Payload(desc)) <==> Latin(desc[2..], chars)
  {
    hide NonZero, LowBytes, LowOf, Latin;
    LowBytesOfPayload(desc, chars);
    ReadingsAgree(desc[2..], chars);
    assert desc[2..desc[0]] == desc[2..];
  }

  // ----- From a name to its descriptor and back -----

  function Pairs(name: seq<Byte>): (pairs: seq<Byte>)
    ensures |pairs| == 2 * |name|
  {
    if name == [] then [] else Pairs(name[..|name| - 1]) + [0, name[|name| - 1]]
  }

  function Encode(name: seq<Byte>): (desc: seq<Byte>)
    requires |name| <= 126
    ensures |desc| == 2 + 2 * |name| == desc[0]
  {
    [2 + 2 * |name|, STRING_DESCRIPTOR_IDN] + Pairs(name)
  }

  lemma {:induction false} PairsKeepName(name: seq<Byte>)
    requires 0 !in name
    ensures NonZero(Pairs(name)) == name
  {
    if name != [] {
      var before, last := name[..|name| - 1], name[|name| - 1];
      PairsKeepName(before);
      assert last in name && Pairs(name) == Pairs(before) + [0] + [last];
      hide NonZero, Pairs;
      NonZeroAppend(Pairs(before), 0);
      NonZeroAppend(Pairs(before) + [0], last);
    }
  }

  lemma {:induction false} PairsLatin(name: seq<Byte>, chars: nat)
    requires 0 !in name
    ensures Latin(Pairs(name), chars) <==> |name| <= chars
  {
    if name != [] {
      var n := |name| - 1;
      var before, all := Pairs(name[..n]), Pairs(name);
      PairsLatin(name[..n], chars);
      assert name[n] in name && all[2 * n + 1] == name[n] && all[2 * n] == 0;
      assert forall i | 0 <= i < 2 * n :: all[i] == before[i];
    }
  }

  /** The C driver gets back every name; the Python driver only those that are short enough. */
  lemma NameRoundTrip(name: seq<Byte>, chars: nat)
    requires |name| <= 126 && 0 !in name
    ensures NonZero(Payload(Encode(name))) == name
    ensures NonZero(LowBytes(Encode(name), chars)) == name <==> |name| <= chars
  {
    var desc := Encode(name);
    assert desc[2..] == Pairs(name) && desc[2..desc[0]] == Pairs(name);
    PairsKeepName(name);
    PairsLatin(name, chars);
    DriversReadSameName(desc, chars);
  }
}
