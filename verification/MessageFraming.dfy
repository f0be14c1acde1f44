/** Length-prefixed message streams: the base-128 varint and the message framing around it. */
module MessageFraming {
  import opened Basics
  import opened Bits

  const MASK32: int := 0x1_0000_0000
  const TOP63: int := 0x8000_0000_0000_0000
  const TOP70: int := 0x40_0000_0000_0000_0000

  // ----- the varint -----

  /** `_EncodeVarint32`: seven bits a byte, low bits first, the high bit set on all bytes but the last. */
  function Encode(value: nat): seq<byte> {
    if value < 128 then [value] else [128 + value % 128] + Encode(value / 128)
  }

  /** The masks of the encoder: `v & 0x7f`, `v >> 7` and `0x80 | bits`. */
  lemma EncoderMasks(v: nat)
    ensures And(v, 0x7f) == v % 128 && ShiftRight(v, 7) == v / 128 && Or(0x80, v % 128) == 128 + v % 128
  {
    assert Pow2(7) == 128;
    AndMask(v, 7);
    OrAbove(v % 128, 1, 7);
    OrCommutes(0x80, v % 128);
  }

  /** What is written so far and the encoding of what is left make the whole. */
  ghost predicate SoFar(value: nat, out: seq<byte>, left: nat) {
    out + Encode(left) == Encode(value)
  }

  lemma SoFarNext(value: nat, out: seq<byte>, left: nat)
    requires SoFar(value, out, left) && left >= 128
    ensures SoFar(value, out + [128 + left % 128], left / 128)
  {
    var b, rest := [128 + left % 128], Encode(left / 128);
    assert Encode(left) == b + rest;
    assert out + (b + rest) == (out + b) + rest;
  }

  /** Groups of seven bits, the lowest first, with the top bit set on all bytes but the last; no group is there in vain. */
  ghost predicate Varint(bytes: seq<byte>, v: nat) {
    && bytes != []
    && if |bytes| == 1 then bytes[0] == v && v <= 127
       else bytes[0] == 128 + v % 128 && v > 127 && Varint(bytes[1..], v / 128)
  }

  lemma {:induction false} EncodeIsVarint(value: nat)
    ensures Varint(Encode(value), value)
  {
    if value >= 128 {
      EncodeIsVarint(value / 128);
      assert Encode(value)[1..] == Encode(value / 128);
    }
  }

  method EncodeVarint32(value: nat) returns (out: seq<byte>)
    ensures Varint(out, value)
    ensures out == Encode(value)
  {
    EncodeIsVarint(value);
    out := [];
    EncoderMasks(value);
    var bits: byte := And(value, 0x7f);
    var v: nat := ShiftRight(value, 7);
    ghost var left: nat := value;
    while v != 0
      invariant bits == left % 128 && v == left / 128 && SoFar(value, out, left)
      decreases v
    {
      EncoderMasks(left);
      EncoderMasks(v);
      SoFarNext(value, out, left);
      out := out + [Or(0x80, bits)];
      left := v;
      bits := And(v, 0x7f);
      v := ShiftRight(v, 7);
    }
    assert Encode(left) == [bits];
    out := out + [bits];
  }

  /** Number of bytes of the first varint, or None when the bytes run out in it. */
  function VarintLength(bytes: seq<byte>): (r: Option<nat>)
    ensures r.Some? ==> 0 < r.value <= |bytes|
  {
    if bytes == [] then None
    else if bytes[0] < 128 then Some(1)
    else match VarintLength(bytes[1..])
         case Some(n) => Some(n + 1)
         case None => None
  }

  /** The base-128 value of a byte group, low group first. */
  function Base128(bytes: seq<byte>): nat {
    if bytes == [] then 0 else bytes[0] % 128 + 128 * Base128(bytes[1..])
  }

  /** The value the decoder makes of the base-128 value: 32 bits, negative when bit 63 or a higher one is set. */
  function Truncate32(value: nat): int {
    if value >= TOP63 then value % MASK32 - MASK32 else value % MASK32
  }

  datatype Decoded =
    | Value(value: int, size: nat)   // the value, and the bytes it took
    | EndOfFile                      // the source returns (0, 0)
    | TooLong                        // the source raises IOError

  /** What `_DecodeVarint32` makes of a stream: at most ten bytes are looked at. */
  function Decode(bytes: seq<byte>): Decoded {
    match VarintLength(bytes)
    case Some(n) => if n <= 10 then Value(Truncate32(Base128(bytes[..n])), n) else TooLong
    case None => if |bytes| < 10 then EndOfFile else TooLong
  }

  /** An input stream. */
  class Reader {
    var data: seq<byte>
    var pos: nat

    ghost predicate Valid()
      reads this
    {
      pos <= |data|
    }

    ghost function Rest(): seq<byte>
      reads this
      requires Valid()
    {
      data[pos..]
    }

    constructor (data: seq<byte>)
      ensures Valid() && Rest() == data
    {
      this.data, pos := data, 0;
    }

    /** `read(n)`: up to `n` bytes; a negative count reads to the end. */
    method Read(n: int) returns (buf: seq<byte>)
      requires Valid()
      modifies this`pos
      ensures Valid() && old(Rest()) == buf + Rest()
      ensures |buf| == if 0 <= n <= |old(Rest())| then n else |old(Rest())|
    {
      if 0 <= n <= |data| - pos {
        buf := data[pos..pos + n];
        pos := pos + n;
      } else {
        buf := data[pos..];
        pos := |data|;
      }
    }
  }

  lemma {:induction false} Pow2Add(j: nat, k: nat)
    ensures Pow2(j + k) == Pow2(j) * Pow2(k)
  {
    if j > 0 {
      Pow2Add(j - 1, k);
    }
  }

  lemma Pow2Seven(k: nat)
    ensures Pow2(k + 7) == 128 * Pow2(k)
  {
    Pow2Add(7, k);
    assert Pow2(7) == 128;
  }

  lemma ShiftSeven(v: int, k: nat)
    ensures ShiftLeft(v, k + 7) == 128 * ShiftLeft(v, k)
  {
    ShiftAdd(v, k, 7);
    var w := ShiftLeft(v, k);
    assert ShiftLeft(w, 3) == 8 * w;
    ShiftAdd(w, 3, 4);
    assert ShiftLeft(8 * w, 4) == 128 * w;
  }

  lemma {:induction false} Base128Append(a: seq<byte>, b: byte)
    ensures Base128(a + [b]) == Base128(a) + ShiftLeft(b % 128, 7 * |a|)
  {
    if a == [] {
      assert a + [b] == [b] && [b][1..] == [];
    } else {
      assert (a + [b])[1..] == a[1..] + [b];
      Base128Append(a[1..], b);
      ShiftSeven(b % 128, 7 * |a[1..]|);
      assert 7 * |a[1..]| + 7 == 7 * |a|;
    }
  }

  lemma {:induction false} Base128Bound(a: seq<byte>)
    ensures Base128(a) < Pow2(7 * |a|)
  {
    if a != [] {
      Base128Bound(a[1..]);
      Pow2Seven(7 * |a[1..]|);
      assert 7 * |a[1..]| + 7 == 7 * |a|;
    }
  }

  predicate AllContinue(a: seq<byte>) {
    forall i :: 0 <= i < |a| ==> a[i] >= 128
  }

  /** Continuation bytes in front make the varint longer, nothing else. */
  lemma {:induction false} VarintLengthSkip(a: seq<byte>, b: seq<byte>)
    requires AllContinue(a)
    ensures VarintLength(a + b) == match VarintLength(b) case Some(n) => Some(|a| + n) case None => None
  {
    if a == [] {
      assert a + b == b;
    } else {
      assert (a + b)[1..] == a[1..] + b;
      VarintLengthSkip(a[1..], b);
    }
  }

  /** What is read when a varint is decoded: the varint itself, all of a stream that ends in it, or ten bytes. */
  function Consumed(bytes: seq<byte>): nat {
    match Decode(bytes)
    case Value(_, n) => n
    case EndOfFile => |bytes|
    case TooLong => 10
  }

  lemma ConsumedBound(bytes: seq<byte>)
    ensures Consumed(bytes) <= |bytes| && Consumed(bytes) <= 10
    ensures Consumed(bytes) == 0 ==> bytes == []
  {
  }

  lemma Pow2At32()
    ensures Pow2(32) == MASK32
  {
    Pow2Add(16, 16);
    Pow2Add(8, 8);
    assert Pow2(8) == 256;
  }

  lemma SignedMasks(x: int)
    ensures And(x, 0xffff_ffff) == x % MASK32 && Or(x, Not(0xffff_ffff)) == x % MASK32 - MASK32
  {
    Pow2At32();
    AndMask(x, 32);
    OrNotMask(x, 32);
  }

  lemma SameLowBits(x: int)
    ensures (x - 0x1_0000_0000_0000_0000) % MASK32 == x % MASK32
  {
  }

  /** The last lines of the decoder: the mask keeps the low 32 bits, its complement sets all the others. */
  method Signed(result: nat) returns (value: int)
    ensures value == Truncate32(result)
  {
    if result > 0x7fff_ffff_ffff_ffff {
      value := result - 0x1_0000_0000_0000_0000;
      SignedMasks(value);
      SameLowBits(result);
      value := Or(value, Not(0xffff_ffff));
    } else {
      SignedMasks(result);
      value := And(result, 0xffff_ffff);
    }
  }

  /** The first `pos` bytes of a stream, all of them continuation bytes, and one more. */
  lemma VarintAt(all: seq<byte>, pos: nat)
    requires pos < |all| && AllContinue(all[..pos])
    ensures all[pos] < 128 ==> VarintLength(all) == Some(pos + 1)
    ensures all[pos] >= 128 ==> AllContinue(all[..pos + 1])
    ensures Base128(all[..pos + 1]) == Base128(all[..pos]) + ShiftLeft(all[pos] % 128, 7 * pos)
  {
    assert all == all[..pos] + all[pos..];
    VarintLengthSkip(all[..pos], all[pos..]);
    assert all[..pos + 1] == all[..pos] + [all[pos]];
    Base128Append(all[..pos], all[pos]);
  }

  /** A stream whose bytes up to `pos` all continue: either it ends there or the varint is longer than that. */
  lemma VarintBeyond(all: seq<byte>, pos: nat)
    requires pos <= |all| && AllContinue(all[..pos])
    ensures pos == |all| ==> VarintLength(all) == None
    ensures VarintLength(all).Some? ==> VarintLength(all).value > pos
  {
    assert all == all[..pos] + all[pos..];
    VarintLengthSkip(all[..pos], all[pos..]);
  }

  /** Any value the decoder returns is congruent to the base-128 value of the bytes it read, modulo 2^32. */
  lemma DecodedCongruent(bytes: seq<byte>)
    ensures Decode(bytes).Value? ==>
              var n := Decode(bytes).size;
              && 1 <= n <= 10 && n <= |bytes|
              && (Decode(bytes).value - Base128(bytes[..n])) % MASK32 == 0
              && -MASK32 <= Decode(bytes).value < MASK32
  {
  }

  /** The masks of the decoder: `b & 0x80` and `b & 0x7f`. */
  lemma DecoderMasks(b: byte)
    ensures (And(b, 0x80) == 0 <==> b < 128) && And(b, 0x7f) == b % 128
  {
    assert Pow2(7) == 128;
    AndTopBit(b, 7);
    AndMask(b, 7);
  }

  /** The bits or-ed in at `shift` are above those already there. */
  lemma OrGroup(front: seq<byte>, bits: nat)
    ensures Or(Base128(front), ShiftLeft(bits, 7 * |front|)) == Base128(front) + ShiftLeft(bits, 7 * |front|)
  {
    Base128Bound(front);
    OrAbove(Base128(front), bits, 7 * |front|);
  }

  /** One byte of the loop: its seven bits are or-ed in at `shift`, and its top bit says whether another one follows. */
  method AddGroup(result: nat, b: byte, shift: nat, ghost front: seq<byte>) returns (next: nat, last: bool)
    requires result == Base128(front) && shift == 7 * |front|
    ensures next == Base128(front) + ShiftLeft(b % 128, 7 * |front|) && (last <==> b < 128)
  {
    DecoderMasks(b);
    var bits: nat := And(b, 0x7f);
    OrGroup(front, bits);
    next := Or(result, ShiftLeft(bits, shift));
    last := And(b, 0x80) == 0;
  }

  /** What holds of any decoding: at most ten bytes are read, and a value is congruent to what they stand for. */
  ghost predicate Sound(bytes: seq<byte>, r: Decoded, rest: seq<byte>) {
    && |rest| <= |bytes| <= |rest| + 10
    && (r.Value? ==>
          && 1 <= r.size <= 10 && r.size <= |bytes| && -MASK32 <= r.value < MASK32
          && (r.value - Base128(bytes[..r.size])) % MASK32 == 0)
  }

  lemma DecodeSound(bytes: seq<byte>)
    ensures Consumed(bytes) <= |bytes| && Sound(bytes, Decode(bytes), bytes[Consumed(bytes)..])
  {
    ConsumedBound(bytes);
    DecodedCongruent(bytes);
  }

  /** The first byte without the top bit is at position `k`. */
  ghost predicate LastAt(bytes: seq<byte>, k: nat) {
    k < |bytes| && bytes[k] <= 127 && forall j :: 0 <= j < k ==> bytes[j] >= 128
  }

  /** The number of seven-bit groups, the lowest first. */
  ghost function Groups(bytes: seq<byte>): nat {
    if bytes == [] then 0 else bytes[0] % 128 + 128 * Groups(bytes[1..])
  }

  /** The low 32 bits of a number, with all bits above them set if bit 63 or a higher one is. */
  ghost predicate LowBits(v: nat, result: int) {
    result == if v > 0x7fff_ffff_ffff_ffff then v % 0x1_0000_0000 - 0x1_0000_0000 else v % 0x1_0000_0000
  }

  /** What decoding finds in a stream and what it leaves of it. */
  ghost predicate Decodes(bytes: seq<byte>, r: Decoded, rest: seq<byte>) {
    if exists k: nat :: k < 10 && LastAt(bytes, k) then
      && r.Value? && 1 <= r.size <= 10 && LastAt(bytes, r.size - 1)
      && LowBits(Groups(bytes[..r.size]), r.value) && rest == bytes[r.size..]
    else if |bytes| < 10 then r == EndOfFile && rest == []
    else r == TooLong && rest == bytes[10..]
  }

  lemma {:induction false} LengthMeans(bytes: seq<byte>, k: nat)
    ensures VarintLength(bytes) == Some(k + 1) <==> LastAt(bytes, k)
  {
    if bytes != [] && bytes[0] >= 128 {
      if k > 0 {
        LengthMeans(bytes[1..], k - 1);
        assert LastAt(bytes, k) <==> LastAt(bytes[1..], k - 1) by {
          assert forall j :: 1 <= j < |bytes| ==> bytes[j] == bytes[1..][j - 1];
          assert LastAt(bytes[1..], k - 1) ==> bytes[k] == bytes[1..][k - 1];
        }
      }
    }
  }

  lemma {:induction false} GroupsIsBase128(bytes: seq<byte>)
    ensures Groups(bytes) == Base128(bytes)
  {
    if bytes != [] {
      GroupsIsBase128(bytes[1..]);
    }
  }

  lemma DecodeMeans(bytes: seq<byte>)
    ensures Consumed(bytes) <= |bytes| && Decodes(bytes, Decode(bytes), bytes[Consumed(bytes)..])
  {
    ConsumedBound(bytes);
    forall k: nat
      ensures VarintLength(bytes) == Some(k + 1) <==> LastAt(bytes, k)
    {
      LengthMeans(bytes, k);
    }
    if VarintLength(bytes).Some? {
      var n := VarintLength(bytes).value;
      assert LastAt(bytes, n - 1);
      GroupsIsBase128(bytes[..n]);
    }
  }

  /** The decoder's result and what it leaves of the stream. */
  ghost predicate Reads(bytes: seq<byte>, r: Decoded, rest: seq<byte>) {
    && r == Decode(bytes) && Consumed(bytes) <= |bytes| && rest == bytes[Consumed(bytes)..]
    && Sound(bytes, r, rest) && Decodes(bytes, r, rest)
  }

  lemma DecodeReads(bytes: seq<byte>)
    ensures Consumed(bytes) <= |bytes| && Reads(bytes, Decode(bytes), bytes[Consumed(bytes)..])
  {
    DecodeSound(bytes);
    DecodeMeans(bytes);
  }

  /** The stream ends in the varint. */
  lemma EndsHere(all: seq<byte>)
    requires |all| <= 9 && AllContinue(all)
    ensures Reads(all, EndOfFile, [])
  {
    assert all[..|all|] == all;
    VarintBeyond(all, |all|);
    assert all[|all|..] == [];
    DecodeReads(all);
  }

  /** The varint ends at `pos`. */
  lemma ValueHere(all: seq<byte>, pos: nat)
    requires pos <= 9 && pos < |all| && AllContinue(all[..pos]) && all[pos] < 128
    ensures Reads(all, Value(Truncate32(Base128(all[..pos + 1])), pos + 1), all[pos + 1..])
  {
    VarintAt(all, pos);
    DecodeReads(all);
  }

  lemma TooLongHere(all: seq<byte>)
    requires |all| >= 10 && AllContinue(all[..10])
    ensures Reads(all, TooLong, all[10..])
  {
    VarintBeyond(all, 10);
    DecodeReads(all);
  }

  /** How the reading loop ends: at a byte without the top bit, at the end of the stream, or after ten bytes. */
  datatype Stop = LastByte | NoByte | TenBytes

  /** Where the reading loop stands when it stops after `pos` bytes. */
  ghost predicate StopsAt(all: seq<byte>, stop: Stop, result: nat, pos: nat) {
    match stop
    case LastByte =>
      1 <= pos <= 10 && pos <= |all| && AllContinue(all[..pos - 1]) && all[pos - 1] < 128 && result == Base128(all[..pos])
    case NoByte => pos == |all| <= 9 && AllContinue(all)
    case TenBytes => pos == 10 <= |all| && AllContinue(all[..10])
  }

  /** The reading loop of `_DecodeVarint32`. */
  method ReadGroups(f: Reader) returns (stop: Stop, result: nat, pos: nat)
    requires f.Valid()
    modifies f`pos
    ensures f.Valid() && StopsAt(old(f.Rest()), stop, result, pos)
    ensures pos <= |old(f.Rest())| && f.Rest() == old(f.Rest())[pos..]
  {
    ghost var all := f.Rest();
    var shift: nat := 0;
    result, pos := 0, 0;
    while true
      invariant f.Valid() && pos <= 9 && pos <= |all| && shift == 7 * pos && f.Rest() == all[pos..]
      invariant AllContinue(all[..pos]) && result == Base128(all[..pos])
      decreases 10 - pos
    {
      var c := f.Read(1);
      if |c| == 0 {
        assert all[..pos] == all;
        return NoByte, result, pos;
      }
      assert all[pos] == c[0] && f.Rest() == all[pos + 1..];
      VarintAt(all, pos);
      var last;
      result, last := AddGroup(result, c[0], shift, all[..pos]);
      pos := pos + 1;
      if last {
        return LastByte, result, pos;
      }
      shift := shift + 7;
      if shift >= 64 {
        return TenBytes, result, pos;
      }
    }
  }

  /** `_DecodeVarint32`. */
  method DecodeVarint32(f: Reader) returns (r: Decoded)
    requires f.Valid()
    modifies f`pos
    ensures f.Valid() && Reads(old(f.Rest()), r, f.Rest())
  {
    ghost var all := f.Rest();
    var stop, result, pos := ReadGroups(f);
    match stop {
      case NoByte =>
        EndsHere(all);
        return EndOfFile;
      case TenBytes =>
        TooLongHere(all);
        return TooLong;
      case LastByte =>
        ValueHere(all, pos - 1);
        var value := Signed(result);
        return Value(value, pos);
    }
  }

  // ----- the varint read back -----

  lemma {:induction false} EncodeBack(value: nat, rest: seq<byte>)
    ensures VarintLength(Encode(value) + rest) == Some(|Encode(value)|)
    ensures Base128(Encode(value)) == value
  {
    if value < 128 {
      assert [value][1..] == [];
    } else {
      EncodeBack(value / 128, rest);
      var bytes := Encode(value);
      assert bytes[1..] == Encode(value / 128);
      assert (bytes + rest)[1..] == Encode(value / 128) + rest;
    }
  }

  lemma {:induction false} EncodeSize(value: nat, k: nat)
    requires k > 0
    ensures |Encode(value)| <= k <==> value < Pow2(7 * k)
  {
    Pow2Seven(7 * (k - 1));
    assert 7 * (k - 1) + 7 == 7 * k;
    if value < 128 {
      assert Pow2(7 * (k - 1)) >= 1;
    } else if k == 1 {
      assert Pow2(0) == 1;
    } else {
      EncodeSize(value / 128, k - 1);
      assert value / 128 < Pow2(7 * (k - 1)) <==> value < 128 * Pow2(7 * (k - 1));
    }
  }

  lemma Pow2At70()
    ensures Pow2(70) == TOP70
  {
    Pow2Add(35, 35);
    Pow2Big();
  }

  lemma TruncateSmall(value: nat)
    requires value < MASK32
    ensures Truncate32(value) == value
  {
  }

  /** Every encoded number, of any size, is read back as its 32-bit truncation, or refused when it needs more than
      ten bytes. */
  lemma VarintRoundTrip(value: nat, rest: seq<byte>)
    ensures Decode(Encode(value) + rest) == if value < TOP70 then Value(Truncate32(value), |Encode(value)|) else TooLong
  {
    EncodeBack(value, rest);
    EncodeSize(value, 10);
    Pow2At70();
    assert (Encode(value) + rest)[..|Encode(value)|] == Encode(value);
  }

  /** Below 2^32 it is read back as it was. */
  lemma VarintBack(value: nat, rest: seq<byte>)
    requires value < MASK32
    ensures Decode(Encode(value) + rest) == Value(value, |Encode(value)|)
  {
    TruncateSmall(value);
    VarintRoundTrip(value, rest);
  }

  lemma Pow2Big()
    ensures Pow2(35) == 0x8_0000_0000
  {
    Pow2Add(14, 21);
    Pow2Add(7, 7);
    Pow2Add(7, 14);
    assert Pow2(7) == 128;
  }

  // ----- messages -----

  type Message = seq<byte>

  /** `encodeMessage`. */
  function Frame(m: Message): seq<byte> {
    Encode(|m|) + m
  }

  function FrameAll(ms: seq<Message>): seq<byte> {
    if ms == [] then [] else Frame(ms[0]) + FrameAll(ms[1..])
  }

  /** Each message with its length, as a varint, in front. */
  ghost predicate WritesStream(ms: seq<Message>, out: seq<byte>) {
    if ms == [] then out == []
    else
      exists length: seq<byte>, rest: seq<byte> ::
        Varint(length, |ms[0]|) && out == length + ms[0] + rest && WritesStream(ms[1..], rest)
  }

  lemma {:induction false} FramesStream(ms: seq<Message>)
    ensures WritesStream(ms, FrameAll(ms))
  {
    if ms != [] {
      FramesStream(ms[1..]);
      EncodeIsVarint(|ms[0]|);
      assert FrameAll(ms) == Encode(|ms[0]|) + ms[0] + FrameAll(ms[1..]);
    }
  }

  method EncodeMessages(ms: seq<Message>) returns (out: seq<byte>)
    ensures WritesStream(ms, out)
    ensures out == FrameAll(ms)
  {
    FramesStream(ms);
    out := [];
    assert ms[0..] == ms;
    for i := 0 to |ms|
      invariant out + FrameAll(ms[i..]) == FrameAll(ms)
    {
      assert ms[i..][0] == ms[i] && ms[i..][1..] == ms[i + 1..];
      var prefix := EncodeVarint32(|ms[i]|);
      out := out + (prefix + ms[i]);
    }
  }

  /** What `decodeMessage` finds at the start of a stream: the body and how many bytes are gone, or None for False. A
      length of 0 counts as the end; a negative length reads everything; a body may be cut short by the end. */
  function NextMessage(bytes: seq<byte>): (r: Option<(Message, nat)>)
    ensures r.Some? ==> 0 < r.value.1 <= |bytes|
  {
    match Decode(bytes)
    case EndOfFile => None
    case TooLong => None
    case Value(size, n) =>
      if size == 0 then None
      else if 0 <= size <= |bytes| - n then Some((bytes[n..n + size], n + size))
      else Some((bytes[n..], |bytes|))
  }

  /** The messages until the first False. */
  function Messages(bytes: seq<byte>): seq<Message>
    decreases |bytes|
  {
    match NextMessage(bytes)
    case None => []
    case Some((m, n)) => [m] + Messages(bytes[n..])
  }

  /** What a call of `decodeMessage` ends in: a message, False, or an error of the protobuf parser. */
  datatype Outcome = Got(m: Message) | NoMessage | Raised

  /** One call of `decodeMessage` from a stream, and what it leaves of it if a body was read. */
  ghost predicate Outcomes(bytes: seq<byte>, accepts: Message -> bool, r: Outcome, rest: seq<byte>) {
    match NextMessage(bytes)
    case None => r == NoMessage
    case Some((m, n)) => r == (if accepts(m) then Got(m) else Raised) && rest == bytes[n..]
  }

  lemma BodyRead(bytes: seq<byte>, size: int, n: nat, buf: seq<byte>, rest: seq<byte>)
    requires Decode(bytes) == Value(size, n) && size != 0 && bytes[n..] == buf + rest
    requires |buf| == if 0 <= size <= |bytes| - n then size else |bytes| - n
    ensures NextMessage(bytes).Some? && NextMessage(bytes).value.0 == buf && bytes[NextMessage(bytes).value.1..] == rest
  {
    assert buf == bytes[n..][..|buf|] && rest == bytes[n..][|buf|..];
    assert bytes[n..][..|buf|] == bytes[n..n + |buf|] && bytes[n..][|buf|..] == bytes[n + |buf|..];
    assert bytes[n..|bytes|] == bytes[n..];
  }

  /** The parser of the message type is a parameter: `accepts` says which bodies it takes. */
  method DecodeMessage(f: Reader, accepts: Message -> bool) returns (r: Outcome)
    requires f.Valid()
    modifies f`pos
    ensures f.Valid() && Outcomes(old(f.Rest()), accepts, r, f.Rest())
    ensures Returns(old(f.Rest()), accepts, r, f.Rest())
  {
    ghost var all := f.Rest();
    OutcomesReturn(all, accepts);
    var d := DecodeVarint32(f);
    match d {
      case EndOfFile => return NoMessage;
      case TooLong => return NoMessage;
      case Value(size, n) =>
        if size == 0 {
          return NoMessage;
        }
        ghost var before := f.Rest();
        assert before == all[n..] && |before| == |all| - n;
        var buf := f.Read(size);
        BodyRead(all, size, n, buf, f.Rest());
        return if accepts(buf) then Got(buf) else Raised;
    }
  }

  /** The messages before the first one the parser refuses. */
  function Taken(accepts: Message -> bool, ms: seq<Message>): seq<Message> {
    if ms == [] || !accepts(ms[0]) then [] else [ms[0]] + Taken(accepts, ms[1..])
  }

  /** What a stream holds next, with what the parser makes of it. */
  function Next(accepts: Message -> bool, bytes: seq<byte>): Outcome {
    match NextMessage(bytes)
    case None => NoMessage
    case Some((m, n)) => if accepts(m) then Got(m) else Raised
  }

  ghost predicate Refuses(accepts: Message -> bool, ms: seq<Message>) {
    exists m :: m in ms && !accepts(m)
  }

  lemma MessagesNext(accepts: Message -> bool, bytes: seq<byte>)
    ensures !Next(accepts, bytes).Got? ==>
              Taken(accepts, Messages(bytes)) == [] && (Refuses(accepts, Messages(bytes)) <==> Next(accepts, bytes).Raised?)
    ensures Next(accepts, bytes).Got? ==>
              var rest := Messages(bytes[NextMessage(bytes).value.1..]);
              && Taken(accepts, Messages(bytes)) == [Next(accepts, bytes).m] + Taken(accepts, rest)
              && (Refuses(accepts, Messages(bytes)) <==> Refuses(accepts, rest))
  {
    if NextMessage(bytes).Some? {
      var m, rest := NextMessage(bytes).value.0, Messages(bytes[NextMessage(bytes).value.1..]);
      assert Messages(bytes) == [m] + rest && ([m] + rest)[1..] == rest;
      assert m in Messages(bytes);
    }
  }

  /** What is read so far and what the rest of the stream gives make the whole. */
  ghost predicate Reading(accepts: Message -> bool, bytes: seq<byte>, ms: seq<Message>, before: seq<byte>) {
    && ms + Taken(accepts, Messages(before)) == Taken(accepts, Messages(bytes))
    && (Refuses(accepts, Messages(before)) <==> Refuses(accepts, Messages(bytes)))
  }

  lemma ReadingNext(accepts: Message -> bool, bytes: seq<byte>, ms: seq<Message>, before: seq<byte>)
    requires Reading(accepts, bytes, ms, before) && Next(accepts, before).Got?
    ensures Reading(accepts, bytes, ms + [Next(accepts, before).m], before[NextMessage(before).value.1..])
  {
    MessagesNext(accepts, before);
    var m, rest := Next(accepts, before).m, Taken(accepts, Messages(before[NextMessage(before).value.1..]));
    assert ms + ([m] + rest) == (ms + [m]) + rest;
  }

  lemma ReadingDone(accepts: Message -> bool, bytes: seq<byte>, ms: seq<Message>, before: seq<byte>)
    requires Reading(accepts, bytes, ms, before) && !Next(accepts, before).Got?
    ensures ms == Taken(accepts, Messages(bytes))
    ensures Next(accepts, before).Raised? <==> Refuses(accepts, Messages(bytes))
  {
    MessagesNext(accepts, before);
  }

  // ----- streams in the source's terms -----

  /** The stream starts with a message: a length that is not 0 and as many bytes, or all there are. */
  ghost predicate Begins(bytes: seq<byte>, m: Message, after: seq<byte>) {
    exists size: int, n: nat, rest: seq<byte> ::
      && Decodes(bytes, Value(size, n), rest) && size != 0 && rest == m + after
      && |m| == if 0 <= size <= |rest| then size else |rest|
  }

  /** What a call returns: a message the parser takes, an error on one it does not take, or False if there is none. */
  ghost predicate Returns(bytes: seq<byte>, accepts: Message -> bool, r: Outcome, rest: seq<byte>) {
    match r
    case Got(m) => Begins(bytes, m, rest) && accepts(m)
    case Raised => exists m: Message :: Begins(bytes, m, rest) && !accepts(m)
    case NoMessage => forall m: Message, after: seq<byte> :: !Begins(bytes, m, after)
  }

  lemma OutcomesReturn(bytes: seq<byte>, accepts: Message -> bool)
    ensures forall r, rest :: Outcomes(bytes, accepts, r, rest) ==> Returns(bytes, accepts, r, rest)
  {
    forall m: Message, after: seq<byte>
      ensures Begins(bytes, m, after) <==>
              NextMessage(bytes).Some? && m == NextMessage(bytes).value.0 && after == bytes[NextMessage(bytes).value.1..]
    {
      NextMeans(bytes, m, after);
    }
    forall r, rest | Outcomes(bytes, accepts, r, rest)
      ensures Returns(bytes, accepts, r, rest)
    {
      if NextMessage(bytes).Some? {
        assert Begins(bytes, NextMessage(bytes).value.0, rest);
      }
    }
  }

  /** The messages up to the first call that returns False or raises an error. */
  ghost predicate ReadsStream(bytes: seq<byte>, accepts: Message -> bool, ms: seq<Message>, raised: bool)
    decreases |ms|
  {
    if ms != [] then
      exists after: seq<byte> :: Begins(bytes, ms[0], after) && accepts(ms[0]) && ReadsStream(after, accepts, ms[1..], raised)
    else if raised then exists m: Message, after: seq<byte> :: Begins(bytes, m, after) && !accepts(m)
    else forall m: Message, after: seq<byte> :: !Begins(bytes, m, after)
  }

  lemma DecodesOnce(bytes: seq<byte>, r: Decoded, rest: seq<byte>)
    ensures Consumed(bytes) <= |bytes|
    ensures Decodes(bytes, r, rest) <==> r == Decode(bytes) && rest == bytes[Consumed(bytes)..]
  {
    DecodeMeans(bytes);
    if Decodes(bytes, r, rest) && r.Value? {
      LengthMeans(bytes, r.size - 1);
    }
  }

  lemma NextMeans(bytes: seq<byte>, m: Message, after: seq<byte>)
    ensures Begins(bytes, m, after) <==>
            NextMessage(bytes).Some? && m == NextMessage(bytes).value.0 && after == bytes[NextMessage(bytes).value.1..]
  {
    var d, rest := Decode(bytes), bytes[Consumed(bytes)..];
    forall r: Decoded, t: seq<byte>
      ensures Decodes(bytes, r, t) <==> r == d && t == rest
    {
      DecodesOnce(bytes, r, t);
    }
    if d.Value? && d.value != 0 {
      NextParts(bytes, d.value, d.size, rest, m, after);
    }
  }

  lemma NextParts(bytes: seq<byte>, size: int, n: nat, rest: seq<byte>, m: Message, after: seq<byte>)
    requires Decode(bytes) == Value(size, n) && size != 0 && rest == bytes[n..]
    ensures rest == m + after && |m| == (if 0 <= size <= |rest| then size else |rest|)
       <==> m == NextMessage(bytes).value.0 && after == bytes[NextMessage(bytes).value.1..]
  {
    var k := if 0 <= size <= |rest| then size else |rest|;
    assert NextMessage(bytes).value.0 == rest[..k] && bytes[NextMessage(bytes).value.1..] == rest[k..];
    assert rest == rest[..k] + rest[k..];
    if rest == m + after && |m| == k {
      assert m == (m + after)[..k] && after == (m + after)[k..];
    }
  }

  lemma {:induction false} MessagesMean(accepts: Message -> bool, bytes: seq<byte>)
    ensures ReadsStream(bytes, accepts, Taken(accepts, Messages(bytes)), Refuses(accepts, Messages(bytes)))
    decreases |bytes|
  {
    MessagesNext(accepts, bytes);
    forall m: Message, after: seq<byte>
      ensures Begins(bytes, m, after) <==>
              NextMessage(bytes).Some? && m == NextMessage(bytes).value.0 && after == bytes[NextMessage(bytes).value.1..]
    {
      NextMeans(bytes, m, after);
    }
    if NextMessage(bytes).Some? {
      var m, after := NextMessage(bytes).value.0, bytes[NextMessage(bytes).value.1..];
      assert Begins(bytes, m, after);
      if accepts(m) {
        MessagesMean(accepts, after);
        var ms := Taken(accepts, Messages(bytes));
        assert ms[0] == m && ms[1..] == Taken(accepts, Messages(after));
      }
    }
  }

  /** `while decodeMessage(...)`: an error of the parser ends it. */
  method ReadMessages(bytes: seq<byte>, accepts: Message -> bool) returns (ms: seq<Message>, raised: bool)
    ensures ReadsStream(bytes, accepts, ms, raised)
    ensures ms == Taken(accepts, Messages(bytes))
    ensures raised <==> Refuses(accepts, Messages(bytes))
  {
    ms := [];
    var f := new Reader(bytes);
    ghost var before := bytes;
    var r := DecodeMessage(f, accepts);
    while r.Got?
      invariant f.Valid() && r == Next(accepts, before) && Reading(accepts, bytes, ms, before)
      invariant r.Got? ==> f.Rest() == before[NextMessage(before).value.1..]
      decreases |before|
    {
      ReadingNext(accepts, bytes, ms, before);
      ms := ms + [r.m];
      before := f.Rest();
      r := DecodeMessage(f, accepts);
    }
    ReadingDone(accepts, bytes, ms, before);
    raised := r.Raised?;
    MessagesMean(accepts, bytes);
  }

  // ----- the stream read back -----

  lemma FrameBack(m: Message, rest: seq<byte>)
    requires |m| < MASK32
    ensures NextMessage(Frame(m) + rest) == if m == [] then None else Some((m, |Frame(m)|))
  {
    VarintBack(|m|, m + rest);
    assert Frame(m) + rest == Encode(|m|) + (m + rest);
    var n := |Encode(|m|)|;
    assert (Frame(m) + rest)[n..n + |m|] == m;
  }

  /** The messages before the first empty one. */
  function UntilEmpty(ms: seq<Message>): seq<Message> {
    if ms == [] || ms[0] == [] then [] else [ms[0]] + UntilEmpty(ms[1..])
  }

  /** Reading back what was written gives exactly the messages before the first empty one. */
  lemma {:induction false} StreamReadBack(ms: seq<Message>)
    requires forall i :: 0 <= i < |ms| ==> |ms[i]| < MASK32
    ensures Messages(FrameAll(ms)) == UntilEmpty(ms)
  {
    if ms == [] {
    } else {
      FrameBack(ms[0], FrameAll(ms[1..]));
      if ms[0] != [] {
        var bytes := FrameAll(ms);
        assert bytes == Frame(ms[0]) + FrameAll(ms[1..]);
        assert bytes[|Frame(ms[0])|..] == FrameAll(ms[1..]);
        StreamReadBack(ms[1..]);
      }
    }
  }

  lemma {:induction false} UntilEmptyAll(ms: seq<Message>)
    ensures UntilEmpty(ms) == ms <==> forall i :: 0 <= i < |ms| ==> ms[i] != []
  {
    if ms != [] && ms[0] != [] {
      UntilEmptyAll(ms[1..]);
      assert ms == [ms[0]] + ms[1..];
    }
  }

  /** Framing round trip: a written stream is read back as it was exactly when no message is empty. */
  lemma FramingRoundTrip(ms: seq<Message>)
    requires forall i :: 0 <= i < |ms| ==> |ms[i]| < MASK32
    ensures Messages(FrameAll(ms)) == ms <==> forall i :: 0 <= i < |ms| ==> ms[i] != []
  {
    StreamReadBack(ms);
    UntilEmptyAll(ms);
  }

  lemma {:induction false} TakenAll(accepts: Message -> bool, ms: seq<Message>)
    ensures Taken(accepts, ms) == ms <==> forall i :: 0 <= i < |ms| ==> accepts(ms[i])
  {
    if ms != [] && accepts(ms[0]) {
      TakenAll(accepts, ms[1..]);
      assert ms == [ms[0]] + ms[1..];
    }
  }

  /** With a parser: what it accepts of what was written is read back, without an error, exactly when no message is
      empty and all are accepted. */
  lemma ParsedRoundTrip(accepts: Message -> bool, ms: seq<Message>)
    requires forall i :: 0 <= i < |ms| ==> |ms[i]| < MASK32
    ensures Taken(accepts, Messages(FrameAll(ms))) == ms <==> forall i :: 0 <= i < |ms| ==> ms[i] != [] && accepts(ms[i])
  {
    StreamReadBack(ms);
    UntilEmptyAll(ms);
    TakenAll(accepts, ms);
    TakenShorter(accepts, UntilEmpty(ms));
    UntilEmptyShorter(ms);
  }

  lemma {:induction false} TakenShorter(accepts: Message -> bool, ms: seq<Message>)
    ensures |Taken(accepts, ms)| <= |ms| && (|Taken(accepts, ms)| == |ms| ==> Taken(accepts, ms) == ms)
  {
    if ms != [] && accepts(ms[0]) {
      TakenShorter(accepts, ms[1..]);
    }
  }

  lemma {:induction false} UntilEmptyShorter(ms: seq<Message>)
    ensures |UntilEmpty(ms)| <= |ms| && (|UntilEmpty(ms)| == |ms| ==> UntilEmpty(ms) == ms)
  {
    if ms != [] && ms[0] != [] {
      UntilEmptyShorter(ms[1..]);
    }
  }

  /** The length limit is needed: a message of 2^32 bytes is read back as the end of the stream. */
  lemma TooLargeMessage(m: Message, rest: seq<byte>)
    requires |m| == MASK32
    ensures NextMessage(Frame(m) + rest) == None
  {
    VarintRoundTrip(|m|, m + rest);
    assert Frame(m) + rest == Encode(|m|) + (m + rest);
  }
}
