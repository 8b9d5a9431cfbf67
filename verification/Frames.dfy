/** The frames of the mux protocol: variable-length integers (LEB128, section 7.6 of DWARF version 5),
    encoding, and decoding from a buffer that fills up while bytes arrive. */
module Frames {
  import opened Options
  import opened Bits

  const U64_LIMIT: nat := 0x1_0000_0000_0000_0000
  const COMPRESSED_MASK: nat := 0x8000_0000_0000_0000

  type U64 = x: int | 0 <= x < U64_LIMIT

  // ----- variable-length integers -----

  function Leb(n: nat): (s: seq<Byte>)
    ensures |s| >= 1
  {
    if n < 128 then [n] else [n % 128 + 128] + Leb(n / 128)
  }

  datatype Read<T> = Done(value: T, consumed: nat) | Incomplete | TooLarge

  lemma LimitSteps(i: nat)
    requires i <= 9
    ensures i < 9 ==> Pow2(64 - 7 * i) == 128 * Pow2(64 - 7 * (i + 1)) && Pow2(64 - 7 * i) >= 256
    ensures i == 9 ==> Pow2(64 - 7 * i) == 2
  {
    SmallPowers();
    if i < 9 {
      Pow2Adds(7, 64 - 7 * (i + 1));
    }
  }

  lemma Limits()
    ensures Pow2(64) == U64_LIMIT == 2 * COMPRESSED_MASK
  {
    SmallPowers();
    hide Pow2;
    Pow2Adds(8, 8);
    Pow2Adds(16, 16);
    Pow2Adds(32, 32);
  }

  /** Read the digits from the `i`-th on; ten digits hold more than 64 bits, so the last may only be 0 or 1. */
  function ReadDigits(b: seq<Byte>, i: nat): (r: Read<nat>)
    requires i <= 9
    ensures r.Done? ==> 0 < r.consumed <= |b| && r.value < Pow2(64 - 7 * i)
  {
    LimitSteps(i);
    if b == [] then Incomplete
    else if i == 9 && b[0] > 1 then TooLarge
    else if b[0] < 128 then Done(b[0], 1)
    else
      match ReadDigits(b[1..], i + 1)
      case Done(v, n) => Done(b[0] - 128 + 128 * v, n + 1)
      case other => other
  }

  function ReadLeb(b: seq<Byte>): (r: Read<nat>)
    ensures r.Done? ==> 0 < r.consumed <= |b| && r.value < U64_LIMIT
  {
    Limits();
    ReadDigits(b, 0)
  }

  lemma {:induction false} DigitsRoundTrip(n: nat, i: nat, rest: seq<Byte>)
    requires i <= 9 && n < Pow2(64 - 7 * i)
    ensures ReadDigits(Leb(n) + rest, i) == Done(n, |Leb(n)|)
    decreases n
  {
    LimitSteps(i);
    hide Pow2;
    if n >= 128 {
      DigitsRoundTrip(n / 128, i + 1, rest);
      var digits := Leb(n) + rest;
      assert digits[1..] == Leb(n / 128) + rest;
      assert digits[0] == n % 128 + 128;
    }
  }

  lemma {:induction false} DigitsPrefix(n: nat, i: nat, k: nat)
    requires i <= 9 && n < Pow2(64 - 7 * i) && k < |Leb(n)|
    ensures ReadDigits(Leb(n)[..k], i) == Incomplete
    decreases n
  {
    LimitSteps(i);
    hide Pow2;
    if n >= 128 && k > 0 {
      DigitsPrefix(n / 128, i + 1, k - 1);
      assert Leb(n)[..k][1..] == Leb(n / 128)[..k - 1];
    }
  }

  /** What has been read does not depend on what follows. */
  lemma {:induction false} DigitsExtend(b: seq<Byte>, i: nat, rest: seq<Byte>)
    requires i <= 9 && !ReadDigits(b, i).Incomplete?
    ensures ReadDigits(b + rest, i) == ReadDigits(b, i)
    decreases |b|
  {
    if b[0] >= 128 && i < 9 {
      DigitsExtend(b[1..], i + 1, rest);
      assert (b + rest)[1..] == b[1..] + rest;
    }
  }

  lemma LebRoundTrip(n: U64, rest: seq<Byte>)
    ensures ReadLeb(Leb(n) + rest) == Done(n, |Leb(n)|)
  {
    Limits();
    DigitsRoundTrip(n, 0, rest);
  }

  lemma LebPrefix(n: U64, k: nat)
    requires k < |Leb(n)|
    ensures ReadLeb(Leb(n)[..k]) == Incomplete
  {
    Limits();
    DigitsPrefix(n, 0, k);
  }

  /** `encoded_length`: `k` bytes are enough exactly for the numbers of 7 bits a byte. */
  lemma {:induction false} LebLength(n: nat, k: nat)
    requires k >= 1
    ensures |Leb(n)| <= k <==> n < Pow2(7 * k)
    decreases k
  {
    var below := 7 * (k - 1);
    SmallPowers();
    Pow2Adds(7, below);
    assert 7 + below == 7 * k;
    if k > 1 && n >= 128 {
      LebLength(n / 128, k - 1);
    } else if k > 1 {
      assert Pow2(below) >= 1;
    }
  }

  lemma NextDigits(n: nat, b: nat)
    requires b > 0
    ensures n / (128 * b) == n / 128 / b
  {
    var m := n / 128;
    var q, r := m / b, m % b;
    var t := b * q;
    assert m == t + r;
    assert (128 * b) * q == 128 * t;
    ModIsUnique(n, 128 * b, q, 128 * r + n % 128);
  }

  /** Each byte holds 7 bits of the number, the lowest first, and all but the last have the top bit set. */
  lemma {:induction false} LebDigit(n: nat, i: nat)
    requires i < |Leb(n)|
    ensures Leb(n)[i] == n / Pow2(7 * i) % 128 + (if i < |Leb(n)| - 1 then 128 else 0)
    decreases i
  {
    SmallPowers();
    if i > 0 {
      var below := 7 * (i - 1);
      LebDigit(n / 128, i - 1);
      Pow2Adds(7, below);
      assert 7 + below == 7 * i;
      NextDigits(n, Pow2(below));
    }
  }

  /** `read_u64_async`: one byte at a time, trying again after each. It agrees with reading everything at once. */
  method ReadU64Async(input: seq<Byte>) returns (r: Read<nat>, taken: nat)
    ensures r == ReadLeb(input)
    ensures r.Done? ==> taken == r.consumed
  {
    var buf: seq<Byte> := [];
    while |buf| < |input|
      invariant |buf| <= |input| && buf == input[..|buf|]
      invariant ReadLeb(buf) == Incomplete
    {
      var next := buf + [input[|buf|]];
      assert input == next + input[|next|..];
      StopsAtLastByte(buf, input[|buf|]);
      buf := next;
      var result := ReadLeb(buf);
      if !result.Incomplete? {
        DigitsExtend(buf, 0, input[|buf|..]);
        return result, |buf|;
      }
    }
    assert buf == input;
    return Incomplete, |buf|;
  }

  lemma {:induction false} DigitsStopAtLast(b: seq<Byte>, i: nat, x: Byte)
    requires i <= 9 && ReadDigits(b, i) == Incomplete
    ensures ReadDigits(b + [x], i).Done? ==> ReadDigits(b + [x], i).consumed == |b| + 1
    decreases |b|
  {
    if b != [] {
      DigitsStopAtLast(b[1..], i + 1, x);
      assert (b + [x])[1..] == b[1..] + [x];
    }
  }

  lemma StopsAtLastByte(b: seq<Byte>, x: Byte)
    requires ReadLeb(b) == Incomplete
    ensures ReadLeb(b + [x]).Done? ==> ReadLeb(b + [x]).consumed == |b| + 1
  {
    DigitsStopAtLast(b, 0, x);
  }

  // ----- frames -----

  /** A payload is opaque; `compressed` says how to read it. */
  datatype Frame = Frame(ident: U64, serial: U64, data: seq<Byte>, compressed: bool)

  function EncodedLength(n: U64): nat {
    |Leb(n)|
  }

  /** The length that goes on the wire, without the flag. */
  function FrameLength(f: Frame): nat {
    |f.data| + EncodedLength(f.ident) + EncodedLength(f.serial)
  }

  /** No vector is longer than this. */
  predicate Encodable(f: Frame) {
    FrameLength(f) < COMPRESSED_MASK
  }

  function Header(f: Frame): seq<Byte>
    requires Encodable(f)
  {
    Leb(if f.compressed then FrameLength(f) + COMPRESSED_MASK else FrameLength(f)) + Leb(f.serial) + Leb(f.ident)
  }

  function EncodeFrame(f: Frame): seq<Byte>
    requires Encodable(f)
  {
    Header(f) + f.data
  }

  /** `encode_raw_as_vec` */
  method EncodeRawAsVec(ident: U64, serial: U64, data: seq<Byte>, isCompressed: bool) returns (buffer: seq<Byte>)
    requires Encodable(Frame(ident, serial, data, isCompressed))
    ensures buffer == EncodeFrame(Frame(ident, serial, data, isCompressed))
  {
    var len := |data| + EncodedLength(ident) + EncodedLength(serial);
    Limits();
    Mask(len);
    var maskedLen := if isCompressed then BitOr(len, COMPRESSED_MASK) else len;
    hide Leb, BitOr, Pow2;
    buffer := Leb(maskedLen);
    buffer := buffer + Leb(serial);
    buffer := buffer + Leb(ident);
    buffer := buffer + data;
  }

  /** Setting and testing the flag in the highest of 64 bits. */
  lemma Mask(len: nat)
    requires len < COMPRESSED_MASK
    ensures BitOr(len, COMPRESSED_MASK) == len + COMPRESSED_MASK
  {
    Limits();
    assert Pow2(64) == 2 * Pow2(63);
    OrAbove(len, 1, 63);
  }

  datatype Decoded = Decoded(frame: Frame, consumed: nat) | NeedMore | Corrupt

  /** `decode_raw` on what a cursor can see; running out of bytes anywhere is an unexpected end of file. */
  function DecodeRaw(b: seq<Byte>): (r: Decoded)
    ensures r.Decoded? ==> 0 < r.consumed <= |b|
  {
    DecodeAfterLength(b, ReadLeb(b))
  }

  function DecodeAfterLength(b: seq<Byte>, length: Read<nat>): (r: Decoded)
    requires length.Done? ==> length.consumed <= |b| && length.value < U64_LIMIT
    ensures r.Decoded? ==> length.Done? && length.consumed <= r.consumed <= |b|
  {
    match length
    case Incomplete => NeedMore
    case TooLarge => Corrupt
    case Done(masked, n) =>
      var serial := ReadLeb(b[n..]);
      match serial
      case Incomplete => NeedMore
      case TooLarge => Corrupt
      case Done(_, k) =>
        var ident := ReadLeb(b[n + k..]);
        match ident
        case Incomplete => NeedMore
        case TooLarge => Corrupt
        case Done(_, m) => DecodeBody(b, masked, serial.value, ident.value, n + k + m)
  }

  /** The payload starts at `start`. */
  function DecodeBody(b: seq<Byte>, masked: U64, serial: U64, ident: U64, start: nat): (r: Decoded)
    requires start <= |b|
    ensures r.Decoded? ==> start <= r.consumed <= |b|
  {
    var len := masked % COMPRESSED_MASK;
    var header := EncodedLength(ident) + EncodedLength(serial);
    if len < header then Corrupt
    else if |b| - start < len - header then NeedMore
    else
      Decoded(Frame(ident, serial, b[start..start + (len - header)], masked >= COMPRESSED_MASK), start + (len - header))
  }

  function MaskedLength(f: Frame): U64
    requires Encodable(f)
  {
    if f.compressed then FrameLength(f) + COMPRESSED_MASK else FrameLength(f)
  }

  lemma BodyRoundTrip(b: seq<Byte>, f: Frame, start: nat, rest: seq<Byte>)
    requires Encodable(f) && start <= |b| && b[start..] == f.data + rest
    ensures DecodeBody(b, MaskedLength(f), f.serial, f.ident, start) == Decoded(f, start + |f.data|)
  {
    hide Leb;
    assert MaskedLength(f) % COMPRESSED_MASK == FrameLength(f);
    assert b[start..start + |f.data|] == b[start..][..|f.data|];
  }

  /** Where the parts of an encoded frame are. */
  lemma FrameParts(f: Frame, rest: seq<Byte>) returns (t1: seq<Byte>, t2: seq<Byte>, t3: seq<Byte>)
    requires Encodable(f)
    ensures var a, s, i := Leb(MaskedLength(f)), Leb(f.serial), Leb(f.ident);
            var b := EncodeFrame(f) + rest;
            && |EncodeFrame(f)| == |a| + |s| + |i| + |f.data| <= |b|
            && b == a + t1 && t1 == s + t2 && t2 == i + t3 && t3 == f.data + rest
            && b[|a|..] == t1 && b[|a| + |s|..] == t2 && b[|a| + |s| + |i|..] == t3
  {
    hide Leb;
    t3 := f.data + rest;
    t2 := Leb(f.ident) + t3;
    t1 := Leb(f.serial) + t2;
  }

  /** Decoding what starts with an encoded frame gives that frame and takes exactly its bytes. */
  lemma FrameRoundTrip(f: Frame, rest: seq<Byte>)
    requires Encodable(f)
    ensures DecodeRaw(EncodeFrame(f) + rest) == Decoded(f, |EncodeFrame(f)|)
  {
    hide *;
    var b := EncodeFrame(f) + rest;
    var t1, t2, t3 := FrameParts(f, rest);
    LebRoundTrip(MaskedLength(f), t1);
    LebRoundTrip(f.serial, t2);
    LebRoundTrip(f.ident, t3);
    HeaderIsRead(b, MaskedLength(f), f.serial, f.ident, |Leb(MaskedLength(f))|, |Leb(f.serial)|, |Leb(f.ident)|);
    BodyRoundTrip(b, f, |Leb(MaskedLength(f))| + |Leb(f.serial)| + |Leb(f.ident)|, rest);
  }

  /** What is on the wire: the length of all that follows it, with the flag in the highest of 64 bits, the
      serial number, the ident and the payload. */
  lemma FrameLayout(f: Frame) returns (n: nat, k: nat, m: nat)
    requires Encodable(f)
    ensures var b := EncodeFrame(f);
            && n + k + m <= |b|
            && ReadLeb(b) == Done(|b| - n + (if f.compressed then 0x8000_0000_0000_0000 else 0), n)
            && ReadLeb(b[n..]) == Done(f.serial, k)
            && ReadLeb(b[n + k..]) == Done(f.ident, m)
            && b[n + k + m..] == f.data
  {
    var b := EncodeFrame(f);
    n, k, m := |Leb(MaskedLength(f))|, |Leb(f.serial)|, |Leb(f.ident)|;
    hide Leb, ReadLeb;
    var t1, t2, t3 := FrameParts(f, []);
    assert b + [] == b;
    LebRoundTrip(MaskedLength(f), t1);
    LebRoundTrip(f.serial, t2);
    LebRoundTrip(f.ident, t3);
  }

  lemma HeaderIsRead(b: seq<Byte>, masked: U64, serial: U64, ident: U64, n: nat, k: nat, m: nat)
    requires n + k <= |b| && ReadLeb(b) == Done(masked, n) && ReadLeb(b[n..]) == Done(serial, k) && ReadLeb(b[n + k..]) == Done(ident, m)
    ensures n + k + m <= |b| && DecodeRaw(b) == DecodeBody(b, masked, serial, ident, n + k + m)
  {
    hide ReadLeb, DecodeBody;
  }

  /** Of an incomplete frame nothing is decoded. */
  lemma FramePrefix(f: Frame, k: nat)
    requires Encodable(f) && k < |EncodeFrame(f)|
    ensures DecodeRaw(EncodeFrame(f)[..k]) == NeedMore
  {
    var a, s, i := Leb(MaskedLength(f)), Leb(f.serial), Leb(f.ident);
    var b := EncodeFrame(f)[..k];
    hide Leb, ReadLeb, DecodeBody;
    assert EncodeFrame(f) == a + (s + (i + f.data));
    if k < |a| {
      assert b == a[..k];
      LebPrefix(MaskedLength(f), k);
    } else {
      LebRoundTrip(MaskedLength(f), b[|a|..]);
      assert b[|a|..] == (s + (i + f.data))[..k - |a|];
      assert b == a + b[|a|..];
      if k < |a| + |s| {
        assert b[|a|..] == s[..k - |a|];
        LebPrefix(f.serial, k - |a|);
      } else {
        LebRoundTrip(f.serial, b[|a| + |s|..]);
        assert b[|a|..] == s + b[|a| + |s|..];
        PrefixAfterSerial(f, k, a, s, i, b);
      }
    }
  }

  lemma PrefixAfterSerial(f: Frame, k: nat, a: seq<Byte>, s: seq<Byte>, i: seq<Byte>, b: seq<Byte>)
    requires Encodable(f) && a == Leb(MaskedLength(f)) && s == Leb(f.serial) && i == Leb(f.ident)
    requires |a| + |s| <= k < |EncodeFrame(f)| && b == EncodeFrame(f)[..k]
    requires ReadLeb(b) == Done(MaskedLength(f), |a|) && ReadLeb(b[|a|..]) == Done(f.serial, |s|)
    ensures DecodeRaw(b) == NeedMore
  {
    hide Leb, ReadLeb;
    if k < |a| + |s| + |i| {
      assert b[|a| + |s|..] == i[..k - |a| - |s|];
      LebPrefix(f.ident, k - |a| - |s|);
    } else {
      LebRoundTrip(f.ident, b[|a| + |s| + |i|..]);
      assert b[|a| + |s|..] == i + b[|a| + |s| + |i|..];
      assert MaskedLength(f) % COMPRESSED_MASK == FrameLength(f);
    }
  }

  // ----- decoding while bytes arrive -----

  const CHUNK: nat := 4096

  /** What one read brings; a read that brings nothing is the end of the stream. */
  type Chunk = s: seq<Byte> | 0 < |s| <= CHUNK witness [0]

  /** What a read from the peer can come to. When there is nothing left, the stream has ended. */
  datatype Event = Bytes(bytes: Chunk) | WouldBlock | Failed

  /** The bytes still to be read. */
  function Unread(events: seq<Event>): seq<Byte> {
    if events == [] then []
    else (if events[0].Bytes? then events[0].bytes else []) + Unread(events[1..])
  }

  class Wire {
    var events: seq<Event>

    constructor (events: seq<Event>)
      ensures this.events == events
    {
      this.events := events;
    }

    /** None is the end of the stream. */
    method Read() returns (e: Option<Event>)
      modifies this
      ensures if old(events) == [] then e == None && events == [] else e == Some(old(events)[0]) && events == old(events)[1..]
    {
      if events == [] {
        return None;
      }
      e := Some(events[0]);
      events := events[1..];
    }
  }

  class Buffer {
    var bytes: seq<Byte>

    constructor ()
      ensures bytes == []
    {
      bytes := [];
    }
  }

  datatype Outcome = Got(frame: Frame) | Nothing | EndOfFile | ReadFailed | CorruptFrame

  /** `stream_decode`: a decoded frame is dropped from the front of the buffer; otherwise the buffer stays. */
  method StreamDecode(buffer: Buffer) returns (r: Decoded)
    modifies buffer
    ensures r == DecodeRaw(old(buffer.bytes))
    ensures buffer.bytes == if r.Decoded? then old(buffer.bytes)[r.consumed..] else old(buffer.bytes)
  {
    r := DecodeRaw(buffer.bytes);
    if r.Decoded? {
      var remain := |buffer.bytes| - r.consumed;
      buffer.bytes := buffer.bytes[r.consumed..r.consumed + remain];
    }
  }

  datatype Attempt = Attempt(outcome: Outcome, bytes: seq<Byte>, events: seq<Event>)

  /** What one call of `try_read_and_decode` comes to. */
  function TryRead(bytes: seq<Byte>, events: seq<Event>): Attempt
    decreases |events|
  {
    match DecodeRaw(bytes)
    case Decoded(f, n) => Attempt(Got(f), bytes[n..], events)
    case Corrupt => Attempt(CorruptFrame, bytes, events)
    case NeedMore =>
      if events == [] then Attempt(EndOfFile, bytes, [])
      else match events[0]
        case WouldBlock => Attempt(Nothing, bytes, events[1..])
        case Failed => Attempt(ReadFailed, bytes, events[1..])
        case Bytes(more) => TryRead(bytes + more, events[1..])
  }

  /** `try_read_and_decode` */
  method TryReadAndDecode(r: Wire, buffer: Buffer) returns (outcome: Outcome)
    modifies r, buffer
    ensures Attempt(outcome, buffer.bytes, r.events) == TryRead(old(buffer.bytes), old(r.events))
  {
    hide DecodeRaw;
    while true
      invariant TryRead(buffer.bytes, r.events) == TryRead(old(buffer.bytes), old(r.events))
      decreases |r.events|
    {
      var decoded := StreamDecode(buffer);
      if decoded.Decoded? {
        return Got(decoded.frame);
      }
      if decoded.Corrupt? {
        return CorruptFrame;
      }
      var e := r.Read();
      if e.None? {
        return EndOfFile;
      }
      match e.value {
        case WouldBlock => return Nothing;
        case Failed => return ReadFailed;
        case Bytes(more) => buffer.bytes := buffer.bytes + more;
      }
    }
  }

  predicate AllEncodable(frames: seq<Frame>) {
    forall i :: 0 <= i < |frames| ==> Encodable(frames[i])
  }

  function EncodeFrames(frames: seq<Frame>): seq<Byte>
    requires AllEncodable(frames)
  {
    if frames == [] then [] else EncodeFrame(frames[0]) + EncodeFrames(frames[1..])
  }

  /** Buffer and unread bytes together are the frames still to come. */
  ghost predicate InStep(frames: seq<Frame>, bytes: seq<Byte>, events: seq<Event>) {
    AllEncodable(frames) && bytes + Unread(events) == EncodeFrames(frames)
  }

  /** No whole frame is in the buffer. */
  ghost predicate BeforeFrameEnds(frames: seq<Frame>, bytes: seq<Byte>)
    requires AllEncodable(frames)
  {
    if frames == [] then bytes == [] else bytes < EncodeFrame(frames[0])
  }

  /** What the buffer decodes to while it is in step. */
  lemma BufferDecodes(frames: seq<Frame>, bytes: seq<Byte>, events: seq<Event>)
    requires InStep(frames, bytes, events)
    ensures match DecodeRaw(bytes)
            case Decoded(f, n) => frames != [] && f == frames[0] && InStep(frames[1..], bytes[n..], events)
            case NeedMore => BeforeFrameEnds(frames, bytes)
            case Corrupt => false
  {
    var all := bytes + Unread(events);
    if frames == [] {
      assert bytes == [];
    } else {
      var first := EncodeFrame(frames[0]);
      var rest := EncodeFrames(frames[1..]);
      hide EncodeFrame, DecodeRaw, Unread;
      assert all == first + rest;
      if |bytes| < |first| {
        assert bytes == all[..|bytes|] == first[..|bytes|];
        FramePrefix(frames[0], |bytes|);
      } else {
        assert bytes[..|first|] == all[..|first|] == first;
        assert bytes == first + bytes[|first|..];
        FrameRoundTrip(frames[0], bytes[|first|..]);
        assert bytes[|first|..] + Unread(events) == all[|first|..] == rest;
      }
    }
  }

  lemma ReadMore(bytes: seq<Byte>, events: seq<Event>)
    requires events != []
    ensures bytes + Unread(events) == (if events[0].Bytes? then bytes + events[0].bytes else bytes) + Unread(events[1..])
  {
  }

  /** One call, however the bytes are split into reads: it returns the next frame, or it would block (or
      fails as the peer did) before the next frame is complete, or it ends where the frames end; and what
      is left is always the frames still to come. */
  lemma {:induction false} CallStaysInStep(frames: seq<Frame>, bytes: seq<Byte>, events: seq<Event>)
    requires InStep(frames, bytes, events)
    ensures var a := TryRead(bytes, events);
            match a.outcome
            case Got(f) => frames != [] && f == frames[0] && InStep(frames[1..], a.bytes, a.events)
            case Nothing => InStep(frames, a.bytes, a.events) && BeforeFrameEnds(frames, a.bytes)
            case ReadFailed => InStep(frames, a.bytes, a.events) && BeforeFrameEnds(frames, a.bytes)
            case EndOfFile => frames == [] && a.bytes == []
            case CorruptFrame => false
    decreases |events|
  {
    BufferDecodes(frames, bytes, events);
    hide DecodeRaw, EncodeFrame;
    if DecodeRaw(bytes).NeedMore? {
      if events == [] {
        assert bytes + Unread(events) == bytes;
      } else {
        ReadMore(bytes, events);
        if events[0].Bytes? {
          hide Unread, EncodeFrames;
          CallStaysInStep(frames, bytes + events[0].bytes, events[1..]);
        }
      }
    }
  }

  /** A call that returns a frame uses bytes up, any other uses events up and keeps the bytes. */
  lemma {:induction false} CallUses(bytes: seq<Byte>, events: seq<Event>)
    ensures var a := TryRead(bytes, events);
            && |a.bytes| + |Unread(a.events)| <= |bytes| + |Unread(events)|
            && |a.events| <= |events|
            && (a.outcome.Got? ==> |a.bytes| + |Unread(a.events)| < |bytes| + |Unread(events)|)
            && (a.outcome.Nothing? ==> |a.events| < |events|)
    decreases |events|
  {
    hide DecodeRaw;
    if DecodeRaw(bytes).NeedMore? && events != [] && events[0].Bytes? {
      ReadMore(bytes, events);
      CallUses(bytes + events[0].bytes, events[1..]);
    }
  }

  /** What a caller gets who calls again after every frame and every time reading would block. */
  function Received(bytes: seq<Byte>, events: seq<Event>): seq<Frame>
    decreases |bytes| + |Unread(events)|, |events|
  {
    CallUses(bytes, events);
    var a := TryRead(bytes, events);
    match a.outcome
    case Got(f) => [f] + Received(a.bytes, a.events)
    case Nothing => Received(a.bytes, a.events)
    case _ => []
  }

  /** However the bytes of well-formed frames are split into reads, exactly those frames are received, in
      order. */
  lemma {:induction false} FramesArrive(frames: seq<Frame>, bytes: seq<Byte>, events: seq<Event>)
    requires InStep(frames, bytes, events)
    requires forall i :: 0 <= i < |events| ==> !events[i].Failed?
    ensures Received(bytes, events) == frames
    decreases |bytes| + |Unread(events)|, |events|
  {
    CallStaysInStep(frames, bytes, events);
    CallUses(bytes, events);
    EventsAreLeft(bytes, events);
    var a := TryRead(bytes, events);
    hide TryRead, InStep, BeforeFrameEnds, Unread;
    if a.outcome.Got? {
      FramesArrive(frames[1..], a.bytes, a.events);
      assert frames == [frames[0]] + frames[1..];
    } else if a.outcome.Nothing? {
      FramesArrive(frames, a.bytes, a.events);
    }
  }

  lemma {:induction false} EventsAreLeft(bytes: seq<Byte>, events: seq<Event>)
    requires forall i :: 0 <= i < |events| ==> !events[i].Failed?
    ensures var a := TryRead(bytes, events);
            !a.outcome.ReadFailed? && forall i :: 0 <= i < |a.events| ==> !a.events[i].Failed?
    decreases |events|
  {
    hide DecodeRaw;
    if DecodeRaw(bytes).NeedMore? && events != [] && events[0].Bytes? {
      EventsAreLeft(bytes + events[0].bytes, events[1..]);
    }
  }
}
