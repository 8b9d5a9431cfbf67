/** basE91: an encoder and a decoder that each keep a queue of bits. */
module Base91 {
  import opened Options
  import opened Bits

  // ----- the alphabet -----

  const INV: nat := 91

  /** ENCTAB */
  function EncTab(i: nat): Byte
    requires i < 91
  {
    if i < 26 then 65 + i
    else if i < 52 then 97 + (i - 26)
    else if i < 62 then 48 + (i - 52)
    else if i == 62 then 33
    else if i < 67 then 35 + (i - 63)
    else if i < 72 then 40 + (i - 67)
    else if i < 74 then 46 + (i - 72)
    else if i < 81 then 58 + (i - 74)
    else if i == 81 then 91
    else if i < 86 then 93 + (i - 82)
    else if i < 90 then 123 + (i - 86)
    else 34
  }

  /** DECTAB */
  function DecTab(b: Byte): (d: nat)
    ensures d <= INV
  {
    if 65 <= b <= 90 then b - 65
    else if 97 <= b <= 122 then 26 + (b - 97)
    else if 48 <= b <= 57 then 52 + (b - 48)
    else if b == 33 then 62
    else if 35 <= b <= 38 then 63 + (b - 35)
    else if 40 <= b <= 44 then 67 + (b - 40)
    else if 46 <= b <= 47 then 72 + (b - 46)
    else if 58 <= b <= 64 then 74 + (b - 58)
    else if b == 91 then 81
    else if 93 <= b <= 96 then 82 + (b - 93)
    else if 123 <= b <= 126 then 86 + (b - 123)
    else if b == 34 then 90
    else INV
  }

  /** The tables are inverse to each other, and exactly the 91 bytes of the alphabet are valid. */
  lemma TablesAreInverse(i: nat, b: Byte)
    ensures i < 91 ==> DecTab(EncTab(i)) == i
    ensures DecTab(b) != INV ==> EncTab(DecTab(b)) == b
  {
  }

  // ----- the encoder -----

  /** `bits` pending bits, the oldest lowest. */
  datatype Queue = Queue(acc: nat, bits: nat)
  {
    ghost predicate Valid() {
      acc < Pow2(bits)
    }

    function With(value: nat, width: nat): Queue {
      Queue(acc + Shl(value, bits), bits + width)
    }

    function Without(width: nat): Queue
      requires width <= bits
    {
      Queue(Shr(acc, width), bits - width)
    }
  }

  const EMPTY := Queue(0, 0)

  /** A group takes 13 bits, or 14 when the lower 13 of them leave room. */
  function Width(acc: nat): (w: nat)
    ensures w == 13 || w == 14
  {
    if acc % 8192 > 88 then 13 else 14
  }

  function Symbols(value: nat): (out: seq<Byte>)
    requires value < 91 * 91
    ensures |out| == 2
  {
    [EncTab(value % 91), EncTab(value / 91)]
  }

  datatype Encoding = Encoding(queue: Queue, out: seq<Byte>)

  lemma GroupFits(acc: nat)
    ensures Low(acc, Width(acc)) < 91 * 91
    ensures Width(Low(acc, Width(acc))) == Width(acc)
  {
    SmallPowers();
    assert acc % 16384 % 8192 == acc % 8192 by { ModOfHalfRange(acc); }
  }

  lemma ModOfHalfRange(acc: nat)
    ensures acc % 16384 == acc % 8192 || acc % 16384 == acc % 8192 + 8192
    ensures acc % 16384 % 8192 == acc % 8192
  {
    var r := acc % 16384;
    ModIsUnique(acc, 8192, 2 * (acc / 16384) + r / 8192, r % 8192);
  }

  /** What one byte makes the encoder emit. */
  function EncodeByte(q: Queue, b: Byte): Encoding {
    var full := q.With(b, 8);
    if full.bits <= 13 then Encoding(full, [])
    else
      var w := Width(full.acc);
      GroupFits(full.acc);
      Encoding(full.Without(w), Symbols(Low(full.acc, w)))
  }

  function EncodeAll(q: Queue, data: seq<Byte>): Encoding {
    if data == [] then Encoding(q, [])
    else
      var prior := EncodeAll(q, data[..|data| - 1]);
      var last := EncodeByte(prior.queue, data[|data| - 1]);
      Encoding(last.queue, prior.out + last.out)
  }

  /** What `flush` emits. */
  function EncodeRest(q: Queue): seq<Byte>
    requires q.acc < 91 * 91
  {
    if q.bits == 0 then []
    else if q.bits > 7 || q.acc > 90 then Symbols(q.acc)
    else [EncTab(q.acc % 91)]
  }

  ghost predicate EncoderOk(q: Queue) {
    q.Valid() && q.bits <= 13
  }

  lemma WithIsValid(q: Queue, value: nat, width: nat)
    requires q.Valid() && value < Pow2(width)
    ensures q.With(value, width).Valid()
  {
    AboveFits(q.acc, q.bits, value, width);
  }

  lemma WithoutIsValid(q: Queue, width: nat)
    requires q.Valid() && width <= q.bits
    ensures q.Without(width).Valid()
  {
    ShrFits(q.acc, q.bits, width);
  }

  lemma ByteKeepsEncoder(q: Queue, b: Byte)
    requires EncoderOk(q)
    ensures EncoderOk(EncodeByte(q, b).queue)
  {
    SmallPowers();
    WithIsValid(q, b, 8);
    var full := q.With(b, 8);
    if full.bits > 13 {
      WithoutIsValid(full, Width(full.acc));
    }
  }

  lemma {:induction false} EncoderStaysOk(q: Queue, data: seq<Byte>)
    requires EncoderOk(q)
    ensures EncoderOk(EncodeAll(q, data).queue)
  {
    if data != [] {
      EncoderStaysOk(q, data[..|data| - 1]);
      ByteKeepsEncoder(EncodeAll(q, data[..|data| - 1]).queue, data[|data| - 1]);
    }
  }

  lemma RestFits(q: Queue)
    requires EncoderOk(q)
    ensures q.acc < 91 * 91
  {
    SmallPowers();
    Pow2Grows(q.bits, 13);
  }

  /** Pieces written one after the other encode like one. */
  lemma {:induction false} EncodeInPieces(q: Queue, a: seq<Byte>, b: seq<Byte>)
    ensures EncodeAll(q, a + b)
            == var first := EncodeAll(q, a); var second := EncodeAll(first.queue, b); Encoding(second.queue, first.out + second.out)
  {
    if b == [] {
      assert a + b == a;
    } else {
      EncodeInPieces(q, a, b[..|b| - 1]);
      assert (a + b)[..|a + b| - 1] == a + b[..|b| - 1];
    }
  }

  lemma MaskedIs(acc: nat)
    ensures BitAnd(acc, 8191) == Low(acc, 13) == acc % 8192
    ensures BitAnd(acc, 16383) == Low(acc, 14)
  {
    SmallPowers();
    MaskIsLow(acc, 13);
    MaskIsLow(acc, 14);
    hide BitAnd, Pow2;
  }

  class Encoder {
    var accumulator: nat
    var bits: nat
    var written: seq<Byte>

    ghost predicate Valid()
      reads this
    {
      EncoderOk(Pending())
    }

    ghost function Pending(): Queue
      reads this
    {
      Queue(accumulator, bits)
    }

    constructor ()
      ensures Valid() && Pending() == EMPTY && written == []
    {
      accumulator, bits, written := 0, 0, [];
    }

    /** One byte. */
    method PutByte(b: Byte)
      requires Valid()
      modifies this
      ensures Valid()
      ensures Pending() == EncodeByte(old(Pending()), b).queue
      ensures written == old(written) + EncodeByte(old(Pending()), b).out
    {
      ByteKeepsEncoder(Pending(), b);
      OrAbove(accumulator, b, bits);
      accumulator := BitOr(accumulator, Shl(b, bits));
      bits := bits + 8;
      if bits > 13 {
        GroupFits(accumulator);
        MaskedIs(accumulator);
        hide BitOr, BitAnd, Pow2, Shl, EncTab, Low, Shr;
        var val := BitAnd(accumulator, 8191);
        if val > 88 {
          accumulator := Shr(accumulator, 13);
          bits := bits - 13;
        } else {
          // We can take 14 bits
          val := BitAnd(accumulator, 16383);
          accumulator := Shr(accumulator, 14);
          bits := bits - 14;
        }
        written := written + [EncTab(val % 91), EncTab(val / 91)];
      }
    }

    method Write(buf: seq<Byte>)
      requires Valid()
      modifies this
      ensures Valid()
      ensures Pending() == EncodeAll(old(Pending()), buf).queue
      ensures written == old(written) + EncodeAll(old(Pending()), buf).out
    {
      hide EncoderOk, EncodeByte;
      for i := 0 to |buf|
        invariant Valid()
        invariant Pending() == EncodeAll(old(Pending()), buf[..i]).queue
        invariant written == old(written) + EncodeAll(old(Pending()), buf[..i]).out
      {
        PutByte(buf[i]);
        assert buf[..i + 1][..i] == buf[..i];
      }
      assert buf[..|buf|] == buf;
    }

    method Flush()
      requires Valid()
      modifies this
      ensures Valid() && Pending() == EMPTY
      ensures old(accumulator) < 91 * 91
      ensures written == old(written) + EncodeRest(old(Pending()))
    {
      RestFits(Pending());
      if bits > 0 {
        var val := accumulator;
        if bits > 7 || accumulator > 90 {
          written := written + [EncTab(val % 91), EncTab(val / 91)];
        } else {
          written := written + [EncTab(val % 91)];
        }
      }
      bits := 0;
      accumulator := 0;
    }
  }

  // ----- the decoder -----

  /** The pending bits, and the first symbol of a group that is not complete. */
  datatype State = State(queue: Queue, value: Option<nat>)

  const START := State(EMPTY, None)

  datatype Decoding = Decoding(state: State, out: seq<Byte>)

  /** Take whole bytes out of the queue. */
  function Drain(q: Queue): (r: Decoding)
    ensures r.state.queue.bits < 8 && r.state.value.None?
    decreases q.bits
  {
    if q.bits < 8 then Decoding(State(q, None), [])
    else
      var rest := Drain(q.Without(8));
      Decoding(rest.state, [Low(q.acc, 8)] + rest.out)
  }

  function DecodeByte(s: State, b: Byte): Decoding {
    var d := DecTab(b);
    if d == INV then Decoding(s, [])
    else match s.value
      case None => Decoding(s.(value := Some(d)), [])
      case Some(v) => Drain(s.queue.With(v + d * 91, Width(v + d * 91)))
  }

  function DecodeAll(s: State, data: seq<Byte>): Decoding {
    if data == [] then Decoding(s, [])
    else
      var prior := DecodeAll(s, data[..|data| - 1]);
      var last := DecodeByte(prior.state, data[|data| - 1]);
      Decoding(last.state, prior.out + last.out)
  }

  /** What `flush` emits: a single symbol completes the last byte; the shift drops what does not fit. */
  function DecodeRest(s: State): seq<Byte> {
    match s.value
    case None => []
    case Some(v) => [Low(s.queue.acc + Low(Shl(v, s.queue.bits), 8), 8)]
  }

  ghost predicate DecoderOk(s: State) {
    && s.queue.Valid() && s.queue.bits < 8
    && (s.value.Some? ==> s.value.value < 91)
  }

  lemma {:induction false} DrainIsValid(q: Queue)
    requires q.Valid()
    ensures Drain(q).state.queue.Valid()
    decreases q.bits
  {
    if q.bits >= 8 {
      WithoutIsValid(q, 8);
      DrainIsValid(q.Without(8));
    }
  }

  lemma GroupIsValid(q: Queue, value: nat)
    requires q.Valid() && value < 91 * 91
    ensures q.With(value, Width(value)).Valid()
  {
    SmallPowers();
    WithIsValid(q, value, Width(value));
  }

  lemma ByteKeepsDecoder(s: State, b: Byte)
    requires DecoderOk(s)
    ensures DecoderOk(DecodeByte(s, b).state)
  {
    var d := DecTab(b);
    if d != INV && s.value.Some? {
      hide DecTab, Width;
      GroupIsValid(s.queue, s.value.value + d * 91);
      DrainIsValid(s.queue.With(s.value.value + d * 91, Width(s.value.value + d * 91)));
    }
  }

  /** Pieces written one after the other decode like one. */
  lemma {:induction false} DecodeInPieces(s: State, a: seq<Byte>, b: seq<Byte>)
    ensures DecodeAll(s, a + b)
            == var first := DecodeAll(s, a); var second := DecodeAll(first.state, b); Decoding(second.state, first.out + second.out)
  {
    hide DecodeByte;
    if b == [] {
      assert a + b == a;
    } else {
      DecodeInPieces(s, a, b[..|b| - 1]);
      assert (a + b)[..|a + b| - 1] == a + b[..|b| - 1];
    }
  }

  lemma TakeGroupIs(acc: nat, bits: nat, group: nat)
    requires acc < Pow2(bits)
    ensures BitOr(acc, Shl(group, bits)) == acc + Shl(group, bits)
    ensures BitAnd(group, 8191) == group % 8192
  {
    OrAbove(acc, group, bits);
    SmallPowers();
    MaskIsLow(group, 13);
    hide BitOr, BitAnd, Shl, Pow2;
  }

  class Decoder {
    var accumulator: nat
    var bits: nat
    var value: Option<nat>
    var written: seq<Byte>

    ghost predicate Valid()
      reads this
    {
      DecoderOk(Now())
    }

    ghost function Now(): State
      reads this
    {
      State(Queue(accumulator, bits), value)
    }

    constructor ()
      ensures Valid() && Now() == START && written == []
    {
      accumulator, bits, value, written := 0, 0, None, [];
    }

    // The inner loop of `write`.
    method EmitBytes()
      requires Queue(accumulator, bits).Valid() && bits >= 8
      modifies this`accumulator, this`bits, this`written
      ensures Queue(accumulator, bits) == Drain(old(Queue(accumulator, bits))).state.queue
      ensures written == old(written) + Drain(old(Queue(accumulator, bits))).out
    {
      SmallPowers();
      ghost var start := Queue(accumulator, bits);
      var more := true;
      while more
        invariant more <==> bits >= 8
        invariant Drain(start).state == Drain(Queue(accumulator, bits)).state
        invariant old(written) + Drain(start).out == written + Drain(Queue(accumulator, bits)).out
        decreases bits
      {
        MaskIsLow(accumulator, 8);
        ghost var rest := Drain(Queue(accumulator, bits).Without(8)).out;
        assert written + ([Low(accumulator, 8)] + rest) == (written + [Low(accumulator, 8)]) + rest;
        hide BitAnd, Pow2;
        written := written + [BitAnd(accumulator, 255)];
        accumulator := Shr(accumulator, 8);
        bits := bits - 8;
        if bits < 8 {
          more := false;
        }
      }
    }

    method Write(buf: seq<Byte>)
      requires Valid()
      modifies this
      ensures Valid()
      ensures Now() == DecodeAll(old(Now()), buf).state
      ensures written == old(written) + DecodeAll(old(Now()), buf).out
    {
      hide DecoderOk, DecodeByte;
      for i := 0 to |buf|
        invariant Valid()
        invariant Now() == DecodeAll(old(Now()), buf[..i]).state
        invariant written == old(written) + DecodeAll(old(Now()), buf[..i]).out
      {
        TakeByte(buf[i]);
        assert buf[..i + 1][..i] == buf[..i];
      }
      assert buf[..|buf|] == buf;
    }

    /** One byte; what is not in the alphabet is skipped. */
    method TakeByte(b: Byte)
      requires Valid()
      modifies this
      ensures Valid()
      ensures Now() == DecodeByte(old(Now()), b).state
      ensures written == old(written) + DecodeByte(old(Now()), b).out
    {
      ByteKeepsDecoder(Now(), b);
      hide Drain, DecTab, Pow2;
      var d := DecTab(b);
      if d == INV {
        return;
      }
      if value.Some? {
        var group := value.value + d * 91;
        value := None;
        TakeGroup(group);
      } else {
        value := Some(d);
      }
    }

    // Two symbols have made a group.
    method TakeGroup(group: nat)
      requires Valid() && value.None? && group < 91 * 91
      modifies this`accumulator, this`bits, this`written
      ensures Now() == Drain(old(Now()).queue.With(group, Width(group))).state
      ensures written == old(written) + Drain(old(Now()).queue.With(group, Width(group))).out
    {
      GroupIsValid(Queue(accumulator, bits), group);
      TakeGroupIs(accumulator, bits, group);
      hide BitOr, BitAnd, Drain, Pow2, Shl;
      accumulator := BitOr(accumulator, Shl(group, bits));
      bits := bits + if BitAnd(group, 8191) > 88 then 13 else 14;
      EmitBytes();
    }

    method Flush()
      requires Valid()
      modifies this
      ensures Valid() && Now() == START
      ensures written == old(written) + DecodeRest(old(Now()))
    {
      if value.Some? {
        var v := value.value;
        value := None;
        var out := CompleteByte(accumulator, v, bits);
        written := written + [out];
      }
      hide *;
      bits := 0;
      accumulator := 0;
    }
  }

  // The last byte of the output, when a single symbol is left.
  method CompleteByte(accumulator: nat, value: nat, bits: nat) returns (out: Byte)
    requires accumulator < Pow2(bits) && bits < 8
    ensures [out] == DecodeRest(State(Queue(accumulator, bits), Some(value)))
  {
    CompleteByteIs(accumulator, value, bits);
    hide Pow2, BitOr, BitAnd, Shl, Low;
    var shifted := Low(Shl(value, bits), 8);
    out := BitOr(BitAnd(accumulator, 255), shifted);
  }

  lemma CompleteByteIs(acc: nat, v: nat, bits: nat)
    requires acc < Pow2(bits) && bits < 8
    ensures BitOr(BitAnd(acc, 255), Low(Shl(v, bits), 8)) == Low(acc + Low(Shl(v, bits), 8), 8) < 256
  {
    hide Pow2, BitOr, BitAnd, Shl, Low;
    SmallPowers();
    MaskIsLow(acc, 8);
    LastByte(acc, v, bits);
  }

  /** A symbol shifted above fewer than eight bits, cut off at eight. */
  lemma LastByte(acc: nat, v: nat, bits: nat)
    requires acc < Pow2(bits) && bits < 8
    ensures Low(acc, 8) == acc && Low(Shl(v, bits), 8) == Shl(Low(v, 8 - bits), bits)
    ensures BitOr(acc, Low(Shl(v, bits), 8)) == acc + Low(Shl(v, bits), 8) < Pow2(8)
    ensures Low(acc + Low(Shl(v, bits), 8), 8) == acc + Low(Shl(v, bits), 8)
  {
    Pow2Grows(bits, 8);
    hide Pow2, BitOr, Shl, Shr, Low;
    assert Shl(0, 8) == 0 by { ShlZero(8); }
    SplitIsUnique(acc, 8, acc, 0);
    var cut, rest := Low(v, 8 - bits), Shr(v, 8 - bits);
    SplitAt(v, 8 - bits);
    AboveFits(acc, bits, cut, 8 - bits);
    ShlAdds(cut, Shl(rest, 8 - bits), bits);
    ShlTwice(rest, 8 - bits, bits);
    SplitIsUnique(Shl(v, bits), 8, Shl(cut, bits), rest);
    OrAbove(acc, cut, bits);
    SplitIsUnique(acc + Shl(cut, bits), 8, acc + Shl(cut, bits), 0);
  }

  lemma ShlZero(k: nat)
    ensures Shl(0, k) == 0
  {
  }
}
