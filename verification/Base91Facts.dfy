/** What the encoder has taken in and the decoder has not yet given out is in their two queues. */
module Base91Facts {
  import opened Options
  import opened Bits
  import opened Base91

  function Encode(data: seq<Byte>): seq<Byte> {
    EncoderStaysOk(EMPTY, data);
    RestFits(EncodeAll(EMPTY, data).queue);
    EncodeAll(EMPTY, data).out + EncodeRest(EncodeAll(EMPTY, data).queue)
  }

  function Decode(text: seq<Byte>): seq<Byte> {
    DecodeAll(START, text).out + DecodeRest(DecodeAll(START, text).state)
  }

  /** The number whose bytes, lowest first, are `s`. */
  function Number(s: seq<Byte>): nat {
    if s == [] then 0 else s[0] + 256 * Number(s[1..])
  }

  lemma {:induction false} NumberAppend(s: seq<Byte>, b: Byte)
    ensures Number(s + [b]) == Number(s) + Shl(b, 8 * |s|)
  {
    if s == [] {
      assert s + [b] == [b] && [b][1..] == [];
    } else {
      NumberAppend(s[1..], b);
      assert (s + [b])[1..] == s[1..] + [b];
      ShlTwice(b, 8 * |s| - 8, 8);
      TimesByte(Shl(b, 8 * |s| - 8));
      hide Shl;
    }
  }

  lemma TimesByte(a: nat)
    ensures Shl(a, 8) == 256 * a
  {
    SmallPowers();
  }

  /** The pending bytes are the bits of the decoder's queue with those of the encoder's above them. */
  ghost predicate Holds(pending: seq<Byte>, d: Queue, e: Queue) {
    && d.bits + e.bits == 8 * |pending|
    && d.acc + Shl(e.acc, d.bits) == Number(pending)
  }

  lemma ByteComesIn(pending: seq<Byte>, d: Queue, e: Queue, b: Byte)
    requires Holds(pending, d, e)
    ensures Holds(pending + [b], d, e.With(b, 8))
  {
    hide Shl, Number;
    NumberAppend(pending, b);
    ShlAdds(e.acc, Shl(b, e.bits), d.bits);
    ShlTwice(b, e.bits, d.bits);
  }

  lemma BitsMoveOver(pending: seq<Byte>, d: Queue, e: Queue, w: nat)
    requires Holds(pending, d, e) && w <= e.bits
    ensures Holds(pending, d.With(Low(e.acc, w), w), e.Without(w))
  {
    hide Shl, Shr, Low, Number;
    SplitAt(e.acc, w);
    ShlAdds(Low(e.acc, w), Shl(Shr(e.acc, w), w), d.bits);
    ShlTwice(Shr(e.acc, w), w, d.bits);
  }

  lemma ByteGoesOut(pending: seq<Byte>, d: Queue, e: Queue)
    requires Holds(pending, d, e) && d.bits >= 8
    ensures |pending| > 0 && pending[0] == Low(d.acc, 8)
    ensures Holds(pending[1..], d.Without(8), e)
  {
    var x, n := pending[0], Number(pending[1..]);
    assert Number(pending) == x + 256 * n;
    SmallPowers();
    hide Pow2, Number, Shl, Shr, Low;
    // everything above the lowest byte
    var above := Shl(e.acc, d.bits - 8);
    ShlTwice(e.acc, d.bits - 8, 8);
    TimesByte(n);
    SplitAt(d.acc, 8);
    ShlAdds(Shr(d.acc, 8), above, 8);
    SplitIsUnique(x + Shl(n, 8), 8, x, n);
    SplitIsUnique(x + Shl(n, 8), 8, Low(d.acc, 8), Shr(d.acc, 8) + above);
  }

  /** Draining gives out the oldest pending bytes. */
  lemma {:induction false} DrainGivesOldest(pending: seq<Byte>, d: Queue, e: Queue)
    requires Holds(pending, d, e)
    ensures var r := Drain(d);
            && |r.out| <= |pending| && r.out == pending[..|r.out|]
            && Holds(pending[|r.out|..], r.state.queue, e)
    decreases d.bits
  {
    if d.bits >= 8 {
      ByteGoesOut(pending, d, e);
      DrainGivesOldest(pending[1..], d.Without(8), e);
      var rest := Drain(d.Without(8)).out;
      assert pending[1..][..|rest|] == pending[1..][..|rest|];
      assert pending[1 + |rest|..] == pending[1..][|rest|..];
      assert [pending[0]] + pending[1..][..|rest|] == pending[..1 + |rest|];
    }
  }

  /** Encoder and decoder after the bytes `taken`: the decoder has seen everything the encoder wrote. */
  ghost predicate Linked(taken: seq<Byte>, given: seq<Byte>, e: Queue, s: State) {
    && EncoderOk(e) && DecoderOk(s) && s.value.None?
    && given <= taken
    && Holds(taken[|given|..], s.queue, e)
  }

  lemma DecodeOne(s: State, a: Byte)
    ensures DecodeAll(s, [a]) == DecodeByte(s, a)
  {
    assert [a][..0] == [];
    hide DecodeByte;
    assert DecodeAll(s, []) == Decoding(s, []);
  }

  lemma DecodeTwo(s: State, a: Byte, b: Byte)
    ensures DecodeAll(s, [a, b])
            == var one := DecodeByte(s, a); var two := DecodeByte(one.state, b); Decoding(two.state, one.out + two.out)
  {
    assert [a, b][..1] == [a];
    DecodeOne(s, a);
    hide DecodeByte;
  }

  lemma SymbolsDecode(s: State, lo: nat, hi: nat)
    requires lo < 91 && hi < 91 && s.value.None?
    ensures DecodeAll(s, [EncTab(lo), EncTab(hi)]) == Drain(s.queue.With(lo + hi * 91, Width(lo + hi * 91)))
  {
    var first, second := EncTab(lo), EncTab(hi);
    TablesAreInverse(lo, first);
    TablesAreInverse(hi, second);
    DecodeTwo(s, first, second);
    hide EncTab, DecTab, Drain, Width, DecodeAll;
    assert DecodeByte(s, first) == Decoding(s.(value := Some(lo)), []);
    var two := DecodeByte(s.(value := Some(lo)), second);
    assert two == Drain(s.queue.With(lo + hi * 91, Width(lo + hi * 91)));
    assert [] + two.out == two.out;
  }

  /** The decoder undoes one group of symbols. */
  lemma GroupDecodes(s: State, value: nat)
    requires s.value.None? && value < 91 * 91
    ensures DecodeAll(s, Symbols(value)) == Drain(s.queue.With(value, Width(value)))
  {
    hide EncTab, DecodeAll, Drain, Width;
    SymbolsDecode(s, value % 91, value / 91);
  }

  lemma LinkStays(taken: seq<Byte>, given: seq<Byte>, e: Queue, s: State, b: Byte)
    requires Linked(taken, given, e, s)
    ensures var step := EncodeByte(e, b);
            var back := DecodeAll(s, step.out);
            Linked(taken + [b], given + back.out, step.queue, back.state)
  {
    var pending, full := taken[|given|..], e.With(b, 8);
    ByteComesIn(pending, s.queue, e, b);
    assert (taken + [b])[|given|..] == pending + [b];
    ByteKeepsEncoder(e, b);
    if full.bits > 13 {
      var w := Width(full.acc);
      GroupFits(full.acc);
      var value := Low(full.acc, w);
      GroupDecodes(s, value);
      BitsMoveOver(pending + [b], s.queue, full, w);
      var filled := s.queue.With(value, w);
      DrainGivesOldest(pending + [b], filled, full.Without(w));
      GroupIsValid(s.queue, value);
      DrainIsValid(filled);
      var out := Drain(filled).out;
      assert (taken + [b])[|given + out|..] == (pending + [b])[|out|..];
      assert given + out <= taken + [b];
    }
  }

  lemma {:induction false} RunsAreLinked(data: seq<Byte>)
    ensures var e := EncodeAll(EMPTY, data);
            var d := DecodeAll(START, e.out);
            Linked(data, d.out, e.queue, d.state)
  {
    hide *;
    if data == [] {
      NothingEncodes(EMPTY);
      NothingDecodes(START);
      LinkedAtFirst();
    } else {
      RunsAreLinked(data[..|data| - 1]);
      LinkedNext(data);
    }
  }

  lemma LinkedNext(data: seq<Byte>)
    requires data != []
    requires var e := EncodeAll(EMPTY, data[..|data| - 1]);
             var d := DecodeAll(START, e.out);
             Linked(data[..|data| - 1], d.out, e.queue, d.state)
    ensures var e := EncodeAll(EMPTY, data);
            var d := DecodeAll(START, e.out);
            Linked(data, d.out, e.queue, d.state)
  {
    hide *;
    var front, b := data[..|data| - 1], data[|data| - 1];
    var e := EncodeAll(EMPTY, front);
    var d := DecodeAll(START, e.out);
    EncodeLast(EMPTY, data);
    LinkStays(front, d.out, e.queue, d.state, b);
    DecodeInPieces(START, e.out, EncodeByte(e.queue, b).out);
    assert front + [b] == data;
  }

  lemma EncodeLast(q: Queue, data: seq<Byte>)
    requires data != []
    ensures EncodeAll(q, data) == var prior := EncodeAll(q, data[..|data| - 1]);
                                  var last := EncodeByte(prior.queue, data[|data| - 1]);
                                  Encoding(last.queue, prior.out + last.out)
  {
    hide EncodeByte;
  }

  lemma LinkedAtFirst()
    ensures Linked([], [], EMPTY, START)
  {
    var none: seq<Byte> := [];
    assert none[|none|..] == none;
  }

  /** A queue whose whole bytes are `pending` gives them all out. */
  lemma {:induction false} DrainGivesAll(pending: seq<Byte>, q: Queue)
    requires q.acc == Number(pending) && 8 * |pending| <= q.bits < 8 * |pending| + 8
    ensures Drain(q).out == pending
  {
    if pending != [] {
      SmallPowers();
      DrainGivesAll(pending[1..], q.Without(8));
      assert pending == [pending[0]] + pending[1..];
    }
  }

  /** `flush` on both sides after a group of two symbols. */
  lemma GroupCompletes(taken: seq<Byte>, given: seq<Byte>, e: Queue, s: State)
    requires Linked(taken, given, e, s) && e.bits > 0 && (e.bits > 7 || e.acc > 90) && e.acc < 91 * 91
    ensures var back := DecodeAll(s, Symbols(e.acc));
            back.out + DecodeRest(back.state) == taken[|given|..]
  {
    var pending := taken[|given|..];
    SmallPowers();
    Pow2Grows(e.bits, 13);
    if e.bits <= 7 {
      Pow2Grows(e.bits, 7);
      if e.bits < 7 {
        Pow2Grows(e.bits, 6);
      }
    }
    assert e.bits <= Width(e.acc) < e.bits + 8;
    GroupDecodes(s, e.acc);
    hide Width, Pow2, Number, Shl;
    DrainGivesAll(pending, s.queue.With(e.acc, Width(e.acc)));
  }

  lemma LastPending(pending: seq<Byte>, d: Queue, e: Queue)
    requires Holds(pending, d, e) && d.Valid() && d.bits < 8 && 0 < e.bits <= 7
    ensures |pending| == 1 && Low(d.acc + Low(Shl(e.acc, d.bits), 8), 8) == pending[0]
  {
    assert pending[1..] == [];
    assert Number(pending) == pending[0];
    SmallPowers();
    hide Pow2, Number, Shl, Shr, Low;
    ShlZero(8);
    SplitIsUnique(Shl(e.acc, d.bits), 8, Shl(e.acc, d.bits), 0);
    SplitIsUnique(pending[0], 8, pending[0], 0);
  }

  /** `flush` on both sides after a single symbol. */
  lemma SymbolCompletes(taken: seq<Byte>, given: seq<Byte>, e: Queue, s: State)
    requires Linked(taken, given, e, s) && 0 < e.bits <= 7 && e.acc <= 90
    ensures var back := DecodeAll(s, [EncTab(e.acc)]);
            back.out + DecodeRest(back.state) == taken[|given|..]
  {
    var pending := taken[|given|..];
    LastPending(pending, s.queue, e);
    TablesAreInverse(e.acc, EncTab(e.acc));
    DecodeOne(s, EncTab(e.acc));
    assert s.value.None?;
    hide EncTab, DecTab, Pow2, Shl, Low, Holds, Linked, DecodeAll;
    assert pending == [pending[0]];
  }

  /** `flush` on both sides gives out all that is pending. */
  lemma RestCompletes(taken: seq<Byte>, given: seq<Byte>, e: Queue, s: State)
    requires Linked(taken, given, e, s) && e.acc < 91 * 91
    ensures var back := DecodeAll(s, EncodeRest(e));
            back.out + DecodeRest(back.state) == taken[|given|..]
  {
    assert |given| <= |taken|;
    RestIs(e);
    hide *;
    if e.bits == 0 {
      NothingPending(taken, given, e, s);
    } else if e.bits > 7 || e.acc > 90 {
      GroupCompletes(taken, given, e, s);
    } else {
      SymbolCompletes(taken, given, e, s);
    }
  }

  lemma RestIs(e: Queue)
    requires e.acc < 91 * 91
    ensures e.bits > 0 && (e.bits > 7 || e.acc > 90) ==> EncodeRest(e) == Symbols(e.acc)
    ensures e.bits > 0 && e.bits <= 7 && e.acc <= 90 ==> EncodeRest(e) == [EncTab(e.acc)]
  {
    hide EncTab, Symbols;
  }

  lemma NothingPending(taken: seq<Byte>, given: seq<Byte>, e: Queue, s: State)
    requires Linked(taken, given, e, s) && e.bits == 0
    ensures DecodeAll(s, EncodeRest(e)).out + DecodeRest(DecodeAll(s, EncodeRest(e)).state) == taken[|given|..]
  {
    hide Shl, Number, Pow2;
    assert taken[|given|..] == [];
    NothingDecodes(s);
  }

  /** Decoding gives back what was encoded. */
  lemma RoundTrip(data: seq<Byte>)
    ensures Decode(Encode(data)) == data
  {
    var e := EncodeAll(EMPTY, data);
    var d := DecodeAll(START, e.out);
    RunsAreLinked(data);
    EncoderStaysOk(EMPTY, data);
    RestFits(e.queue);
    DecodeInPieces(START, e.out, EncodeRest(e.queue));
    RestCompletes(data, d.out, e.queue, d.state);
    assert data == d.out + data[|d.out|..];
    var back := DecodeAll(d.state, EncodeRest(e.queue));
    hide EncodeAll, DecodeAll, EncodeRest, DecodeRest, EncoderOk;
    assert Decode(Encode(data)) == (d.out + back.out) + DecodeRest(back.state);
  }

  lemma NothingEncodes(q: Queue)
    ensures EncodeAll(q, []) == Encoding(q, [])
  {
  }

  lemma NothingDecodes(s: State)
    ensures DecodeAll(s, []) == Decoding(s, [])
  {
  }

  // ----- what surrounds the symbols -----

  /** The text without the bytes that are not in the alphabet. */
  function Alphabetic(text: seq<Byte>): seq<Byte> {
    if text == [] then []
    else Alphabetic(text[..|text| - 1]) + (if DecTab(text[|text| - 1]) == INV then [] else [text[|text| - 1]])
  }

  lemma {:induction false} OthersAreSkipped(s: State, text: seq<Byte>)
    ensures DecodeAll(s, Alphabetic(text)) == DecodeAll(s, text)
  {
    if text != [] {
      var front, b := text[..|text| - 1], text[|text| - 1];
      OthersAreSkipped(s, front);
      hide DecTab;
      if DecTab(b) == INV {
        assert Alphabetic(text) == Alphabetic(front);
      } else {
        assert Alphabetic(text)[..|Alphabetic(text)| - 1] == Alphabetic(front);
      }
    }
  }

  /** Bytes outside the alphabet may be put anywhere in the encoded text. */
  lemma RoundTripThroughNoise(data: seq<Byte>, text: seq<Byte>)
    requires Alphabetic(text) == Encode(data)
    ensures Decode(text) == data
  {
    OthersAreSkipped(START, text);
    RoundTrip(data);
  }

  // ----- pieces -----

  function Joined(pieces: seq<seq<Byte>>): seq<Byte> {
    if pieces == [] then [] else Joined(pieces[..|pieces| - 1]) + pieces[|pieces| - 1]
  }

  /** An encoder that is given the data piece by piece and then flushed. */
  method EncodePieces(pieces: seq<seq<Byte>>) returns (text: seq<Byte>)
    ensures text == Encode(Joined(pieces))
  {
    var encoder := new Encoder();
    assert encoder.Pending() == EncodeAll(EMPTY, []).queue;
    hide EncodeAll, EncoderOk;
    for i := 0 to |pieces|
      invariant fresh(encoder) && encoder.Valid()
      invariant encoder.Pending() == EncodeAll(EMPTY, Joined(pieces[..i])).queue
      invariant encoder.written == EncodeAll(EMPTY, Joined(pieces[..i])).out
    {
      EncodeInPieces(EMPTY, Joined(pieces[..i]), pieces[i]);
      assert pieces[..i + 1][..i] == pieces[..i];
      encoder.Write(pieces[i]);
    }
    assert pieces[..|pieces|] == pieces;
    encoder.Flush();
    text := encoder.written;
  }

  /** A decoder that is given the text piece by piece and then flushed. */
  method DecodePieces(pieces: seq<seq<Byte>>) returns (data: seq<Byte>)
    ensures data == Decode(Joined(pieces))
  {
    var decoder := new Decoder();
    assert decoder.Now() == DecodeAll(START, []).state;
    hide DecodeAll, DecoderOk;
    for i := 0 to |pieces|
      invariant fresh(decoder) && decoder.Valid()
      invariant decoder.Now() == DecodeAll(START, Joined(pieces[..i])).state
      invariant decoder.written == DecodeAll(START, Joined(pieces[..i])).out
    {
      DecodeInPieces(START, Joined(pieces[..i]), pieces[i]);
      assert pieces[..i + 1][..i] == pieces[..i];
      decoder.Write(pieces[i]);
    }
    assert pieces[..|pieces|] == pieces;
    decoder.Flush();
    data := decoder.written;
  }

  // ----- sizes -----

  /** Bits taken in are bits put into groups plus bits pending. */
  lemma {:induction false} GroupsTakeBits(data: seq<Byte>) returns (groups: nat)
    ensures var e := EncodeAll(EMPTY, data);
            |e.out| == 2 * groups && 13 * groups + e.queue.bits <= 8 * |data| <= 14 * groups + e.queue.bits
  {
    if data == [] {
      groups := 0;
    } else {
      groups := GroupsTakeBits(data[..|data| - 1]);
      var q := EncodeAll(EMPTY, data[..|data| - 1]).queue;
      if q.bits + 8 > 13 {
        groups := groups + 1;
      }
    }
  }

  /** `N` bytes become `L` bytes with 16N <= 14L and 13L <= 16N + 12. */
  lemma SizeBounds(data: seq<Byte>)
    ensures 16 * |data| <= 14 * |Encode(data)|
    ensures 13 * |Encode(data)| <= 16 * |data| + 12
  {
    var groups := GroupsTakeBits(data);
    EncoderStaysOk(EMPTY, data);
    var q := EncodeAll(EMPTY, data).queue;
    SmallPowers();
    if q.bits < 7 {
      Pow2Grows(q.bits, 6);
      assert q.acc < 64;
    }
    hide EncodeAll, Pow2;
  }

  /** Every byte of an encoding is in the alphabet. */
  lemma {:induction false} EncodingIsAlphabetic(q: Queue, data: seq<Byte>)
    ensures Alphabetic(EncodeAll(q, data).out) == EncodeAll(q, data).out
  {
    if data != [] {
      EncodingIsAlphabetic(q, data[..|data| - 1]);
      var prior := EncodeAll(q, data[..|data| - 1]);
      var out := EncodeByte(prior.queue, data[|data| - 1]).out;
      if out != [] {
        AlphabeticTwo(prior.out, out[0], out[1]);
        assert prior.out + out == prior.out + [out[0], out[1]];
      } else {
        assert prior.out + out == prior.out;
      }
    }
  }

  lemma AlphabeticTwo(text: seq<Byte>, a: Byte, b: Byte)
    requires DecTab(a) != INV && DecTab(b) != INV && Alphabetic(text) == text
    ensures Alphabetic(text + [a, b]) == text + [a, b]
  {
    hide DecTab;
    assert (text + [a, b])[..|text| + 1] == text + [a];
    assert (text + [a])[..|text|] == text;
  }

  /** Every byte of an encoding is in the alphabet, so a text is an encoding with noise in it exactly when
      that encoding is what is left of it. */
  lemma EncodeIsAlphabetic(data: seq<Byte>)
    ensures Alphabetic(Encode(data)) == Encode(data)
  {
    EncodingIsAlphabetic(EMPTY, data);
    EncoderStaysOk(EMPTY, data);
    var e := EncodeAll(EMPTY, data);
    RestFits(e.queue);
    var rest := EncodeRest(e.queue);
    hide EncodeAll, DecTab, EncTab;
    if |rest| == 2 {
      TablesAreInverse(e.queue.acc % 91, rest[0]);
      TablesAreInverse(e.queue.acc / 91, rest[1]);
      AlphabeticTwo(e.out, rest[0], rest[1]);
      assert e.out + rest == e.out + [rest[0], rest[1]];
    } else if |rest| == 1 {
      TablesAreInverse(e.queue.acc % 91, rest[0]);
      assert (e.out + rest)[..|e.out|] == e.out;
    } else {
      assert e.out + rest == e.out;
    }
  }
}
