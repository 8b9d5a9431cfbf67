/** The text of an encoding as a number: what each symbol stands for. */
module Base91Digits {
  import opened Bits
  import opened Base91
  import opened Base91Facts

  /** The value of two symbols, the lower digit first. */
  function PairValue(lo: Byte, hi: Byte): nat {
    DecTab(lo) + 91 * DecTab(hi)
  }

  /** The bits that pairs of symbols spell, the oldest lowest: 13 bits each, or 14 when the lower 13 are at
      most 88. */
  function Spelled(text: seq<Byte>): Queue
    requires |text| % 2 == 0
  {
    if text == [] then Queue(0, 0)
    else
      var n := |text| - 2;
      var value := PairValue(text[n], text[n + 1]);
      Spelled(text[..n]).With(value, if value % 8192 > 88 then 13 else 14)
  }

  /** The number that a whole text spells; a single symbol at the end is the highest digit. */
  function TextNumber(text: seq<Byte>): nat {
    if |text| % 2 == 0 then Spelled(text).acc
    else
      var front := Spelled(text[..|text| - 1]);
      front.acc + DecTab(text[|text| - 1]) * Pow2(front.bits)
  }

  lemma SymbolsSpell(text: seq<Byte>, value: nat)
    requires |text| % 2 == 0 && value < 91 * 91
    ensures |text + Symbols(value)| % 2 == 0
    ensures Spelled(text + Symbols(value)) == Spelled(text).With(value, Width(value))
  {
    var all := text + Symbols(value);
    TablesAreInverse(value % 91, 0);
    TablesAreInverse(value / 91, 0);
    assert all[..|text|] == text && all[|text|] == EncTab(value % 91) && all[|text| + 1] == EncTab(value / 91);
    assert PairValue(all[|text|], all[|text| + 1]) == value;
    hide EncTab, DecTab, Pow2, PairValue;
  }

  lemma ByteSpells(data: seq<Byte>, out: seq<Byte>, q: Queue, b: Byte)
    requires EncoderOk(q) && |out| % 2 == 0 && Holds(data, Spelled(out), q)
    ensures |out + EncodeByte(q, b).out| % 2 == 0
    ensures Holds(data + [b], Spelled(out + EncodeByte(q, b).out), EncodeByte(q, b).queue)
  {
    var full := q.With(b, 8);
    ByteComesIn(data, Spelled(out), q, b);
    hide Spelled, Holds, Symbols, Low, Width;
    if full.bits <= 13 {
      assert out + [] == out;
    } else {
      var w := Width(full.acc);
      GroupFits(full.acc);
      BitsMoveOver(data + [b], Spelled(out), full, w);
      SymbolsSpell(out, Low(full.acc, w));
    }
  }

  lemma {:induction false} GroupsSpell(data: seq<Byte>)
    ensures |EncodeAll(EMPTY, data).out| % 2 == 0
    ensures Holds(data, Spelled(EncodeAll(EMPTY, data).out), EncodeAll(EMPTY, data).queue)
  {
    hide *;
    if data == [] {
      NothingSpells();
    } else {
      var front, b := data[..|data| - 1], data[|data| - 1];
      var e := EncodeAll(EMPTY, front);
      GroupsSpell(front);
      EncoderIsOk(front);
      EncodeLast(EMPTY, data);
      ByteSpells(front, e.out, e.queue, b);
      assert front + [b] == data;
    }
  }

  lemma EncoderIsOk(data: seq<Byte>)
    ensures EncoderOk(EncodeAll(EMPTY, data).queue)
  {
    EncoderStaysOk(EMPTY, data);
  }

  lemma NothingSpells()
    ensures EncodeAll(EMPTY, []) == Encoding(EMPTY, [])
    ensures |EncodeAll(EMPTY, []).out| % 2 == 0 && Holds([], Spelled(EncodeAll(EMPTY, []).out), EMPTY)
  {
  }

  lemma EvenText(text: seq<Byte>)
    requires |text| % 2 == 0
    ensures TextNumber(text) == Spelled(text).acc
  {
    hide Spelled;
  }

  lemma OddText(out: seq<Byte>, x: Byte)
    requires |out| % 2 == 0
    ensures TextNumber(out + [x]) == Spelled(out).acc + Shl(DecTab(x), Spelled(out).bits)
  {
    assert (out + [x])[..|out|] == out;
    hide Spelled, DecTab, Pow2;
  }

  lemma RestSpells(data: seq<Byte>, out: seq<Byte>, q: Queue)
    requires EncoderOk(q) && |out| % 2 == 0 && Holds(data, Spelled(out), q)
    ensures q.acc < 91 * 91 && TextNumber(out + EncodeRest(q)) == Number(data)
  {
    RestFits(q);
    var d := Spelled(out);
    assert d.acc + Shl(q.acc, d.bits) == Number(data);
    RestIs(q);
    if q.bits == 0 {
      NoneLeft(q, d.bits);
    }
    hide *;
    if q.bits == 0 {
      assert out + EncodeRest(q) == out;
      EvenText(out);
    } else if q.bits > 7 || q.acc > 90 {
      SymbolsSpell(out, q.acc);
      WithAcc(d, q.acc);
      EvenText(out + Symbols(q.acc));
    } else {
      TablesAreInverse(q.acc, 0);
      OddText(out, EncTab(q.acc));
    }
  }

  lemma WithAcc(d: Queue, value: nat)
    ensures d.With(value, Width(value)).acc == d.acc + Shl(value, d.bits)
  {
  }

  lemma NoneLeft(q: Queue, bits: nat)
    requires q.Valid() && q.bits == 0
    ensures Shl(q.acc, bits) == 0
  {
    hide Pow2;
    assert Pow2(0) == 1 by { PowOfNone(); }
  }

  lemma PowOfNone()
    ensures Pow2(0) == 1
  {
  }

  /** An encoding spells the number whose bytes, lowest first, are the data. */
  lemma EncodingSpellsData(data: seq<Byte>)
    ensures TextNumber(Encode(data)) == Number(data)
  {
    var e := EncodeAll(EMPTY, data);
    GroupsSpell(data);
    EncoderIsOk(data);
    RestSpells(data, e.out, e.queue);
    hide TextNumber, Number, EncodeAll, EncodeRest;
  }
}
