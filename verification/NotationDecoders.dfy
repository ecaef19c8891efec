/** Decoding the stream notation: hex_decoder and bin_decoder pack the digits of the walked tree into bytes, and
    stream_set_decoder interleaves the streams of a set by blocks. */
module NotationDecoders {
  import opened BitNumbers
  import opened BitWords
  import opened IntArith
  import opened NotationLanguage
  import opened NotationParser
  import opened StreamNotation

  // ------------------------------------------------------------------ the walk

  function Repeat<T>(s: seq<T>, n: nat): seq<T> {
    if n == 0 then [] else Repeat(s, n - 1) + s
  }

  /** The digits in the order ast::walk meets them. */
  function Expand(node: Node): seq<nat> {
    match node
    case Digit(v) => [v]
    case Rep(body, count) => Repeat(Expand(body), count)
    case Group(items) => ExpandAll(items)
  }

  function ExpandAll(items: seq<Node>): seq<nat> {
    if |items| == 0 then [] else ExpandAll(items[..|items| - 1]) + Expand(items[|items| - 1])
  }

  ghost predicate DigitsFit(node: Node, base: Base) {
    match node
    case Digit(v) => v < if base.Hex? then 16 else 2
    case Rep(body, _) => DigitsFit(body, base)
    case Group(items) => AllFit(items, base)
  }

  ghost predicate AllFit(items: seq<Node>, base: Base) {
    |items| > 0 ==> AllFit(items[..|items| - 1], base) && DigitsFit(items[|items| - 1], base)
  }

  lemma {:induction false} AllFitAt(items: seq<Node>, base: Base, i: nat)
    requires AllFit(items, base) && i < |items|
    ensures DigitsFit(items[i], base)
  {
    if i < |items| - 1 { AllFitAt(items[..|items| - 1], base, i); }
  }

  lemma {:induction false} SpelledFits(s: Spelling, base: Base)
    requires Spells(s, base)
    ensures DigitsFit(Tree(s, base), base)
  {
    match s
    case OfDigit(_, _) =>
    case OfRep(body, _, _, _, _) => SpelledFits(body, base);
    case OfGroup(_, items, _) => AllSpelledFit(items, base);
  }

  lemma {:induction false} AllSpelledFit(ss: seq<Spelling>, base: Base)
    requires AllSpell(ss, base)
    ensures AllFit(Trees(ss, base), base)
  {
    if |ss| > 0 {
      var trees := Trees(ss, base);
      AllSpelledFit(ss[..|ss| - 1], base);
      SpelledFits(ss[|ss| - 1], base);
      assert trees[..|trees| - 1] == Trees(ss[..|ss| - 1], base);
    }
  }

  lemma {:induction false} ParsedFits(text: string, base: Base)
    requires Parse(text, base).Ok?
    ensures DigitsFit(Parse(text, base).node, base)
  {
    ParsesExactly(text, Parse(text, base).node, base);
    var ss :| AllSpell(ss, base) && Texts(ss) == text && Parse(text, base).node == Group(Trees(ss, base));
    AllSpelledFit(ss, base);
  }

  // ------------------------------------------------------------------ packing digits into bytes

  function Width(base: Base): nat {
    if base.Hex? then 4 else 1
  }

  /** Bit b of the expanded stream; zero past its end. */
  function StreamBit(digits: seq<nat>, base: Base, b: nat): bool {
    b / Width(base) < |digits| && NumBit(digits[b / Width(base)], b % Width(base))
  }

  /** Bit i of the stream is bit i % 8 of byte i / 8. */
  function ByteOf(digits: seq<nat>, base: Base, k: nat): (r: Word)
    ensures |r| == 8
  {
    seq(8, j requires 0 <= j < 8 => StreamBit(digits, base, 8 * k + j))
  }

  /** v << shift, kept to a byte. */
  function ShiftedByte(v: nat, shift: nat): (r: Word)
    ensures |r| == 8
  {
    seq(8, j requires 0 <= j < 8 => j >= shift && NumBit(v, j - shift))
  }

  lemma {:induction false} HighBitsZero(v: nat, base: Base, i: nat)
    requires v < (if base.Hex? then 16 else 2) && i >= Width(base)
    ensures !NumBit(v, i)
  {
    LargePower(i, Width(base));
    assert Pow2(1) == 2 && Pow2(2) == 4 && Pow2(3) == 8 && Pow2(4) == 16;
    DivIs(v, Pow2(i), 0, v);
  }

  lemma LargePower(i: nat, w: nat)
    requires i >= w
    ensures Pow2(i) >= Pow2(w)
  {
  }

  /** A digit adds its bits after those of the digits before it. */
  lemma {:induction false} BitAdded(digits: seq<nat>, base: Base, v: nat, b: nat)
    requires v < if base.Hex? then 16 else 2
    ensures StreamBit(digits + [v], base, b) ==
      (StreamBit(digits, base, b) || (b >= |digits| * Width(base) && NumBit(v, b - |digits| * Width(base))))
    ensures b >= |digits| * Width(base) ==> !StreamBit(digits, base, b)
  {
    var w, n := Width(base), |digits|;
    if b >= n * w + w {
      HighBitsZero(v, base, b - n * w);
    } else if b >= n * w {
      assert b / w == n && b % w == b - n * w;
    } else {
      assert b / w < n;
    }
  }

  lemma {:induction false} EmptyByte(digits: seq<nat>, base: Base, k: nat)
    requires 8 * k >= |digits| * Width(base)
    ensures ByteOf(digits, base, k) == Zeros(8)
  {
    forall j | 0 <= j < 8
      ensures ByteOf(digits, base, k)[j] == Zeros(8)[j]
    {
      BitAdded(digits, base, 0, 8 * k + j);
    }
  }

  lemma {:induction false} ByteGrows(digits: seq<nat>, base: Base, v: nat, k: nat)
    requires v < if base.Hex? then 16 else 2
    ensures 8 * k + 8 <= |digits| * Width(base) ==> ByteOf(digits + [v], base, k) == ByteOf(digits, base, k)
    ensures var per := 8 / Width(base); k == |digits| / per ==>
      ByteOf(digits + [v], base, k) == Or(ByteOf(digits, base, k), ShiftedByte(v, (|digits| % per) * Width(base)))
  {
    var w, n, per := Width(base), |digits|, 8 / Width(base);
    forall j | 0 <= j < 8
      ensures ByteOf(digits + [v], base, k)[j] ==
        (ByteOf(digits, base, k)[j] || (8 * k + j >= n * w && NumBit(v, 8 * k + j - n * w)))
    {
      BitAdded(digits, base, v, 8 * k + j);
    }
    if k == n / per { assert 8 * k + (n % per) * w == n * w; }
  }

  /** The full bytes of the digits and the byte under construction. */
  ghost predicate Holds(digits: seq<nat>, base: Base, buffer: seq<Word>, builder: Word) {
    && (forall k :: 0 <= k < |buffer| ==> buffer[k] == ByteOf(digits, base, k))
    && builder == ByteOf(digits, base, |buffer|)
  }

  lemma {:induction false} HoldsMore(digits: seq<nat>, base: Base, buffer: seq<Word>, builder: Word, v: nat)
    requires v < if base.Hex? then 16 else 2
    requires Holds(digits, base, buffer, builder) && |buffer| == |digits| / (8 / Width(base))
    ensures Holds(digits + [v], base, buffer, Or(builder, ShiftedByte(v, (|digits| % (8 / Width(base))) * Width(base))))
  {
    forall k | 0 <= k < |buffer|
      ensures buffer[k] == ByteOf(digits + [v], base, k)
    {
      ByteGrows(digits, base, v, k);
    }
    ByteGrows(digits, base, v, |buffer|);
  }

  lemma {:induction false} HoldsFull(digits: seq<nat>, base: Base, buffer: seq<Word>, builder: Word)
    requires Holds(digits, base, buffer, builder) && 8 * (|buffer| + 1) >= |digits| * Width(base)
    ensures Holds(digits, base, buffer + [builder], Zeros(8))
  {
    EmptyByte(digits, base, |buffer| + 1);
  }

  class BitDecoder {
    const base: Base
    var buffer: seq<Word>
    var builder: Word
    var counter: nat
    var len: nat
    /** The digits fed so far. */
    ghost var fed: seq<nat>

    ghost predicate Valid()
      reads this
    {
      var per := 8 / Width(base);
      len == |fed| && counter == len % per && |buffer| == len / per && Holds(fed, base, buffer, builder)
    }

    constructor (base: Base)
      ensures Valid() && fed == [] && this.base == base
    {
      this.base := base;
      buffer, builder, counter, len, fed := [], Zeros(8), 0, 0, [];
      new;
      EmptyByte([], base, 0);
    }

    method Feed(v: nat)
      requires Valid() && v < if base.Hex? then 16 else 2
      modifies this
      ensures Valid() && fed == old(fed) + [v]
    {
      HoldsMore(fed, base, buffer, builder, v);
      builder := Or(builder, ShiftedByte(v, counter * Width(base)));
      counter, len, fed := counter + 1, len + 1, fed + [v];
      if counter == 8 / Width(base) {
        HoldsFull(fed, base, buffer, builder);
        buffer := buffer + [builder];
        builder, counter := Zeros(8), 0;
      }
    }

    method Walk(node: Node)
      requires Valid() && DigitsFit(node, base)
      modifies this
      ensures Valid() && fed == old(fed) + Expand(node)
    {
      match node
      case Group(items) =>
        for i := 0 to |items|
          invariant Valid() && fed == old(fed) + ExpandAll(items[..i])
        {
          AllFitAt(items, base, i);
          Walk(items[i]);
          assert items[..i + 1][..i] == items[..i];
        }
        assert items[..|items|] == items;
      case Rep(body, count) =>
        for i := 0 to count
          invariant Valid() && fed == old(fed) + Repeat(Expand(body), i)
        {
          Walk(body);
        }
      case Digit(v) => Feed(v);
    }
  }

  datatype Decoded = Decoded(bytes: seq<Word>, len: nat) | Undecodable(error: Error)

  /** The bytes that hold the expanded stream, and its length in bits. */
  function Packed(digits: seq<nat>, base: Base): Decoded {
    var len := |digits| * Width(base);
    Decoded(seq((len + 7) / 8, k requires 0 <= k => ByteOf(digits, base, k)), len)
  }

  function DecodedText(text: string, base: Base): Decoded {
    match Parse(text, base)
    case Err(e) => Undecodable(e)
    case Ok(node) => Packed(Expand(node), base)
  }

  /** hex_decoder::decode and bin_decoder::decode. */
  method Decode(text: string, base: Base) returns (r: Decoded)
    ensures r == DecodedText(text, base)
  {
    var parsed := ParseText(text, base);
    if parsed.Err? { return Undecodable(parsed.error); }
    ParsedFits(text, base);
    var decoder := new BitDecoder(base);
    decoder.Walk(parsed.node);
    assert [] + Expand(parsed.node) == Expand(parsed.node);
    if decoder.counter != 0 {
      decoder.buffer := decoder.buffer + [decoder.builder];
    }
    PackedBytes(Expand(parsed.node), base, decoder.buffer);
    r := Decoded(decoder.buffer, decoder.len * Width(base));
  }

  lemma {:induction false} PackedBytes(digits: seq<nat>, base: Base, buffer: seq<Word>)
    requires var per := 8 / Width(base); |buffer| == |digits| / per + if |digits| % per != 0 then 1 else 0
    requires forall k :: 0 <= k < |buffer| ==> buffer[k] == ByteOf(digits, base, k)
    ensures Packed(digits, base) == Decoded(buffer, |digits| * Width(base))
  {
    assert |buffer| == (|digits| * Width(base) + 7) / 8;
  }
}
