/** What a text of the stream notation stands for, by length and position: a digit is its own bits, texts one after the
    other are their streams one after the other, parentheses change nothing, and a repetition is its body again and
    again. */
module NotationWalk {
  import opened BitNumbers
  import opened BitWords
  import opened Decimals
  import opened IntArith
  import opened NotationDecoders
  import opened NotationErrors
  import opened NotationLanguage
  import opened StreamNotation

  // ------------------------------------------------------------------ the walk of a tree

  lemma {:induction false} RepeatLength<T>(s: seq<T>, n: nat)
    ensures |Repeat(s, n)| == n * |s|
  {
    if n > 0 {
      RepeatLength(s, n - 1);
      assert (n - 1) * |s| + |s| == n * |s|;
    }
  }

  lemma {:induction false} RepeatAt<T>(s: seq<T>, n: nat, i: nat)
    requires i < n * |s|
    ensures |s| > 0 && i < |Repeat(s, n)| && Repeat(s, n)[i] == s[i % |s|]
  {
    RepeatLength(s, n);
    if n > 0 {
      RepeatLength(s, n - 1);
      assert (n - 1) * |s| + |s| == n * |s|;
      if i < (n - 1) * |s| {
        RepeatAt(s, n - 1, i);
      } else {
        ModUnique(i, |s|, n - 1, i - (n - 1) * |s|);
      }
    }
  }

  /** A repetition is count times as long as its body, and item i of it is item i modulo the length of the body. */
  lemma {:induction false} WalkRep(body: Node, count: nat, i: nat)
    ensures |Expand(Rep(body, count))| == count * |Expand(body)|
    ensures i < count * |Expand(body)| ==>
      |Expand(body)| > 0 && Expand(Rep(body, count))[i] == Expand(body)[i % |Expand(body)|]
  {
    RepeatLength(Expand(body), count);
    if i < count * |Expand(body)| { RepeatAt(Expand(body), count, i); }
  }

  lemma {:induction false} WalkConcat(a: seq<Node>, b: seq<Node>)
    ensures ExpandAll(a + b) == ExpandAll(a) + ExpandAll(b)
  {
    if b == [] {
      assert a + b == a && ExpandAll(a) + [] == ExpandAll(a);
    } else {
      var init, last := b[..|b| - 1], Expand(b[|b| - 1]);
      WalkConcat(a, init);
      assert (a + b)[..|a + b| - 1] == a + init;
      assert (ExpandAll(a) + ExpandAll(init)) + last == ExpandAll(a) + (ExpandAll(init) + last);
    }
  }

  /** A group of the items of a and then those of b is the group of a followed by the group of b. */
  lemma {:induction false} WalkGroup(a: seq<Node>, b: seq<Node>, i: nat)
    ensures |Expand(Group(a + b))| == |Expand(Group(a))| + |Expand(Group(b))|
    ensures i < |Expand(Group(a))| ==> Expand(Group(a + b))[i] == Expand(Group(a))[i]
    ensures i < |Expand(Group(b))| ==> Expand(Group(a + b))[|Expand(Group(a))| + i] == Expand(Group(b))[i]
  {
    WalkConcat(a, b);
  }

  lemma {:induction false} WalkOne(node: Node)
    ensures Expand(Group([node])) == Expand(node)
  {
    assert [node][..0] == [] && ExpandAll([]) + Expand(node) == Expand(node);
  }

  // ------------------------------------------------------------------ the bits of a decoded text

  /** Bit b of the decoded bytes. */
  predicate BitAt(d: Decoded, b: nat)
    requires d.Decoded?
  {
    b / 8 < |d.bytes| && b % 8 < |d.bytes[b / 8]| && d.bytes[b / 8][b % 8]
  }

  /** There are as many bytes as the length needs, and all bits past the length are zero. */
  ghost predicate WellPacked(d: Decoded) {
    && d.Decoded? && |d.bytes| == (d.len + 7) / 8 && (forall k :: 0 <= k < |d.bytes| ==> |d.bytes[k]| == 8)
    && forall b: nat :: b >= d.len ==> !BitAt(d, b)
  }

  lemma {:induction false} BitIs(digits: seq<nat>, base: Base, b: nat)
    ensures BitAt(Packed(digits, base), b) == StreamBit(digits, base, b)
  {
    var d := Packed(digits, base);
    if b / 8 < |d.bytes| {
      assert d.bytes[b / 8] == ByteOf(digits, base, b / 8) && 8 * (b / 8) + b % 8 == b;
    } else {
      assert b / Width(base) >= |digits|;
    }
  }

  lemma {:induction false} PackedWell(digits: seq<nat>, base: Base)
    ensures WellPacked(Packed(digits, base))
  {
    var d := Packed(digits, base);
    forall b: nat | b >= d.len
      ensures !BitAt(d, b)
    {
      BitIs(digits, base, b);
      assert b / Width(base) >= |digits|;
    }
  }

  /** Every text that can be decoded is well packed. */
  lemma {:induction false} DecodedWell(text: string, base: Base)
    ensures DecodedText(text, base).Decoded? ==> WellPacked(DecodedText(text, base))
  {
    match Parse(text, base)
    case Err(_) =>
    case Ok(node) => PackedWell(Expand(node), base);
  }

  // ------------------------------------------------------------------ a digit

  lemma {:induction false} DigitBits(v: nat)
    requires v < 16
    ensures v == (if NumBit(v, 0) then 1 else 0) + (if NumBit(v, 1) then 2 else 0) + (if NumBit(v, 2) then 4 else 0)
                 + (if NumBit(v, 3) then 8 else 0)
  {
    assert Pow2(0) == 1 && Pow2(1) == 2 && Pow2(2) == 4 && Pow2(3) == 8;
  }

  lemma {:induction false} OneDigitText(c: char, base: Base, v: nat)
    requires Convert(base, c) == Some(v)
    ensures DecodedText([c], base) == Packed([v], base)
  {
    var s := OfDigit("", c);
    SpellingOfOne(s, base);
    WalkOne(Digit(v));
    assert Text(s) == [c];
  }

  /** A hex digit is four bits, the lowest first, that add up to its value. */
  lemma {:induction false} HexDigitText(c: char, v: nat)
    requires Convert(Hex, c) == Some(v)
    ensures var d := DecodedText([c], Hex);
      && d.Decoded? && d.len == 4
      && v == (if BitAt(d, 0) then 1 else 0) + (if BitAt(d, 1) then 2 else 0) + (if BitAt(d, 2) then 4 else 0)
              + (if BitAt(d, 3) then 8 else 0)
  {
    OneDigitText(c, Hex, v);
    DigitBits(v);
    BitIs([v], Hex, 0);
    BitIs([v], Hex, 1);
    BitIs([v], Hex, 2);
    BitIs([v], Hex, 3);
  }

  /** A binary digit is one bit. */
  lemma {:induction false} BinaryDigitText(c: char, v: nat)
    requires Convert(Binary, c) == Some(v)
    ensures var d := DecodedText([c], Binary);
      d.Decoded? && d.len == 1 && v == if BitAt(d, 0) then 1 else 0
  {
    OneDigitText(c, Binary, v);
    DigitBits(v);
    BitIs([v], Binary, 0);
  }

  // ------------------------------------------------------------------ texts

  /** The bits of part are those of d from the given place on. */
  ghost predicate StandsAt(d: Decoded, place: nat, part: Decoded) {
    d.Decoded? && part.Decoded? && forall i: nat :: i < part.len ==> BitAt(d, place + i) == BitAt(part, i)
  }

  /** d is a followed by b. */
  ghost predicate Follows(d: Decoded, a: Decoded, b: Decoded) {
    && d.Decoded? && a.Decoded? && b.Decoded? && d.len == a.len + b.len
    && StandsAt(d, 0, a) && StandsAt(d, a.len, b)
  }

  /** d is n times a. */
  ghost predicate Repeats(d: Decoded, a: Decoded, n: nat) {
    && d.Decoded? && a.Decoded? && d.len == n * a.len
    && forall i: nat :: i < d.len ==> a.len > 0 && BitAt(d, i) == BitAt(a, i % a.len)
  }

  lemma {:induction false} DigitBelow(i: nat, w: nat, n: nat)
    requires w > 0
    ensures i / w < n <==> i < n * w
  {
    assert i == i / w * w + i % w;
    if i / w < n {
      MulMonotone(i / w + 1, n, w);
      assert (i / w + 1) * w == i / w * w + w;
    } else {
      MulMonotone(n, i / w, w);
    }
  }

  lemma {:induction false} DigitShifted(x: nat, i: nat, w: nat)
    requires w > 0
    ensures (x * w + i) / w == x + i / w && (x * w + i) % w == i % w
  {
    assert i == i / w * w + i % w;
    assert (x + i / w) * w == x * w + i / w * w;
    ModUnique(x * w + i, w, x + i / w, i % w);
  }

  lemma {:induction false} EarlierBit(x: seq<nat>, y: seq<nat>, base: Base, i: nat)
    requires i < |x| * Width(base)
    ensures BitAt(Packed(x + y, base), i) == BitAt(Packed(x, base), i)
  {
    BitIs(x + y, base, i);
    BitIs(x, base, i);
    DigitBelow(i, Width(base), |x|);
  }

  lemma {:induction false} LaterBit(x: seq<nat>, y: seq<nat>, base: Base, i: nat, at: nat)
    requires i < |y| * Width(base) && at == |x| * Width(base) + i
    ensures BitAt(Packed(x + y, base), at) == BitAt(Packed(y, base), i)
  {
    BitIs(x + y, base, at);
    BitIs(y, base, i);
    DigitBelow(i, Width(base), |y|);
    DigitShifted(|x|, i, Width(base));
  }

  lemma {:induction false} EarlierBits(x: seq<nat>, y: seq<nat>, base: Base)
    ensures StandsAt(Packed(x + y, base), 0, Packed(x, base))
  {
    forall i: nat | i < Packed(x, base).len
      ensures BitAt(Packed(x + y, base), 0 + i) == BitAt(Packed(x, base), i)
    {
      EarlierBit(x, y, base, i);
    }
  }

  lemma {:induction false} LaterBits(x: seq<nat>, y: seq<nat>, base: Base, place: nat)
    requires place == |x| * Width(base)
    ensures StandsAt(Packed(x + y, base), place, Packed(y, base))
  {
    forall i: nat | i < Packed(y, base).len
      ensures BitAt(Packed(x + y, base), place + i) == BitAt(Packed(y, base), i)
    {
      LaterBit(x, y, base, i, place + i);
    }
  }

  lemma {:induction false} PackedFollows(x: seq<nat>, y: seq<nat>, base: Base)
    ensures Follows(Packed(x + y, base), Packed(x, base), Packed(y, base))
  {
    EarlierBits(x, y, base);
    LaterBits(x, y, base, |x| * Width(base));
    assert |x + y| * Width(base) == |x| * Width(base) + |y| * Width(base);
  }

  lemma {:induction false} Assembled(i: nat, q: nat, r: nat, k: nat, m: nat, w: nat, n: nat)
    requires i == q * w + r && q == k * n + m && m < n && r < w
    ensures i == k * (n * w) + (m * w + r) && m * w + r < n * w
  {
    assert (k * n + m) * w == k * (n * w) + m * w;
    MulMonotone(m + 1, n, w);
    assert (m + 1) * w == m * w + w;
  }

  /** Bit i of a repeated stream is in digit i / w, and so is its counterpart. */
  lemma {:induction false} SamePlace(i: nat, w: nat, n: nat, size: nat)
    requires w > 0 && n > 0 && size == n * w
    ensures size > 0 && (i % size) / w == (i / w) % n && (i % size) % w == i % w
  {
    var q, r := i / w, i % w;
    var k, m := q / n, q % n;
    assert i == q * w + r && q == k * n + m;
    Assembled(i, q, r, k, m, w, n);
    ModUnique(i, size, k, m * w + r);
    ModUnique(m * w + r, w, m, r);
  }

  lemma {:induction false} RepeatedBit(x: seq<nat>, y: seq<nat>, n: nat, base: Base, i: nat, size: nat)
    requires y == Repeat(x, n) && size == |x| * Width(base) && i < |y| * Width(base)
    ensures size > 0 && BitAt(Packed(y, base), i) == BitAt(Packed(x, base), i % size)
  {
    var w := Width(base);
    RepeatLength(x, n);
    DigitBelow(i, w, |y|);
    RepeatAt(x, n, i / w);
    SamePlace(i, w, |x|, size);
    BitIs(y, base, i);
    BitIs(x, base, i % size);
  }

  lemma {:induction false} PackedRepeats(x: seq<nat>, n: nat, base: Base)
    ensures Repeats(Packed(Repeat(x, n), base), Packed(x, base), n)
  {
    var w, y := Width(base), Repeat(x, n);
    RepeatLength(x, n);
    assert (n * |x|) * w == n * (|x| * w);
    forall i: nat | i < |y| * w
      ensures |x| * w > 0 && BitAt(Packed(y, base), i) == BitAt(Packed(x, base), i % (|x| * w))
    {
      RepeatedBit(x, y, n, base, i, |x| * w);
    }
  }

  /** Two texts one after the other stand for their streams one after the other. */
  lemma {:induction false} TextsJoined(a: string, b: string, base: Base)
    requires DecodedText(a, base).Decoded? && DecodedText(b, base).Decoded?
    ensures Follows(DecodedText(a + b, base), DecodedText(a, base), DecodedText(b, base))
  {
    var x, y := Parse(a, base).node, Parse(b, base).node;
    ParsesExactly(a, x, base);
    ParsesExactly(b, y, base);
    var ss :| AllSpell(ss, base) && Texts(ss) == a && x == Group(Trees(ss, base));
    var tt :| AllSpell(tt, base) && Texts(tt) == b && y == Group(Trees(tt, base));
    SpellsConcat(ss, tt, base);
    SpellingParses(ss + tt, base);
    WalkConcat(Trees(ss, base), Trees(tt, base));
    PackedFollows(Expand(x), Expand(y), base);
  }

  lemma {:induction false} SpellsConcat(ss: seq<Spelling>, tt: seq<Spelling>, base: Base)
    requires AllSpell(ss, base) && AllSpell(tt, base)
    ensures AllSpell(ss + tt, base) && Texts(ss + tt) == Texts(ss) + Texts(tt)
    ensures Trees(ss + tt, base) == Trees(ss, base) + Trees(tt, base)
  {
    if tt == [] {
      assert ss + tt == ss && Texts(ss) + "" == Texts(ss) && Trees(ss, base) + [] == Trees(ss, base);
    } else {
      var init, last := tt[..|tt| - 1], tt[|tt| - 1];
      SpellsConcat(ss, init, base);
      Snoc(ss + init, last, base);
      assert ss + tt == (ss + init) + [last];
      Rejoin(Texts(ss), Texts(init), Text(last));
      Rejoin(Trees(ss, base), Trees(init, base), [Tree(last, base)]);
    }
  }

  lemma Rejoin<T>(a: seq<T>, b: seq<T>, c: seq<T>)
    ensures (a + b) + c == a + (b + c)
  {
  }

  lemma {:induction false} OneText(s: Spelling, base: Base)
    requires Spells(s, base)
    ensures DecodedText(Text(s), base) == Packed(Expand(Tree(s, base)), base)
  {
    SpellingOfOne(s, base);
    WalkOne(Tree(s, base));
  }

  /** A repetition stands for the stream of its body as often as its digits say. */
  lemma {:induction false} TextRepeated(s: Spelling, open: string, lead: string, digits: string, close: string,
                                        base: Base)
    requires Spells(OfRep(s, open, lead, digits, close), base)
    ensures Repeats(DecodedText(Text(s) + (open + "{") + (lead + digits) + (close + "}"), base),
                    DecodedText(Text(s), base), Decimal(digits))
  {
    OneText(s, base);
    OneText(OfRep(s, open, lead, digits, close), base);
    PackedRepeats(Expand(Tree(s, base)), Decimal(digits), base);
  }

  /** Parentheses change nothing. */
  lemma {:induction false} TextGrouped(before: string, items: seq<Spelling>, close: string, base: Base)
    requires Spells(OfGroup(before, items, close), base)
    ensures DecodedText((before + "(") + Texts(items) + (close + ")"), base) == DecodedText(Texts(items), base)
  {
    OneText(OfGroup(before, items, close), base);
    SpellingParses(items, base);
  }
}
