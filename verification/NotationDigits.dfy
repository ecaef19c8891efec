/** The characters of the stream notation: which of them are digits and of what value, that the case of letters does not
    matter, what counts as white space, and how large a repetition may be. */
module NotationDigits {
  import opened Decimals
  import opened NotationErrors
  import opened StreamNotation

  /** A hex digit of value v is character v of either list. */
  lemma {:induction false} HexDigits(c: char, v: nat)
    ensures Convert(Hex, c) == Some(v) <==> v < 16 && (c == "0123456789abcdef"[v] || c == "0123456789ABCDEF"[v])
  {
    if v < 16 {
      var lower, upper := "0123456789abcdef"[v], "0123456789ABCDEF"[v];
      assert lower as int == if v < 10 then '0' as int + v else 'a' as int + (v - 10);
      assert upper as int == if v < 10 then '0' as int + v else 'A' as int + (v - 10);
    }
  }

  lemma {:induction false} BinaryDigits(c: char, v: nat)
    ensures Convert(Binary, c) == Some(v) <==> (v == 1 && c == '1') || (v == 0 && (c == '0' || c == '.'))
  {
  }

  /** isspace in the C locale. */
  lemma {:induction false} Spaces(c: char)
    ensures IsSpace(c) <==> c in [' ', '\t', '\n', '\U{000B}', '\U{000C}', '\r']
  {
  }

  // ------------------------------------------------------------------ upper case

  function UpperChar(c: char): (r: char) {
    if 'a' <= c <= 'z' then (c as int - 'a' as int + 'A' as int) as char else c
  }

  function Upper(text: string): (r: string)
    ensures |r| == |text|
  {
    seq(|text|, i requires 0 <= i < |text| => UpperChar(text[i]))
  }

  lemma {:induction false} UpperClass(c: char, base: Base)
    ensures IsSpace(UpperChar(c)) == IsSpace(c) && IsControl(UpperChar(c)) == IsControl(c)
    ensures IsDigit(UpperChar(c)) == IsDigit(c) && Convert(base, UpperChar(c)) == Convert(base, c)
    ensures IsControl(c) || IsDigit(c) ==> UpperChar(c) == c
  {
  }

  lemma {:induction false} UpperDigits(text: string, i: nat)
    requires i <= |text|
    ensures SkipDigits(Upper(text), i) == SkipDigits(text, i)
    ensures Upper(text)[i..SkipDigits(text, i)] == text[i..SkipDigits(text, i)]
    decreases |text| - i
  {
    if i < |text| {
      UpperClass(text[i], Hex);
      if IsDigit(text[i]) {
        UpperDigits(text, i + 1);
        var e := SkipDigits(text, i + 1);
        assert Upper(text)[i..e] == [Upper(text)[i]] + Upper(text)[i + 1..e];
        assert text[i..e] == [text[i]] + text[i + 1..e];
      }
    }
  }

  lemma {:induction false} UpperEmits(text: string, i: nat, number: bool, base: Base)
    requires i <= |text|
    ensures EmitAt(Upper(text), i, number, base) == EmitAt(text, i, number, base)
    decreases |text| - i
  {
    UpperDigits(text, i);
    if i < |text| {
      UpperClass(text[i], base);
      if IsSpace(text[i]) { UpperEmits(text, i + 1, number, base); }
    }
  }

  lemma {:induction false} UpperReps(text: string, i: nat, accum: seq<Node>, base: Base)
    requires i <= |text|
    ensures RepAt(Upper(text), i, accum, base) == RepAt(text, i, accum, base)
  {
    UpperEmits(text, i, true, base);
    var num := EmitAt(text, i, true, base);
    if num.Emitted? { UpperEmits(text, num.next, false, base); }
  }

  lemma {:induction false} UpperExpression(text: string, i: nat, accum: seq<Node>, base: Base)
    requires i <= |text|
    ensures ExpressionAt(Upper(text), i, accum, base) == ExpressionAt(text, i, accum, base)
    decreases |text| - i, 0
  {
    UpperEmits(text, i, false, base);
    var e := EmitAt(text, i, false, base);
    if e.Emitted? && e.token == Char('(') {
      UpperGroup(text, e.next, base);
    } else if e.Emitted? && e.token == Char('{') {
      UpperReps(text, e.next, accum, base);
    }
  }

  lemma {:induction false} UpperGroup(text: string, i: nat, base: Base)
    requires i <= |text|
    ensures GroupAt(Upper(text), i, [], base) == GroupAt(text, i, [], base)
    decreases |text| - i, 1
  {
    UpperExpression(text, i, [], base);
    var e := ExpressionAt(text, i, [], base);
    if e.Done? { UpperItems(text, e.next, e.list, true, base); }
  }

  lemma {:induction false} UpperItems(text: string, i: nat, list: seq<Node>, inner: bool, base: Base)
    requires i <= |text|
    ensures ItemsAt(Upper(text), i, list, inner, base) == ItemsAt(text, i, list, inner, base)
    decreases |text| - i, 1
  {
    UpperEmits(text, i, false, base);
    UpperExpression(text, i, list, base);
    var e := ExpressionAt(text, i, list, base);
    if e.Done? { UpperItems(text, e.next, e.list, inner, base); }
  }

  /** A text and its upper-case form parse alike. */
  lemma {:induction false} UpperParses(text: string, base: Base)
    ensures Parse(Upper(text), base) == Parse(text, base)
  {
    UpperItems(text, 0, [], false, base);
  }

  // ------------------------------------------------------------------ repetition counts

  /** A repetition count is read in decimal and must be below 2^31. */
  lemma {:induction false} CountLimit(digits: string, base: Base)
    requires digits != "" && AllDigits(digits)
    ensures Parse("1{" + digits + "}", base) ==
      if Decimal(digits) < 0x8000_0000 then Ok(Group([Rep(Digit(1), Decimal(digits))])) else Err(NumberRange)
  {
    var one := OfDigit("", '1');
    var rep := OfRep(one, "", "", digits, "");
    var text := "1{" + digits + "}";
    assert Text(one) == "1" && Text(rep) == text;
    if Decimal(digits) < 0x8000_0000 {
      SpellingOfOne(rep, base);
    } else {
      TooMany(text, digits, base);
    }
  }

  lemma {:induction false} TooMany(text: string, digits: string, base: Base)
    requires digits != "" && AllDigits(digits) && text == "1{" + digits + "}" && Decimal(digits) >= 0x8000_0000
    ensures Parse(text, base) == Err(NumberRange)
  {
    var e := 2 + |digits|;
    forall k | 2 <= k < e
      ensures IsDigit(text[k])
    {
      assert text[k] == digits[k - 2];
    }
    DigitRun(text, 2, e);
    assert text[2..e] == digits && !IsSpace(text[2]);
    assert EmitAt(text, 2, true, base) == Stopped(NumberRange);
    assert EmitAt(text, 1, false, base) == Emitted(Char('{'), 2);
    assert EmitAt(text, 0, false, base) == Emitted(Val(1), 1);
    assert ExpressionAt(text, 0, [], base) == Done(1, [Digit(1)]);
    assert ExpressionAt(text, 1, [Digit(1)], base) == Failed(NumberRange);
    assert ItemsAt(text, 1, [Digit(1)], false, base) == Failed(NumberRange);
  }
}
