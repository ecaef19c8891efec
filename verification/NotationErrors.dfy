/** Exactly which texts of the stream notation are refused with which error, and texts that are refused or accepted
    against its documented grammar. */
module NotationErrors {
  import opened Decimals
  import opened NotationLanguage
  import opened StreamNotation

  // ------------------------------------------------------------------ where a text goes wrong

  /** The text from its first character that is no white space. */
  function Trim(s: string): (r: string)
    ensures |r| <= |s| && (r != "" ==> !IsSpace(r[0]))
  {
    if s != "" && IsSpace(s[0]) then Trim(s[1..]) else s
  }

  /** How many digits a text starts with. */
  function Digits(s: string): (r: nat)
    ensures r <= |s|
  {
    if s != "" && IsDigit(s[0]) then 1 + Digits(s[1..]) else 0
  }

  /** What is wrong after the opening brace of a repetition; `first` if there is nothing to be repeated. */
  predicate RepOffends(e: Error, rest: string, first: bool, base: Base) {
    var t := Trim(rest);
    var d := Digits(t);
    if d == 0 then e == NoNumber
    else if Decimal(t[..d]) > INT_MAX then e == NumberRange
    else CloseOffends(e, t[d..], first, base)
  }

  /** What is wrong after the number of a repetition. */
  predicate CloseOffends(e: Error, rest: string, first: bool, base: Base) {
    var u := Trim(rest);
    if u == "" then e == UnexpectedEnd
    else if u[0] == '}' then e == NothingToRepeat && first
    else e == if IsControl(u[0]) || Convert(base, u[0]).Some? then UnexpectedToken else BadDigit
  }

  /** What is wrong after some complete items, or after none if `first`, of a group or of the text: it ends too early,
      it goes on with a faulty repetition, with a brace or parenthesis out of place, or with a character that is no
      digit of the base. */
  predicate Offends(e: Error, rest: string, first: bool, inner: bool, base: Base) {
    var t := Trim(rest);
    if t == "" then e == (if inner && !first then MissingToken else UnexpectedEnd) && (inner || rest != "")
    else if t[0] == '{' then RepOffends(e, t[1..], first, base)
    else if t[0] == '}' || (t[0] == ')' && (first || !inner)) then e == UnexpectedToken
    else e == BadDigit && !IsControl(t[0]) && Convert(base, t[0]).None?
  }

  /** A text that goes wrong: complete items and then something wrong, or a group that goes wrong. */
  datatype Broken =
    | Innermost(items: seq<Spelling>, rest: string)
    | Around(items: seq<Spelling>, before: string, inside: Broken)

  function BrokenText(b: Broken): string {
    match b
    case Innermost(items, rest) => Texts(items) + rest
    case Around(items, before, inside) => Texts(items) + ((before + ['(']) + BrokenText(inside))
  }

  ghost predicate Breaks(b: Broken, e: Error, inner: bool, base: Base) {
    match b
    case Innermost(items, rest) => AllSpell(items, base) && Offends(e, rest, |items| == 0, inner, base)
    case Around(items, before, inside) => AllSpell(items, base) && AllSpace(before) && Breaks(inside, e, true, base)
  }

  // ------------------------------------------------------------------ tokens and what is left of the text

  lemma {:induction false} EmitTrimmed(text: string, i: nat, number: bool, base: Base) returns (p: nat)
    requires i <= |text|
    ensures i <= p <= |text| && text[p..] == Trim(text[i..])
    ensures EmitAt(text, i, number, base) == EmitAt(text, p, number, base)
    decreases |text| - i
  {
    p := i;
    if i < |text| && IsSpace(text[i]) {
      assert text[i..][1..] == text[i + 1..];
      p := EmitTrimmed(text, i + 1, number, base);
    }
  }

  lemma {:induction false} DigitsSkipped(text: string, i: nat)
    requires i <= |text|
    ensures SkipDigits(text, i) == i + Digits(text[i..])
    decreases |text| - i
  {
    if i < |text| {
      assert text[i..][1..] == text[i + 1..];
      DigitsSkipped(text, i + 1);
    }
  }

  /** The token that stands at position i, by the text from there. */
  lemma {:induction false} TokenIs(text: string, i: nat, base: Base)
    requires i <= |text|
    ensures var t := Trim(text[i..]);
      EmitAt(text, i, false, base) ==
        if t == "" then AtEnd
        else if IsControl(t[0]) then Emitted(Char(t[0]), |text| - |t| + 1)
        else match Convert(base, t[0]) case None => Stopped(BadDigit) case Some(v) => Emitted(Val(v), |text| - |t| + 1)
  {
    var p := EmitTrimmed(text, i, false, base);
    if p < |text| { assert text[p] == text[p..][0]; }
  }

  lemma {:induction false} NumberIs(text: string, i: nat, base: Base)
    requires i <= |text|
    ensures var t := Trim(text[i..]);
            var d := Digits(t);
      EmitAt(text, i, true, base) ==
        if d == 0 then Stopped(NoNumber)
        else if Decimal(t[..d]) > INT_MAX then Stopped(NumberRange)
        else Emitted(Number(Decimal(t[..d])), |text| - |t| + d)
    ensures var t := Trim(text[i..]); text[|text| - |t| + Digits(t)..] == t[Digits(t)..]
  {
    var p := EmitTrimmed(text, i, true, base);
    DigitsSkipped(text, p);
    var d := Digits(text[p..]);
    assert text[p..][..d] == text[p..p + d] && text[p..][d..] == text[p + d..];
    if p < |text| { assert text[p] == text[p..][0]; }
  }

  lemma {:induction false} CloseFails(text: string, i: nat, list: seq<Node>, n: nat, j: nat, e: Error, base: Base)
    requires i <= |text| && EmitAt(text, i, true, base) == Emitted(Number(n), j)
    ensures RepAt(text, i, list, base) == Failed(e) <==> CloseOffends(e, text[j..], list == [], base)
  {
    TokenIs(text, j, base);
  }

  /** A repetition fails exactly when something is wrong after its opening brace. */
  lemma {:induction false} RepFails(text: string, i: nat, list: seq<Node>, e: Error, base: Base)
    requires i <= |text|
    ensures RepAt(text, i, list, base) == Failed(e) <==> RepOffends(e, text[i..], list == [], base)
  {
    NumberIs(text, i, base);
    var emitted := EmitAt(text, i, true, base);
    if emitted.Emitted? { CloseFails(text, i, list, emitted.token.n, emitted.next, e, base); }
  }

  lemma {:induction false} BraceOffends(text: string, i: nat, list: seq<Node>, e: Error, base: Base)
    requires i <= |text| && Trim(text[i..]) != "" && Trim(text[i..])[0] == '{'
    ensures ExpressionAt(text, i, list, base) == Failed(e) <==> RepOffends(e, Trim(text[i..])[1..], list == [], base)
  {
    var p := EmitTrimmed(text, i, false, base);
    TokenIs(text, i, base);
    assert Trim(text[i..])[1..] == text[p + 1..];
    RepFails(text, p + 1, list, e, base);
  }

  /** An expression that is no group fails exactly when something is wrong. */
  lemma {:induction false} ExpressionOffends(text: string, i: nat, list: seq<Node>, e: Error, inner: bool, base: Base)
    requires i <= |text| && (inner || i < |text|)
    requires Trim(text[i..]) != "" ==> Trim(text[i..])[0] != '('
    requires inner && list != [] ==> Trim(text[i..]) != "" && Trim(text[i..])[0] != ')'
    ensures ExpressionAt(text, i, list, base) == Failed(e) <==> Offends(e, text[i..], list == [], inner, base)
  {
    var t := Trim(text[i..]);
    if t != "" && t[0] == '{' { BraceOffends(text, i, list, e, base); } else { TokenIs(text, i, base); }
  }

  // ------------------------------------------------------------------ every such text is refused that way

  /** A group that fails makes the loop around it fail in the same way. */
  lemma {:induction false} FailsAround(text: string, i: nat, list: seq<Node>, before: string, error: Error, inner: bool,
                                       base: Base)
    requires Occurs(text, i, before + ['(']) && AllSpace(before)
    requires GroupAt(text, i + |before| + 1, [], base) == Failed(error)
    ensures ExpressionAt(text, i, list, base) == Failed(error)
    ensures ItemsAt(text, i, list, inner, base) == Failed(error)
  {
    EmitSpelled(text, i, before, '(', base);
  }

  /** What is wrong makes the loop fail; in a group without items, already the first expression. */
  lemma {:induction false} OffendsFails(text: string, i: nat, list: seq<Node>, e: Error, inner: bool, base: Base)
    requires i <= |text| && Offends(e, text[i..], list == [], inner, base)
    ensures inner && list == [] ==> ExpressionAt(text, i, list, base) == Failed(e)
    ensures !inner || list != [] ==> ItemsAt(text, i, list, inner, base) == Failed(e)
  {
    TokenIs(text, i, base);
    if Trim(text[i..]) != "" || !inner || list == [] { ExpressionOffends(text, i, list, e, inner, base); }
  }

  lemma {:induction false} BrokenFails(text: string, i: nat, b: Broken, e: Error, base: Base)
    requires Occurs(text, i, BrokenText(b)) && i + |BrokenText(b)| == |text| && Breaks(b, e, true, base)
    ensures GroupAt(text, i, [], base) == Failed(e)
    decreases b, 1
  {
    var list, k := Trees(b.items, base), i + |Texts(b.items)|;
    assert [] + list == list;
    LevelFails(text, i, b, e, list, true, base);
    if |b.items| > 0 {
      OccursFirst(text, i, b);
      GroupIsItems(text, i, b.items, base);
      ItemsParsed(text, i, [], b.items, true, base);
    } else {
      assert Texts(b.items) == "" && list == [];
    }
  }

  lemma {:induction false} OccursFirst(text: string, i: nat, b: Broken)
    requires Occurs(text, i, BrokenText(b))
    ensures Occurs(text, i, Texts(b.items))
  {
    match b
    case Innermost(items, rest) => OccursSplit(text, i, Texts(items), rest);
    case Around(items, before, inside) => OccursSplit(text, i, Texts(items), (before + ['(']) + BrokenText(inside));
  }

  /** Behind the items of its outermost level. */
  lemma {:induction false} LevelFails(text: string, i: nat, b: Broken, e: Error, list: seq<Node>, inner: bool,
                                      base: Base)
    requires Occurs(text, i, BrokenText(b)) && i + |BrokenText(b)| == |text| && Breaks(b, e, inner, base)
    requires list == Trees(b.items, base)
    ensures i + |Texts(b.items)| <= |text|
    ensures inner && b.items == [] ==> ExpressionAt(text, i + |Texts(b.items)|, list, base) == Failed(e)
    ensures !inner || b.items != [] ==> ItemsAt(text, i + |Texts(b.items)|, list, inner, base) == Failed(e)
    decreases b, 0
  {
    if b.Innermost? {
      InnermostFails(text, i, b, e, list, inner, base);
    } else {
      OccursSplit(text, i, Texts(b.items), (b.before + ['(']) + BrokenText(b.inside));
      InsideFails(text, i + |Texts(b.items)|, b.before, b.inside, e, list, inner, base);
    }
  }

  lemma {:induction false} InnermostFails(text: string, i: nat, b: Broken, e: Error, list: seq<Node>, inner: bool,
                                          base: Base)
    requires b.Innermost? && Occurs(text, i, BrokenText(b)) && i + |BrokenText(b)| == |text|
    requires Offends(e, b.rest, b.items == [], inner, base) && list == Trees(b.items, base)
    ensures i + |Texts(b.items)| <= |text|
    ensures inner && list == [] ==> ExpressionAt(text, i + |Texts(b.items)|, list, base) == Failed(e)
    ensures !inner || list != [] ==> ItemsAt(text, i + |Texts(b.items)|, list, inner, base) == Failed(e)
  {
    OccursSplit(text, i, Texts(b.items), b.rest);
    assert text[i + |Texts(b.items)|..] == b.rest;
    OffendsFails(text, i + |Texts(b.items)|, list, e, inner, base);
  }

  lemma {:induction false} InsideFails(text: string, k: nat, before: string, inside: Broken, e: Error, list: seq<Node>,
                                       inner: bool, base: Base)
    requires Occurs(text, k, (before + ['(']) + BrokenText(inside)) && AllSpace(before)
    requires k + |(before + ['(']) + BrokenText(inside)| == |text| && Breaks(inside, e, true, base)
    ensures ExpressionAt(text, k, list, base) == Failed(e) && ItemsAt(text, k, list, inner, base) == Failed(e)
    decreases inside, 2
  {
    OccursSplit(text, k, before + ['('], BrokenText(inside));
    BrokenFails(text, k + |before| + 1, inside, e, base);
    FailsAround(text, k, list, before, e, inner, base);
  }

  // ------------------------------------------------------------------ and no other text is

  lemma ThreeParts(text: string, a: nat, i: nat, j: nat)
    requires a <= i <= j <= |text|
    ensures text[a..] == text[a..i] + (text[i..j] + text[j..])
  {
  }

  lemma {:induction false} ItemsBroken(text: string, start: nat, i: nat, ss: seq<Spelling>, list: seq<Node>,
                                       e: Error, inner: bool, base: Base)
    returns (b: Broken)
    requires Spelled(text, start, i, ss, list, base) && (inner ==> |ss| > 0)
    requires ItemsAt(text, i, list, inner, base) == Failed(e)
    ensures Breaks(b, e, inner, base) && text[start..] == BrokenText(b)
    decreases |text| - i, 1
  {
    TokenIs(text, i, base);
    var peeked := EmitAt(text, i, false, base);
    if inner && !peeked.Emitted? {
      b := Innermost(ss, text[i..]);
      assert text[start..] == text[start..i] + text[i..];
    } else if ExpressionAt(text, i, list, base).Failed? {
      b := ExpressionBroken(text, start, i, ss, list, e, inner, base);
    } else {
      var step := ExpressionAt(text, i, list, base);
      var more := ExpressionSound(text, start, i, ss, list, base);
      b := ItemsBroken(text, start, step.next, more, step.list, e, inner, base);
    }
  }

  lemma {:induction false} ExpressionBroken(text: string, start: nat, i: nat, ss: seq<Spelling>, list: seq<Node>,
                                            e: Error, inner: bool, base: Base)
    returns (b: Broken)
    requires Spelled(text, start, i, ss, list, base) && ExpressionAt(text, i, list, base) == Failed(e)
    requires inner || i < |text|
    requires inner && list != [] ==> Trim(text[i..]) != "" && Trim(text[i..])[0] != ')'
    ensures Breaks(b, e, inner, base) && text[start..] == BrokenText(b)
    decreases |text| - i, 0
  {
    TokenIs(text, i, base);
    var t := Trim(text[i..]);
    if t != "" && t[0] == '(' {
      var j := EmitAt(text, i, false, base).next;
      var before, c := TokenText(text, i, base);
      var inside := GroupBroken(text, j, e, base);
      b := Around(ss, before, inside);
      ThreeParts(text, start, i, j);
    } else {
      ExpressionOffends(text, i, list, e, inner, base);
      b := Innermost(ss, text[i..]);
      assert text[start..] == text[start..i] + text[i..];
    }
  }

  lemma {:induction false} GroupBroken(text: string, i: nat, e: Error, base: Base) returns (b: Broken)
    requires i <= |text| && GroupAt(text, i, [], base) == Failed(e)
    ensures Breaks(b, e, true, base) && text[i..] == BrokenText(b)
    decreases |text| - i, 2
  {
    var step := ExpressionAt(text, i, [], base);
    if step.Failed? {
      b := ExpressionBroken(text, i, i, [], [], e, true, base);
    } else {
      var first := ExpressionSound(text, i, i, [], [], base);
      b := ItemsBroken(text, i, step.next, first, step.list, e, true, base);
    }
  }

  /** A text is refused with an error exactly when it goes wrong in that way: complete items, groups opened one within
      the other with complete items before each, and then what `Offends` says. */
  lemma {:induction false} RefusedExactly(text: string, e: Error, base: Base)
    ensures Parse(text, base) == Err(e) <==> exists b: Broken :: Breaks(b, e, false, base) && BrokenText(b) == text
  {
    if Parse(text, base) == Err(e) {
      var b := ItemsBroken(text, 0, 0, [], [], e, false, base);
      assert text[0..] == text;
    }
    forall b: Broken | Breaks(b, e, false, base) && BrokenText(b) == text
      ensures Parse(text, base) == Err(e)
    {
      assert Occurs(text, 0, BrokenText(b)) by { assert text[0..|text|] == text; }
      LevelFails(text, 0, b, e, Trees(b.items, base), false, base);
      OccursFirst(text, 0, b);
      ItemsParsed(text, 0, [], b.items, false, base);
      assert [] + Trees(b.items, base) == Trees(b.items, base);
    }
  }

  lemma {:induction false} NothingLeft(s: string)
    ensures Trim(s) == "" <==> AllSpace(s)
  {
    if s != "" {
      NothingLeft(s[1..]);
      if AllSpace(s) {
        forall k | 0 <= k < |s[1..]|
          ensures IsSpace(s[1..][k])
        {
          assert s[1..][k] == s[k + 1];
        }
      } else if IsSpace(s[0]) {
        var k :| 0 <= k < |s| && !IsSpace(s[k]);
        assert s[1..][k - 1] == s[k];
      }
    }
  }

  /** The parser uses a token that is not there exactly when a group with items is followed by white space only. */
  lemma {:induction false} MissingExactly(rest: string, first: bool, inner: bool, base: Base)
    ensures Offends(MissingToken, rest, first, inner, base) <==> inner && !first && AllSpace(rest)
  {
    NothingLeft(rest);
  }

  // ------------------------------------------------------------------ four texts

  lemma {:induction false} OneAt(text: string, i: nat, base: Base)
    requires i < |text| && text[i] == '1'
    ensures EmitAt(text, i, false, base) == Emitted(Val(1), i + 1)
  {
  }

  /** The documented grammar allows an empty group. */
  lemma {:induction false} EmptyGroupRefused(base: Base)
    ensures Parse("()", base) == Err(UnexpectedToken)
  {
    var text := "()";
    assert EmitAt(text, 0, false, base) == Emitted(Char('('), 1);
    assert EmitAt(text, 1, false, base) == Emitted(Char(')'), 2);
    assert ExpressionAt(text, 1, [], base) == Failed(UnexpectedToken);
    assert GroupAt(text, 1, [], base) == Failed(UnexpectedToken);
    assert ExpressionAt(text, 0, [], base) == Failed(UnexpectedToken);
  }

  /** White space is skipped before a token only. */
  lemma {:induction false} TrailingSpaceRefused(base: Base)
    ensures Parse("1 ", base) == Err(UnexpectedEnd)
  {
    var text := "1 ";
    OneAt(text, 0, base);
    assert EmitAt(text, 2, false, base).AtEnd?;
    assert EmitAt(text, 1, false, base).AtEnd?;
    assert ExpressionAt(text, 1, [Digit(1)], base) == Failed(UnexpectedEnd);
    assert ExpressionAt(text, 0, [], base) == Done(1, [Digit(1)]);
    assert ItemsAt(text, 1, [Digit(1)], false, base) == Failed(UnexpectedEnd);
  }

  lemma {:induction false} OneDigit(c: char)
    requires IsDigit(c)
    ensures AllDigits([c]) && Decimal([c]) == DigitValue(c)
  {
    assert [c][..0] == "";
  }

  lemma {:induction false} RepText(body: Spelling, digit: char)
    ensures Text(OfRep(body, "", "", [digit], "")) == Text(body) + ['{', digit, '}']
  {
    assert ("" + ['{']) == ['{'] && ("" + [digit]) == [digit] && ("" + ['}']) == ['}'];
    assert Text(body) + ['{'] + [digit] + ['}'] == Text(body) + ['{', digit, '}'];
  }

  /** The documented grammar repeats groups and digits only, not repetitions. */
  lemma {:induction false} NestedRepetitionAccepted(base: Base)
    ensures Parse("1{2}{3}", base) == Ok(Group([Rep(Rep(Digit(1), 2), 3)]))
  {
    var one := OfDigit("", '1');
    var once := OfRep(one, "", "", ['2'], "");
    var twice := OfRep(once, "", "", ['3'], "");
    OneDigit('2');
    OneDigit('3');
    RepText(one, '2');
    RepText(once, '3');
    assert Text(one) == "1" && "1" + ['{', '2', '}'] == "1{2}" && "1{2}" + ['{', '3', '}'] == "1{2}{3}";
    SpellingOfOne(twice, base);
  }

  lemma {:induction false} SpellingOfOne(s: Spelling, base: Base)
    requires Spells(s, base)
    ensures Parse(Text(s), base) == Ok(Group([Tree(s, base)]))
  {
    Snoc([], s, base);
    assert [] + [s] == [s] && "" + Text(s) == Text(s) && [] + [Tree(s, base)] == [Tree(s, base)];
    SpellingParses([s], base);
  }

  /** A group that is never closed. */
  lemma {:induction false} UnclosedGroupUsesMissingToken(base: Base)
    ensures Parse("(1", base) == Err(MissingToken)
  {
    var one := OfDigit("", '1');
    var b := Around([], "", Innermost([one], ""));
    Snoc([], one, base);
    assert [] + [one] == [one];
    assert BrokenText(b) == "(1" && Breaks(b, MissingToken, false, base);
    RefusedExactly("(1", MissingToken, base);
  }
}
