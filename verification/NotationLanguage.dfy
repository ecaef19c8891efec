/** The parser accepts the spellings of trees and nothing else, and parsing undoes printing. */
module NotationLanguage {
  import opened Decimals
  import opened StreamNotation

  // ------------------------------------------------------------------ what is parsed is a spelling

  lemma {:induction false} Glue(text: string, a: nat, b: nat, c: nat, x: string, y: string)
    requires a <= b <= c <= |text| && text[a..b] == x && text[b..c] == y
    ensures text[a..c] == x + y
  {
    assert text[a..c] == text[a..b] + text[b..c];
  }

  lemma {:induction false} Snoc(ss: seq<Spelling>, s: Spelling, base: Base)
    requires AllSpell(ss, base) && Spells(s, base)
    ensures AllSpell(ss + [s], base) && Texts(ss + [s]) == Texts(ss) + Text(s)
    ensures Trees(ss + [s], base) == Trees(ss, base) + [Tree(s, base)]
  {
    var all := ss + [s];
    assert all[..|all| - 1] == ss && all[|all| - 1] == s;
  }

  /** A token is white space followed by one character. */
  lemma {:induction false} TokenText(text: string, i: nat, base: Base) returns (before: string, c: char)
    requires i <= |text| && EmitAt(text, i, false, base).Emitted?
    ensures AllSpace(before) && text[i..EmitAt(text, i, false, base).next] == before + [c]
    ensures match EmitAt(text, i, false, base).token
      case Char(d) => d == c && IsControl(c)
      case Val(v) => Convert(base, c) == Some(v)
      case Number(_) => false
    decreases |text| - i
  {
    var next := EmitAt(text, i, false, base).next;
    if IsSpace(text[i]) {
      before, c := TokenText(text, i + 1, base);
      assert text[i..next] == [text[i]] + text[i + 1..next];
      before := [text[i]] + before;
    } else {
      before, c := "", text[i];
    }
  }

  /** A number is white space followed by digits. */
  lemma {:induction false} NumberText(text: string, i: nat, base: Base) returns (lead: string, digits: string)
    requires i <= |text| && EmitAt(text, i, true, base).Emitted?
    ensures AllSpace(lead) && AllDigits(digits) && |digits| > 0 && Decimal(digits) <= INT_MAX
    ensures text[i..EmitAt(text, i, true, base).next] == lead + digits
    ensures EmitAt(text, i, true, base).token == Number(Decimal(digits))
    decreases |text| - i
  {
    var next := EmitAt(text, i, true, base).next;
    if i < |text| && IsSpace(text[i]) {
      lead, digits := NumberText(text, i + 1, base);
      assert text[i..next] == [text[i]] + text[i + 1..next];
      lead := [text[i]] + lead;
    } else {
      lead, digits := "", text[i..next];
      SkippedDigits(text, i);
    }
  }

  lemma {:induction false} SkippedDigits(text: string, i: nat)
    requires i <= |text|
    ensures forall k :: i <= k < SkipDigits(text, i) ==> IsDigit(text[k])
    decreases |text| - i
  {
    if i < |text| && IsDigit(text[i]) { SkippedDigits(text, i + 1); }
  }

  /** The list so far is spelled by the text from start to i. */
  ghost predicate Spelled(text: string, start: nat, i: nat, ss: seq<Spelling>, list: seq<Node>, base: Base) {
    start <= i <= |text| && text[start..i] == Texts(ss) && AllSpell(ss, base) && list == Trees(ss, base)
  }

  lemma {:induction false} ItemsSound(text: string, start: nat, i: nat, ss: seq<Spelling>, list: seq<Node>, inner: bool,
                                      base: Base)
    returns (all: seq<Spelling>, close: string)
    requires Spelled(text, start, i, ss, list, base) && ItemsAt(text, i, list, inner, base).Done?
    ensures AllSpell(all, base) && AllSpace(close) && |all| >= |ss|
    ensures ItemsAt(text, i, list, inner, base).list == Trees(all, base)
    ensures text[start..ItemsAt(text, i, list, inner, base).next] == Texts(all) + if inner then close + [')'] else ""
    ensures !inner ==> ItemsAt(text, i, list, inner, base).next == |text|
    decreases |text| - i, 1
  {
    var peeked := EmitAt(text, i, false, base);
    if inner && peeked.token == Char(')') {
      var c;
      close, c := TokenText(text, i, base);
      all := ss;
      Glue(text, start, i, peeked.next, Texts(ss), close + [')']);
    } else if !inner && i == |text| {
      all, close := ss, "";
    } else {
      var step := ExpressionAt(text, i, list, base);
      var more := ExpressionSound(text, start, i, ss, list, base);
      all, close := ItemsSound(text, start, step.next, more, step.list, inner, base);
    }
  }

  lemma {:induction false} ExpressionSound(text: string, start: nat, i: nat, ss: seq<Spelling>, list: seq<Node>,
                                           base: Base)
    returns (more: seq<Spelling>)
    requires Spelled(text, start, i, ss, list, base) && ExpressionAt(text, i, list, base).Done?
    ensures Spelled(text, start, ExpressionAt(text, i, list, base).next, more,
                    ExpressionAt(text, i, list, base).list, base)
    ensures |more| >= |ss| && |more| > 0
    decreases |text| - i, 0
  {
    var emitted := EmitAt(text, i, false, base);
    var j := emitted.next;
    var before, c := TokenText(text, i, base);
    if emitted.token.Val? {
      var s := OfDigit(before, c);
      Snoc(ss, s, base);
      Glue(text, start, i, j, Texts(ss), Text(s));
      more := ss + [s];
    } else if emitted.token == Char('(') {
      var inside := ExpressionAt(text, j, [], base);
      var first := ExpressionSound(text, j, j, [], [], base);
      var items, close := ItemsSound(text, j, inside.next, first, inside.list, true, base);
      var k := ItemsAt(text, inside.next, inside.list, true, base).next;
      more := GroupSpelled(text, start, i, j, k, ss, before, items, close, base);
    } else {
      more := RepSound(text, start, i, j, ss, list, before, base);
    }
  }

  lemma {:induction false} GroupSpelled(text: string, start: nat, i: nat, j: nat, k: nat, ss: seq<Spelling>,
      before: string, items: seq<Spelling>, close: string, base: Base) returns (more: seq<Spelling>)
    requires start <= i <= j <= k <= |text| && text[start..i] == Texts(ss) && AllSpell(ss, base)
    requires text[i..j] == before + ['('] && text[j..k] == Texts(items) + (close + [')'])
    requires AllSpace(before) && AllSpace(close) && AllSpell(items, base) && |items| > 0
    ensures Spelled(text, start, k, more, Trees(ss, base) + [Group(Trees(items, base))], base) && |more| == |ss| + 1
  {
    var s := OfGroup(before, items, close);
    Snoc(ss, s, base);
    Glue(text, i, j, k, before + ['('], Texts(items) + (close + [')']));
    assert (before + ['(']) + (Texts(items) + (close + [')'])) == Text(s);
    Glue(text, start, i, k, Texts(ss), Text(s));
    more := ss + [s];
  }

  lemma {:induction false} RepSound(text: string, start: nat, i: nat, j: nat, ss: seq<Spelling>, list: seq<Node>,
                                    open: string, base: Base) returns (more: seq<Spelling>)
    requires Spelled(text, start, i, ss, list, base) && i <= j <= |text|
    requires text[i..j] == open + ['{'] && AllSpace(open) && RepAt(text, j, list, base).Done?
    ensures Spelled(text, start, RepAt(text, j, list, base).next, more, RepAt(text, j, list, base).list, base)
    ensures |more| == |ss| && |more| > 0
  {
    var number := EmitAt(text, j, true, base);
    var lead, digits := NumberText(text, j, base);
    var closer := EmitAt(text, number.next, false, base);
    var close, c := TokenText(text, number.next, base);
    Glue(text, j, number.next, closer.next, lead + digits, close + ['}']);
    var init, last := ss[..|ss| - 1], ss[|ss| - 1];
    more := RepSpelledBy(text, start, i, j, closer.next, init, last, open, lead, digits, close, base);
    assert list[..|list| - 1] == Trees(init, base);
  }

  lemma {:induction false} RepSpelledBy(text: string, start: nat, i: nat, j: nat, k: nat, init: seq<Spelling>,
                                        last: Spelling, open: string, lead: string, digits: string, close: string,
                                        base: Base) returns (more: seq<Spelling>)
    requires start <= i <= j <= k <= |text| && text[start..i] == Texts(init) + Text(last)
    requires text[i..j] == open + ['{'] && text[j..k] == (lead + digits) + (close + ['}'])
    requires AllSpell(init, base) && Spells(last, base) && AllSpace(open) && AllSpace(lead) && AllSpace(close)
    requires |digits| > 0 && AllDigits(digits) && Decimal(digits) <= INT_MAX
    ensures Spelled(text, start, k, more, Trees(init, base) + [Rep(Tree(last, base), Decimal(digits))], base)
    ensures |more| == |init| + 1
  {
    var s := OfRep(last, open, lead, digits, close);
    Snoc(init, s, base);
    Glue(text, i, j, k, open + ['{'], (lead + digits) + (close + ['}']));
    Glue(text, start, i, k, Texts(init) + Text(last), text[i..k]);
    Regroup(Texts(init), Text(last), open + ['{'], lead + digits, close + ['}']);
    more := init + [s];
  }

  lemma Regroup(a: string, b: string, c: string, d: string, e: string)
    ensures (a + b) + (c + (d + e)) == a + (b + c + d + e)
  {
  }

  /** The parser's language, exactly: a text is parsed to a tree when it spells the tree, and only then. */
  lemma {:induction false} ParsesExactly(text: string, tree: Node, base: Base)
    ensures Parse(text, base) == Ok(tree) <==>
      exists ss :: AllSpell(ss, base) && Texts(ss) == text && tree == Group(Trees(ss, base))
  {
    if Parse(text, base) == Ok(tree) {
      var ss, close := ItemsSound(text, 0, 0, [], [], false, base);
      assert text[0..|text|] == text;
    }
    forall ss | AllSpell(ss, base) && Texts(ss) == text && tree == Group(Trees(ss, base))
      ensures Parse(text, base) == Ok(tree)
    {
      SpellingParses(ss, base);
    }
  }

  // ------------------------------------------------------------------ printing

  function DigitChar(v: nat): char {
    if v < 10 then DigitOf(v) else if v < 16 then ('a' as int + v - 10) as char else ' '
  }

  /** The trees that can be written: groups are not empty, digits belong to the base and counts fit an int. */
  predicate Writable(node: Node, base: Base) {
    match node
    case Digit(v) => v < if base.Hex? then 16 else 2
    case Rep(body, count) => Writable(body, base) && count <= INT_MAX
    case Group(items) => |items| > 0 && AllWritable(items, base)
  }

  predicate AllWritable(items: seq<Node>, base: Base) {
    |items| > 0 ==> AllWritable(items[..|items| - 1], base) && Writable(items[|items| - 1], base)
  }

  function Plain(node: Node): Spelling {
    match node
    case Digit(v) => OfDigit("", DigitChar(v))
    case Rep(body, count) => OfRep(Plain(body), "", "", DecimalText(count), "")
    case Group(items) => OfGroup("", AllPlain(items), "")
  }

  function AllPlain(items: seq<Node>): (r: seq<Spelling>)
    ensures |r| == |items|
  {
    if |items| == 0 then [] else AllPlain(items[..|items| - 1]) + [Plain(items[|items| - 1])]
  }

  lemma {:induction false} PlainSpells(node: Node, base: Base)
    requires Writable(node, base)
    ensures Spells(Plain(node), base) && Tree(Plain(node), base) == node
  {
    match node
    case Digit(v) =>
    case Rep(body, count) =>
      PlainSpells(body, base);
      DecimalTextValue(count);
    case Group(items) =>
      AllPlainSpell(items, base);
  }

  lemma {:induction false} AllPlainSpell(items: seq<Node>, base: Base)
    requires AllWritable(items, base)
    ensures AllSpell(AllPlain(items), base) && Trees(AllPlain(items), base) == items
  {
    if |items| > 0 {
      var init, last := items[..|items| - 1], items[|items| - 1];
      AllPlainSpell(init, base);
      PlainSpells(last, base);
      Snoc(AllPlain(init), Plain(last), base);
      assert items == init + [last];
    }
  }

  /** The text of a list of trees without white space. */
  function Print(items: seq<Node>): string {
    Texts(AllPlain(items))
  }

  /** Parsing undoes printing, nested repetitions included. */
  lemma {:induction false} ParsePrinted(items: seq<Node>, base: Base)
    requires AllWritable(items, base)
    ensures Parse(Print(items), base) == Ok(Group(items))
  {
    AllPlainSpell(items, base);
    SpellingParses(AllPlain(items), base);
  }
}
