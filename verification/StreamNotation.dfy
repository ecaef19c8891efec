/** The static stream notation: tokens, the recursive-descent parser as functions over positions, and the exact
    language it accepts.

    A text is the characters before the terminating NUL of a C string.  A fatal error, a thrown exception and the
    use of a missing token end the run and are modelled as a failure. */
module StreamNotation {
  import opened Decimals

  datatype Option<T> = None | Some(value: T)
  datatype Base = Hex | Binary
  datatype Node = Digit(value: nat) | Rep(body: Node, count: nat) | Group(items: seq<Node>)
  datatype Token = Val(value: nat) | Char(c: char) | Number(n: nat)
  datatype Error =
    BadDigit | NoNumber | NumberRange | UnexpectedEnd | UnexpectedToken | NothingToRepeat | MissingToken

  /** The largest int, above which std::stoi throws. */
  const INT_MAX: nat := 0x7fff_ffff

  // ------------------------------------------------------------------ tokens

  predicate IsSpace(c: char) {
    c == ' ' || '\t' <= c <= '\r'
  }

  predicate IsControl(c: char) {
    c == '(' || c == ')' || c == '{' || c == '}'
  }

  function Convert(base: Base, c: char): (r: Option<nat>)
    ensures r.Some? ==> !IsSpace(c) && !IsControl(c) && r.value < (if base.Hex? then 16 else 2)
  {
    match base
    case Hex =>
      if IsDigit(c) then Some(c as int - '0' as int)
      else if 'a' <= c <= 'f' then Some(c as int - 'a' as int + 10)
      else if 'A' <= c <= 'F' then Some(c as int - 'A' as int + 10)
      else None
    case Binary =>
      if c == '1' then Some(1) else if c == '0' || c == '.' then Some(0) else None
  }

  function SkipDigits(text: string, i: nat): (r: nat)
    requires i <= |text|
    ensures i <= r <= |text|
    decreases |text| - i
  {
    if i < |text| && IsDigit(text[i]) then SkipDigits(text, i + 1) else i
  }

  ghost predicate AllSpace(s: string) {
    forall k :: 0 <= k < |s| ==> IsSpace(s[k])
  }

  datatype Emission = Emitted(token: Token, next: nat) | AtEnd | Stopped(error: Error)

  /** The token at position i; after an opening brace it must be a number. */
  function EmitAt(text: string, i: nat, number: bool, base: Base): (r: Emission)
    requires i <= |text|
    ensures r.Emitted? ==> i < r.next <= |text| && r.token.Number? == number
    ensures number ==> !r.AtEnd?
    decreases |text| - i
  {
    if i < |text| && IsSpace(text[i]) then EmitAt(text, i + 1, number, base)
    else if number then NumberAt(text, i)
    else if i == |text| then AtEnd
    else if IsControl(text[i]) then Emitted(Char(text[i]), i + 1)
    else match Convert(base, text[i])
      case None => Stopped(BadDigit)
      case Some(v) => Emitted(Val(v), i + 1)
  }

  function NumberAt(text: string, j: nat): (r: Emission)
    requires j <= |text|
    ensures r.Emitted? ==> j < r.next <= |text| && r.token.Number?
    ensures !r.AtEnd?
  {
    var e := SkipDigits(text, j);
    if e == j then Stopped(NoNumber)
    else if Decimal(text[j..e]) > INT_MAX then Stopped(NumberRange)
    else Emitted(Number(Decimal(text[j..e])), e)
  }

  // ------------------------------------------------------------------ the parser

  datatype Outcome = Done(next: nat, list: seq<Node>) | Failed(error: Error)

  function ExpressionAt(text: string, i: nat, accum: seq<Node>, base: Base): (r: Outcome)
    requires i <= |text|
    ensures r.Done? ==> i < r.next <= |text|
    decreases |text| - i, 0
  {
    match EmitAt(text, i, false, base)
    case Stopped(e) => Failed(e)
    case AtEnd => Failed(UnexpectedEnd)
    case Emitted(token, j) =>
      if token.Val? then Done(j, accum + [Digit(token.value)])
      else if token == Char('(') then
        match GroupAt(text, j, [], base) {
          case Failed(e) => Failed(e)
          case Done(k, list) => Done(k, accum + [Group(list)])
        }
      else if token == Char('{') then RepAt(text, j, accum, base)
      else Failed(UnexpectedToken)
  }

  /** The rest of a group: an expression, then further ones up to the closing parenthesis. */
  function GroupAt(text: string, i: nat, list: seq<Node>, base: Base): (r: Outcome)
    requires i <= |text|
    ensures r.Done? ==> i < r.next <= |text|
    decreases |text| - i, 1
  {
    match ExpressionAt(text, i, list, base)
    case Failed(e) => Failed(e)
    case Done(j, more) => ItemsAt(text, j, more, true, base)
  }

  /** Further expressions, up to the closing parenthesis of a group or the end of the text. */
  function ItemsAt(text: string, i: nat, list: seq<Node>, inner: bool, base: Base): (r: Outcome)
    requires i <= |text|
    ensures r.Done? ==> i <= r.next <= |text|
    decreases |text| - i, 1
  {
    var peeked := EmitAt(text, i, false, base);
    if inner && peeked.Stopped? then Failed(peeked.error)
    else if inner && peeked.AtEnd? then Failed(MissingToken)
    else if inner && peeked.token == Char(')') then Done(peeked.next, list)
    else if !inner && i == |text| then Done(i, list)
    else match ExpressionAt(text, i, list, base)
      case Failed(e) => Failed(e)
      case Done(j, more) => ItemsAt(text, j, more, inner, base)
  }

  /** After an opening brace. */
  function RepAt(text: string, i: nat, accum: seq<Node>, base: Base): (r: Outcome)
    requires i <= |text|
    ensures r.Done? ==> i < r.next <= |text|
  {
    match EmitAt(text, i, true, base)
    case Stopped(e) => Failed(e)
    case AtEnd => Failed(NoNumber)
    case Emitted(num, j) =>
      match EmitAt(text, j, false, base)
      case Stopped(e) => Failed(e)
      case AtEnd => Failed(UnexpectedEnd)
      case Emitted(closer, k) =>
        if closer != Char('}') then Failed(UnexpectedToken)
        else if |accum| == 0 then Failed(NothingToRepeat)
        else Done(k, accum[..|accum| - 1] + [Rep(accum[|accum| - 1], num.n)])
  }

  datatype Result = Ok(node: Node) | Err(error: Error)

  function Parse(text: string, base: Base): Result {
    match ItemsAt(text, 0, [], false, base)
    case Failed(e) => Err(e)
    case Done(_, list) => Ok(Group(list))
  }

  // ------------------------------------------------------------------ the language

  /** A tree with everything its text leaves free: the white space before each token, the spelling of a digit and the
      leading zeros of a number. */
  datatype Spelling =
    | OfDigit(before: string, c: char)
    | OfRep(body: Spelling, open: string, lead: string, digits: string, close: string)
    | OfGroup(before: string, items: seq<Spelling>, close: string)

  function Text(s: Spelling): (r: string)
    ensures |r| > 0
  {
    match s
    case OfDigit(before, c) => before + [c]
    case OfRep(body, open, lead, digits, close) =>
      Text(body) + (open + ['{']) + (lead + digits) + (close + ['}'])
    case OfGroup(before, items, close) => (before + ['(']) + Texts(items) + (close + [')'])
  }

  function Texts(ss: seq<Spelling>): string {
    if |ss| == 0 then "" else Texts(ss[..|ss| - 1]) + Text(ss[|ss| - 1])
  }

  function Tree(s: Spelling, base: Base): Node {
    match s
    case OfDigit(_, c) => Digit(match Convert(base, c) case None => 0 case Some(v) => v)
    case OfRep(body, _, _, digits, _) => Rep(Tree(body, base), Decimal(digits))
    case OfGroup(_, items, _) => Group(Trees(items, base))
  }

  function Trees(ss: seq<Spelling>, base: Base): (r: seq<Node>)
    ensures |r| == |ss|
  {
    if |ss| == 0 then [] else Trees(ss[..|ss| - 1], base) + [Tree(ss[|ss| - 1], base)]
  }

  /** Groups are not empty, numbers are not empty and fit an int, and digits are digits of the base. */
  ghost predicate Spells(s: Spelling, base: Base) {
    match s
    case OfDigit(before, c) => AllSpace(before) && Convert(base, c).Some?
    case OfRep(body, open, lead, digits, close) =>
      && Spells(body, base) && AllSpace(open) && AllSpace(lead) && AllSpace(close)
      && |digits| > 0 && AllDigits(digits) && Decimal(digits) <= INT_MAX
    case OfGroup(before, items, close) =>
      AllSpace(before) && AllSpace(close) && |items| > 0 && AllSpell(items, base)
  }

  ghost predicate AllSpell(ss: seq<Spelling>, base: Base) {
    |ss| > 0 ==> AllSpell(ss[..|ss| - 1], base) && Spells(ss[|ss| - 1], base)
  }

  // ------------------------------------------------------------------ every spelling is parsed

  ghost predicate Occurs(text: string, i: nat, s: string) {
    i + |s| <= |text| && text[i..i + |s|] == s
  }

  lemma {:induction false} OccursSplit(text: string, i: nat, a: string, b: string)
    requires Occurs(text, i, a + b)
    ensures Occurs(text, i, a) && Occurs(text, i + |a|, b)
  {
    assert text[i..i + |a|] == (a + b)[..|a|];
    assert text[i + |a|..i + |a| + |b|] == (a + b)[|a|..];
  }

  lemma {:induction false} OccursAt(text: string, i: nat, s: string, k: nat)
    requires Occurs(text, i, s) && k < |s|
    ensures text[i + k] == s[k]
  {
    assert text[i..i + |s|][k] == text[i + k];
  }

  lemma {:induction false} SpaceRun(text: string, i: nat, j: nat, number: bool, base: Base)
    requires i <= j < |text| && !IsSpace(text[j]) && forall k :: i <= k < j ==> IsSpace(text[k])
    ensures EmitAt(text, i, number, base) == EmitAt(text, j, number, base)
    decreases j - i
  {
    if i < j { SpaceRun(text, i + 1, j, number, base); }
  }

  lemma {:induction false} DigitRun(text: string, i: nat, j: nat)
    requires i <= j <= |text| && (j < |text| ==> !IsDigit(text[j])) && forall k :: i <= k < j ==> IsDigit(text[k])
    ensures SkipDigits(text, i) == j
    decreases j - i
  {
    if i < j { DigitRun(text, i + 1, j); }
  }

  lemma {:induction false} SpacesThen(text: string, i: nat, before: string, s: string, number: bool, base: Base)
    requires Occurs(text, i, before + s) && AllSpace(before) && |s| > 0 && !IsSpace(s[0])
    ensures EmitAt(text, i, number, base) == EmitAt(text, i + |before|, number, base) && text[i + |before|] == s[0]
  {
    OccursSplit(text, i, before, s);
    OccursAt(text, i + |before|, s, 0);
    forall k | i <= k < i + |before|
      ensures IsSpace(text[k])
    {
      OccursAt(text, i, before, k - i);
    }
    SpaceRun(text, i, i + |before|, number, base);
  }

  lemma {:induction false} EmitSpelled(text: string, i: nat, before: string, c: char, base: Base)
    requires Occurs(text, i, before + [c]) && AllSpace(before) && (IsControl(c) || Convert(base, c).Some?)
    ensures EmitAt(text, i, false, base) ==
      Emitted(if IsControl(c) then Char(c) else Val(Convert(base, c).value), i + |before| + 1)
  {
    SpacesThen(text, i, before, [c], false, base);
  }

  lemma {:induction false} NumberSpelled(text: string, i: nat, lead: string, digits: string, base: Base)
    requires Occurs(text, i, lead + digits) && AllSpace(lead) && AllDigits(digits) && |digits| > 0
    requires Decimal(digits) <= INT_MAX
    requires i + |lead + digits| < |text| && !IsDigit(text[i + |lead + digits|])
    ensures EmitAt(text, i, true, base) == Emitted(Number(Decimal(digits)), i + |lead + digits|)
  {
    SpacesThen(text, i, lead, digits, true, base);
    OccursSplit(text, i, lead, digits);
    var j := i + |lead|;
    forall k | j <= k < j + |digits|
      ensures IsDigit(text[k])
    {
      OccursAt(text, j, digits, k - j);
    }
    DigitRun(text, j, j + |digits|);
  }

  /** A brace or white space stands after a number. */
  lemma {:induction false} CloseIsNoDigit(text: string, i: nat, close: string)
    requires Occurs(text, i, close + ['}']) && AllSpace(close)
    ensures i < |text| && !IsDigit(text[i])
  {
    OccursAt(text, i, close + ['}'], 0);
  }

  lemma {:induction false} RepSpelled(text: string, i: nat, list: seq<Node>, node: Node, lead: string, digits: string,
                                      close: string, base: Base)
    requires Occurs(text, i, lead + digits) && Occurs(text, i + |lead + digits|, close + ['}'])
    requires AllSpace(lead) && AllSpace(close) && AllDigits(digits) && |digits| > 0 && Decimal(digits) <= INT_MAX
    ensures RepAt(text, i, list + [node], base) ==
      Done(i + |lead + digits| + |close| + 1, list + [Rep(node, Decimal(digits))])
  {
    assert (list + [node])[..|list|] == list;
    CloseIsNoDigit(text, i + |lead + digits|, close);
    NumberSpelled(text, i, lead, digits, base);
    EmitSpelled(text, i + |lead + digits|, close, '}', base);
  }

  /** An expression that does not start with a closing parenthesis is one step of the loop. */
  lemma {:induction false} Step(text: string, i: nat, list: seq<Node>, j: nat, more: seq<Node>, inner: bool, base: Base)
    requires i < |text| && EmitAt(text, i, false, base).Emitted? && EmitAt(text, i, false, base).token != Char(')')
    requires ExpressionAt(text, i, list, base) == Done(j, more)
    ensures Reaches(text, i, list, j, more, inner, base)
  {
  }

  /** From position i the loop gets to j with the list grown to more. */
  ghost predicate Reaches(text: string, i: nat, list: seq<Node>, j: nat, more: seq<Node>, inner: bool, base: Base) {
    i <= |text| && j <= |text| && ItemsAt(text, i, list, inner, base) == ItemsAt(text, j, more, inner, base)
  }

  lemma {:induction false} ReachesStep(text: string, i: nat, list: seq<Node>, k: nat, mid: seq<Node>, j: nat,
                                       more: seq<Node>, inner: bool, base: Base)
    requires Reaches(text, i, list, k, mid, inner, base) && Reaches(text, k, mid, j, more, inner, base)
    ensures Reaches(text, i, list, j, more, inner, base)
  {
  }

  /** The loop takes the text of an item and puts its tree at the end of the list. */
  lemma {:induction false} ItemParsed(text: string, i: nat, list: seq<Node>, s: Spelling, inner: bool, base: Base)
    requires Occurs(text, i, Text(s)) && Spells(s, base)
    ensures Reaches(text, i, list, i + |Text(s)|, list + [Tree(s, base)], inner, base)
    decreases s, 0
  {
    match s
    case OfDigit(before, c) =>
      EmitSpelled(text, i, before, c, base);
      Step(text, i, list, i + |Text(s)|, list + [Tree(s, base)], inner, base);
    case OfRep(body, open, lead, digits, close) =>
      RepParsed(text, i, list, s, inner, base);
    case OfGroup(before, items, close) =>
      GroupParsed(text, i, list, s, inner, base);
  }

  lemma {:induction false} RepParts(text: string, i: nat, s: Spelling)
    requires s.OfRep? && Occurs(text, i, Text(s))
    ensures Occurs(text, i, Text(s.body))
    ensures Occurs(text, i + |Text(s.body)|, s.open + ['{'])
    ensures Occurs(text, i + |Text(s.body)| + |s.open| + 1, s.lead + s.digits)
    ensures Occurs(text, i + |Text(s.body)| + |s.open| + 1 + |s.lead + s.digits|, s.close + ['}'])
    ensures |Text(s)| == |Text(s.body)| + |s.open| + 1 + |s.lead + s.digits| + |s.close| + 1
  {
    var b, o, n, c := Text(s.body), s.open + ['{'], s.lead + s.digits, s.close + ['}'];
    OccursSplit(text, i, b + o + n, c);
    OccursSplit(text, i, b + o, n);
    OccursSplit(text, i, b, o);
  }

  lemma {:induction false} GroupParts(text: string, i: nat, s: Spelling)
    requires s.OfGroup? && Occurs(text, i, Text(s))
    ensures Occurs(text, i, s.before + ['('])
    ensures Occurs(text, i + |s.before| + 1, Texts(s.items))
    ensures Occurs(text, i + |s.before| + 1 + |Texts(s.items)|, s.close + [')'])
    ensures |Text(s)| == |s.before| + 1 + |Texts(s.items)| + |s.close| + 1
  {
    var b, t, c := s.before + ['('], Texts(s.items), s.close + [')'];
    OccursSplit(text, i, b + t, c);
    OccursSplit(text, i, b, t);
  }

  lemma {:induction false} BraceExpression(text: string, i: nat, j: nat, list: seq<Node>, k: nat, more: seq<Node>,
                                           base: Base)
    requires i <= |text| && EmitAt(text, i, false, base) == Emitted(Char('{'), j)
    requires RepAt(text, j, list, base) == Done(k, more)
    ensures ExpressionAt(text, i, list, base) == Done(k, more)
  {
  }

  lemma {:induction false} BraceStep(text: string, i: nat, list: seq<Node>, node: Node, next: nat, s: Spelling,
                                     inner: bool, base: Base)
    requires s.OfRep? && Spells(s, base)
    requires Occurs(text, i, s.open + ['{']) && Occurs(text, i + |s.open| + 1, s.lead + s.digits)
    requires Occurs(text, i + |s.open| + 1 + |s.lead + s.digits|, s.close + ['}'])
    requires next == i + |s.open| + 1 + |s.lead + s.digits| + |s.close| + 1
    ensures Reaches(text, i, list + [node], next, list + [Rep(node, Decimal(s.digits))], inner, base)
  {
    var j, more := i + |s.open| + 1, list + [Rep(node, Decimal(s.digits))];
    EmitSpelled(text, i, s.open, '{', base);
    RepSpelled(text, j, list, node, s.lead, s.digits, s.close, base);
    BraceExpression(text, i, j, list + [node], next, more, base);
    Step(text, i, list + [node], next, more, inner, base);
  }

  lemma {:induction false} RepParsed(text: string, i: nat, list: seq<Node>, s: Spelling, inner: bool, base: Base)
    requires s.OfRep? && Occurs(text, i, Text(s)) && Spells(s, base)
    ensures Reaches(text, i, list, i + |Text(s)|, list + [Tree(s, base)], inner, base)
    decreases s.body, 1
  {
    RepParts(text, i, s);
    ItemParsed(text, i, list, s.body, inner, base);
    var k, node, j := i + |Text(s.body)|, Tree(s.body, base), i + |Text(s)|;
    BraceStep(text, k, list, node, j, s, inner, base);
    ReachesStep(text, i, list, k, list + [node], j, list + [Tree(s, base)], inner, base);
  }

  /** A closing parenthesis ends the loop of a group. */
  lemma {:induction false} CloseStep(text: string, i: nat, list: seq<Node>, close: string, base: Base)
    requires Occurs(text, i, close + [')']) && AllSpace(close)
    ensures ItemsAt(text, i, list, true, base) == Done(i + |close| + 1, list)
  {
    EmitSpelled(text, i, close, ')', base);
  }

  lemma {:induction false} OpenStep(text: string, i: nat, list: seq<Node>, before: string, next: nat, items: seq<Node>,
                                    inner: bool, base: Base)
    requires Occurs(text, i, before + ['(']) && AllSpace(before)
    requires GroupAt(text, i + |before| + 1, [], base) == Done(next, items)
    ensures Reaches(text, i, list, next, list + [Group(items)], inner, base)
  {
    EmitSpelled(text, i, before, '(', base);
    Step(text, i, list, next, list + [Group(items)], inner, base);
  }

  lemma {:induction false} GroupParsed(text: string, i: nat, list: seq<Node>, s: Spelling, inner: bool, base: Base)
    requires s.OfGroup? && Occurs(text, i, Text(s)) && Spells(s, base)
    ensures Reaches(text, i, list, i + |Text(s)|, list + [Tree(s, base)], inner, base)
    decreases s.items, 4
  {
    GroupParts(text, i, s);
    GroupPieces(text, i, list, s.before, s.items, s.close, i + |Text(s)|, inner, base);
  }

  lemma {:induction false} GroupPieces(text: string, i: nat, list: seq<Node>, before: string, items: seq<Spelling>,
                                       close: string, next: nat, inner: bool, base: Base)
    requires Occurs(text, i, before + ['(']) && Occurs(text, i + |before| + 1, Texts(items))
    requires Occurs(text, i + |before| + 1 + |Texts(items)|, close + [')'])
    requires AllSpace(before) && AllSpace(close) && AllSpell(items, base) && |items| > 0
    requires next == i + |before| + 1 + |Texts(items)| + |close| + 1
    ensures Reaches(text, i, list, next, list + [Group(Trees(items, base))], inner, base)
    decreases items, 3
  {
    InsideParsed(text, i + |before| + 1, items, close, base);
    OpenStep(text, i, list, before, next, Trees(items, base), inner, base);
  }

  lemma {:induction false} InsideParsed(text: string, i: nat, items: seq<Spelling>, close: string, base: Base)
    requires Occurs(text, i, Texts(items)) && Occurs(text, i + |Texts(items)|, close + [')'])
    requires AllSpell(items, base) && |items| > 0 && AllSpace(close)
    ensures GroupAt(text, i, [], base) == Done(i + |Texts(items)| + |close| + 1, Trees(items, base))
    decreases items, 2
  {
    var list := Trees(items, base);
    ItemsParsed(text, i, [], items, true, base);
    assert [] + list == list;
    GroupIsItems(text, i, items, base);
    CloseStep(text, i + |Texts(items)|, list, close, base);
  }

  lemma {:induction false} ItemsParsed(text: string, i: nat, list: seq<Node>, ss: seq<Spelling>, inner: bool,
                                       base: Base)
    requires Occurs(text, i, Texts(ss)) && AllSpell(ss, base)
    ensures Reaches(text, i, list, i + |Texts(ss)|, list + Trees(ss, base), inner, base)
    decreases ss, 1
  {
    if |ss| == 0 {
      assert list + [] == list;
    } else {
      var init, last := ss[..|ss| - 1], ss[|ss| - 1];
      OccursSplit(text, i, Texts(init), Text(last));
      ItemsParsed(text, i, list, init, inner, base);
      ItemParsed(text, i + |Texts(init)|, list + Trees(init, base), last, inner, base);
      assert list + Trees(init, base) + [Tree(last, base)] == list + Trees(ss, base);
      ReachesStep(text, i, list, i + |Texts(init)|, list + Trees(init, base),
                  i + |Texts(ss)|, list + Trees(ss, base), inner, base);
    }
  }

  /** A group does not start with its closing parenthesis, so its first expression is a step of the loop too. */
  lemma {:induction false} GroupIsItems(text: string, i: nat, ss: seq<Spelling>, base: Base)
    requires Occurs(text, i, Texts(ss)) && AllSpell(ss, base) && |ss| > 0
    ensures GroupAt(text, i, [], base) == ItemsAt(text, i, [], true, base)
  {
    FirstToken(text, i, ss, base);
  }

  lemma {:induction false} FirstToken(text: string, i: nat, ss: seq<Spelling>, base: Base)
    requires Occurs(text, i, Texts(ss)) && AllSpell(ss, base) && |ss| > 0
    ensures i < |text| && EmitAt(text, i, false, base).Emitted? && EmitAt(text, i, false, base).token != Char(')')
  {
    var init, last := ss[..|ss| - 1], ss[|ss| - 1];
    OccursSplit(text, i, Texts(init), Text(last));
    if |init| == 0 {
      FirstTokenOf(text, i, last, base);
    } else {
      FirstToken(text, i, init, base);
    }
  }

  lemma {:induction false} FirstTokenOf(text: string, i: nat, s: Spelling, base: Base)
    requires Occurs(text, i, Text(s)) && Spells(s, base)
    ensures i < |text| && EmitAt(text, i, false, base).Emitted? && EmitAt(text, i, false, base).token != Char(')')
  {
    match s
    case OfDigit(before, c) => EmitSpelled(text, i, before, c, base);
    case OfRep(body, open, lead, digits, close) =>
      RepParts(text, i, s);
      FirstTokenOf(text, i, body, base);
    case OfGroup(before, items, close) =>
      GroupParts(text, i, s);
      EmitSpelled(text, i, before, '(', base);
  }

  lemma {:induction false} SpellingParses(ss: seq<Spelling>, base: Base)
    requires AllSpell(ss, base)
    ensures Parse(Texts(ss), base) == Ok(Group(Trees(ss, base)))
  {
    var text := Texts(ss);
    assert text[0..|text|] == text;
    ItemsParsed(text, 0, [], ss, false, base);
    assert [] + Trees(ss, base) == Trees(ss, base);
  }
}
