/** The tokenizer and the parser of the stream notation as they run: an index, a one-token buffer and the flag that
    asks for a number; list after list of nodes, the last of which a repetition takes back. */
module NotationParser {
  import opened Decimals
  import opened StreamNotation

  datatype Reading = Got(token: Option<Token>) | Fatal(error: Error)
  datatype Listing = Listed(list: seq<Node>) | Stopping(error: Error)

  class Tokenizer {
    const text: string
    const base: Base
    var idx: nat
    var buildNumber: bool
    var buffer: Option<Token>
    /** Where the next token to be emitted starts, and whether a buffered one was read as a number. */
    ghost var pos: nat
    ghost var bufferedNumber: bool

    ghost predicate Valid()
      reads this
    {
      && pos <= idx <= |text|
      && (buffer.None? ==> pos == idx)
      && (buffer.Some? ==> EmitAt(text, pos, bufferedNumber, base) == Emitted(buffer.value, idx))
    }

    /** The token that Emit will give. */
    ghost function Upcoming(): Emission
      requires Valid()
      reads this
    {
      EmitAt(text, pos, if buffer.Some? then bufferedNumber else buildNumber, base)
    }

    constructor (text: string, base: Base)
      ensures Valid() && pos == idx == 0 && !buildNumber && buffer.None? && this.text == text && this.base == base
    {
      this.text, this.base := text, base;
      idx, buildNumber, buffer := 0, false, None;
      pos, bufferedNumber := 0, false;
    }

    method ExpectNumber()
      requires Valid()
      modifies `buildNumber
      ensures Valid() && buildNumber
    {
      buildNumber := true;
    }

    predicate IsFinished()
      reads this
    {
      idx >= |text|
    }

    /** What was buffered, or the token at the index; only a number clears the request for a number. */
    method Emit() returns (r: Reading)
      requires Valid()
      modifies this
      ensures Valid() && buffer.None?
      ensures match old(Upcoming())
        case Stopped(e) => r == Fatal(e)
        case AtEnd => r == Got(None) && pos == |text|
        case Emitted(token, next) => r == Got(Some(token)) && pos == next
      ensures old(buffer).Some? ==> buildNumber == old(buildNumber)
      ensures old(buffer).None? && r.Got? ==> !buildNumber
    {
      if buffer.Some? {
        r := Got(buffer);
        buffer, pos := None, idx;
        return;
      }
      while idx < |text| && IsSpace(text[idx])
        invariant pos == idx <= |text| && buffer.None? && buildNumber == old(buildNumber)
        invariant EmitAt(text, idx, buildNumber, base) == old(Upcoming())
      {
        idx, pos := idx + 1, pos + 1;
      }
      if buildNumber {
        r := EmitNumber();
      } else if idx == |text| {
        r := Got(None);
      } else {
        var c := text[idx];
        idx, pos := idx + 1, pos + 1;
        if IsControl(c) {
          r := Got(Some(Char(c)));
        } else {
          var val := Convert(base, c);
          r := if val.Some? then Got(Some(Val(val.value))) else Fatal(BadDigit);
        }
      }
    }

    method EmitNumber() returns (r: Reading)
      requires Valid() && buffer.None? && buildNumber
      modifies this
      ensures Valid() && buffer.None?
      ensures match NumberAt(text, old(idx))
        case Stopped(e) => r == Fatal(e)
        case AtEnd => false
        case Emitted(token, next) => r == Got(Some(token)) && pos == next && !buildNumber
    {
      if idx == |text| { return Fatal(NoNumber); }
      var begin := idx;
      while idx < |text| && IsDigit(text[idx])
        invariant begin <= idx == pos <= |text| && buffer.None?
        invariant SkipDigits(text, idx) == SkipDigits(text, begin)
      {
        idx, pos := idx + 1, pos + 1;
      }
      if begin == idx { return Fatal(NoNumber); }
      var x := Stoi(text[begin..idx]);
      if x > INT_MAX { return Fatal(NumberRange); }
      buildNumber := false;
      r := Got(Some(Number(x)));
    }

    /** The next token stays the next token. */
    method Peek() returns (r: Reading)
      requires Valid()
      modifies this
      ensures Valid()
      ensures match old(Upcoming())
        case Stopped(e) => r == Fatal(e)
        case AtEnd => r == Got(None)
        case Emitted(token, next) =>
           r == Got(Some(token)) && buffer == Some(token) && pos == old(pos) && Upcoming() == old(Upcoming())
      ensures r.Got? && !old(buildNumber) ==> !buildNumber
    {
      ghost var start, number := pos, if buffer.Some? then bufferedNumber else buildNumber;
      r := Emit();
      if r.Got? && r.token.Some? {
        buffer, pos, bufferedNumber := r.token, start, number;
      }
    }
  }

  method Stoi(s: string) returns (x: nat)
    ensures x == Decimal(s)
  {
    x := 0;
    for i := 0 to |s|
      invariant x == Decimal(s[..i])
    {
      assert s[..i + 1][..i] == s[..i];
      x := 10 * x + DigitValue(s[i]);
    }
    assert s[..|s|] == s;
  }

  class Parser {
    const tokenizer: Tokenizer
    var nodeList: seq<Node>

    /** No number is asked for or buffered. */
    ghost predicate Ready()
      reads this, tokenizer
    {
      tokenizer.Valid() && !tokenizer.buildNumber && (tokenizer.buffer.Some? ==> !tokenizer.bufferedNumber)
    }

    constructor (text: string, base: Base)
      ensures Ready() && fresh(tokenizer) && nodeList == [] && tokenizer.pos == 0 && tokenizer.buffer.None?
      ensures tokenizer.text == text && tokenizer.base == base
    {
      tokenizer := new Tokenizer(text, base);
      nodeList := [];
    }

    method Parse() returns (r: Result)
      requires Ready() && nodeList == [] && tokenizer.pos == 0 && tokenizer.buffer.None?
      modifies this, tokenizer
      ensures r == StreamNotation.Parse(tokenizer.text, tokenizer.base)
    {
      while !tokenizer.IsFinished()
        invariant Ready() && tokenizer.buffer.None?
        invariant ItemsAt(tokenizer.text, 0, [], false, tokenizer.base) ==
          ItemsAt(tokenizer.text, tokenizer.pos, nodeList, false, tokenizer.base)
        decreases |tokenizer.text| - tokenizer.pos
      {
        var listing := ParseExpression(nodeList);
        if listing.Stopping? { return Err(listing.error); }
        nodeList := listing.list;
      }
      r := Ok(Group(nodeList));
    }

    method ParseExpression(accumList: seq<Node>) returns (r: Listing)
      requires Ready()
      modifies tokenizer
      ensures match ExpressionAt(tokenizer.text, old(tokenizer.pos), accumList, tokenizer.base)
        case Failed(e) => r == Stopping(e)
        case Done(next, list) => r == Listed(list) && Ready() && tokenizer.buffer.None? && tokenizer.pos == next
      decreases |tokenizer.text| - tokenizer.pos, 0
    {
      var token := tokenizer.Emit();
      if token.Fatal? { return Stopping(token.error); }
      match token.token
      case None => r := Stopping(UnexpectedEnd);
      case Some(Char(c)) =>
        if c == '(' {
          r := ParseGroup(accumList);
        } else if c == '{' {
          r := ParseRep(accumList);
        } else {
          r := Stopping(UnexpectedToken);
        }
      case Some(Val(v)) => r := Listed(accumList + [Digit(v)]);
      case Some(Number(_)) => r := Stopping(UnexpectedToken);
    }

    method ParseGroup(accumList: seq<Node>) returns (r: Listing)
      requires Ready()
      modifies tokenizer
      ensures match GroupAt(tokenizer.text, old(tokenizer.pos), [], tokenizer.base)
        case Failed(e) => r == Stopping(e)
        case Done(next, list) =>
          r == Listed(accumList + [Group(list)]) && Ready() && tokenizer.buffer.None? && tokenizer.pos == next
      decreases |tokenizer.text| - tokenizer.pos, 1
    {
      var newList: seq<Node> := [];
      while true
        invariant Ready() && tokenizer.pos >= old(tokenizer.pos)
        invariant GroupAt(tokenizer.text, tokenizer.pos, newList, tokenizer.base) ==
          GroupAt(tokenizer.text, old(tokenizer.pos), [], tokenizer.base)
        decreases |tokenizer.text| - tokenizer.pos
      {
        var listing := ParseExpression(newList);
        if listing.Stopping? { return Stopping(listing.error); }
        newList := listing.list;
        var peeked := tokenizer.Peek();
        if peeked.Fatal? { return Stopping(peeked.error); }
        if peeked.token.None? { return Stopping(MissingToken); }
        if peeked.token.value == Char(')') {
          var closing := tokenizer.Emit();
          return Listed(accumList + [Group(newList)]);
        }
      }
    }

    method ParseRep(accumList: seq<Node>) returns (r: Listing)
      requires Ready() && tokenizer.buffer.None?
      modifies tokenizer
      ensures match RepAt(tokenizer.text, old(tokenizer.pos), accumList, tokenizer.base)
        case Failed(e) => r == Stopping(e)
        case Done(next, list) => r == Listed(list) && Ready() && tokenizer.buffer.None? && tokenizer.pos == next
    {
      tokenizer.ExpectNumber();
      var num := tokenizer.Emit();
      if num.Fatal? { return Stopping(num.error); }
      var closer := tokenizer.Emit();
      if closer.Fatal? { return Stopping(closer.error); }
      if closer.token.None? { return Stopping(UnexpectedEnd); }
      if closer.token.value != Char('}') { return Stopping(UnexpectedToken); }
      if |accumList| == 0 { return Stopping(NothingToRepeat); }
      r := Listed(accumList[..|accumList| - 1] + [Rep(accumList[|accumList| - 1], num.token.value.n)]);
    }
  }

  /** The parser as it runs gives what Parse says, on every text. */
  method ParseText(text: string, base: Base) returns (r: Result)
    ensures r == Parse(text, base)
  {
    var parser := new Parser(text, base);
    r := parser.Parse();
  }
}
