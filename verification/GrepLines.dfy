/** Cutting a text into lines.  Lines end with a line feed, the last one perhaps with the text. */
module GrepLines {

  /** The end of the line that position i is in, after its line feed. */
  function LineEnd(s: string, i: nat): (r: nat)
    requires i < |s|
    ensures i < r <= |s| && (s[r - 1] == '\n' || r == |s|)
    decreases |s| - i
  {
    if s[i] == '\n' || i + 1 == |s| then i + 1 else LineEnd(s, i + 1)
  }

  function LinesFrom(s: string, i: nat): (r: seq<string>)
    requires i <= |s|
    ensures i < |s| ==> r != []
    decreases |s| - i
  {
    if i == |s| then [] else [s[i..LineEnd(s, i)]] + LinesFrom(s, LineEnd(s, i))
  }

  function Lines(s: string): (r: seq<string>)
    ensures s != "" ==> r != []
  {
    LinesFrom(s, 0)
  }

  predicate EndsLine(s: string) {
    s != "" && s[|s| - 1] == '\n'
  }

  /** What the batch loader makes of a file: a line feed is added if the last line has none. */
  function Fixed(s: string): (r: string)
    ensures s != "" ==> EndsLine(r)
  {
    if s == "" || EndsLine(s) then s else s + "\n"
  }

  /** A line without its line feed. */
  function Body(line: string): (r: string) {
    if EndsLine(line) then line[..|line| - 1] else line
  }

  lemma {:induction false} LineEndPrefix(a: string, b: string, i: nat)
    requires i < |a| && EndsLine(a)
    ensures LineEnd(a + b, i) == LineEnd(a, i)
    decreases |a| - i
  {
    if a[i] != '\n' { LineEndPrefix(a, b, i + 1); }
  }

  lemma {:induction false} LineEndSuffix(a: string, b: string, i: nat)
    requires i < |b|
    ensures LineEnd(a + b, |a| + i) == |a| + LineEnd(b, i)
    decreases |b| - i
  {
    assert (a + b)[|a| + i] == b[i];
    if b[i] != '\n' && i + 1 < |b| { LineEndSuffix(a, b, i + 1); }
  }

  lemma {:induction false} LinesPrefix(a: string, b: string, i: nat)
    requires i <= |a| && EndsLine(a)
    ensures LinesFrom(a + b, i) == LinesFrom(a, i) + LinesFrom(a + b, |a|)
    decreases |a| - i
  {
    if i < |a| {
      var k := LineEnd(a, i);
      LineEndPrefix(a, b, i);
      LinesPrefix(a, b, k);
      assert (a + b)[i..k] == a[i..k];
    }
  }

  lemma SliceSuffix(a: string, b: string, i: nat, k: nat)
    requires i <= k <= |b|
    ensures (a + b)[|a| + i..|a| + k] == b[i..k]
  {
  }

  lemma {:induction false} LinesSuffix(a: string, b: string, i: nat)
    requires i <= |b|
    ensures LinesFrom(a + b, |a| + i) == LinesFrom(b, i)
    decreases |b| - i
  {
    if i < |b| {
      var k := LineEnd(b, i);
      LineEndSuffix(a, b, i);
      LinesSuffix(a, b, k);
      SliceSuffix(a, b, i, k);
    }
  }

  /** The lines of two texts one after the other, if the first ends a line. */
  lemma {:induction false} LinesConcat(a: string, b: string)
    requires a == "" || EndsLine(a)
    ensures Lines(a + b) == Lines(a) + Lines(b)
  {
    if a == "" {
      assert a + b == b;
    } else {
      LinesPrefix(a, b, 0);
      LinesSuffix(a, b, 0);
    }
  }

  lemma {:induction false} LineEndFixed(s: string, i: nat)
    requires i < |s| && !EndsLine(s)
    ensures LineEnd(s + "\n", i) == if LineEnd(s, i) == |s| then |s| + 1 else LineEnd(s, i)
    decreases |s| - i
  {
    if s[i] != '\n' && i + 1 < |s| {
      LineEndFixed(s, i + 1);
    } else if s[i] != '\n' {
      assert (s + "\n")[i + 1] == '\n';
    }
  }

  lemma ConsButLast(x: string, rest: seq<string>)
    requires rest != []
    ensures ([x] + rest)[..|rest|] == [x] + rest[..|rest| - 1] && ([x] + rest)[|rest|] == rest[|rest| - 1]
  {
  }

  /** The lines with a line feed added to the last one. */
  function FixLast(ls: seq<string>): (r: seq<string>)
    requires ls != []
  {
    ls[..|ls| - 1] + [ls[|ls| - 1] + "\n"]
  }

  lemma {:induction false} FixLastCons(x: string, rest: seq<string>)
    requires rest != []
    ensures FixLast([x] + rest) == [x] + FixLast(rest)
  {
    ConsButLast(x, rest);
  }

  lemma {:induction false} LastLineFixed(s: string, i: nat)
    requires i < |s| && !EndsLine(s) && LineEnd(s, i) == |s|
    ensures LinesFrom(s, i) == [s[i..]] && LinesFrom(s + "\n", i) == [s[i..] + "\n"] && !EndsLine(s[i..])
  {
    var t := s + "\n";
    LineEndFixed(s, i);
    assert t[i..|t|] == s[i..] + "\n" && s[i..|s|] == s[i..];
    assert LinesFrom(s, |s|) == [] && LinesFrom(t, |t|) == [];
  }

  lemma {:induction false} LinesFixedFrom(s: string, i: nat)
    requires i < |s| && !EndsLine(s)
    ensures LinesFrom(s + "\n", i) == FixLast(LinesFrom(s, i))
    ensures !EndsLine(LinesFrom(s, i)[|LinesFrom(s, i)| - 1])
    decreases |s| - i
  {
    var t, k := s + "\n", LineEnd(s, i);
    if k == |s| {
      LastLineFixed(s, i);
    } else {
      LineEndFixed(s, i);
      assert t[i..k] == s[i..k];
      LinesFixedFrom(s, k);
      FixLastCons(s[i..k], LinesFrom(s, k));
    }
  }

  /** Adding the missing line feed changes the last line only. */
  lemma {:induction false} LinesFixed(s: string)
    requires s != "" && !EndsLine(s)
    ensures Lines(s + "\n") == FixLast(Lines(s)) && !EndsLine(Lines(s)[|Lines(s)| - 1])
  {
    LinesFixedFrom(s, 0);
  }

  lemma {:induction false} LinesEndFrom(s: string, i: nat, k: nat)
    requires i <= |s| && k < |LinesFrom(s, i)| && (k + 1 < |LinesFrom(s, i)| || EndsLine(s))
    ensures EndsLine(LinesFrom(s, i)[k])
    decreases |s| - i
  {
    if k > 0 { LinesEndFrom(s, LineEnd(s, i), k - 1); }
  }

  /** All lines but the last end with a line feed, and the last one does when the text does. */
  lemma {:induction false} LinesEnd(s: string, k: nat)
    requires k < |Lines(s)| && (k + 1 < |Lines(s)| || EndsLine(s))
    ensures EndsLine(Lines(s)[k])
  {
    LinesEndFrom(s, 0, k);
  }

  /** The number of line breaks before a position. */
  function CountBreaks(s: string, n: nat): (r: nat)
    requires n <= |s|
  {
    if n == 0 then 0 else CountBreaks(s, n - 1) + if s[n - 1] == '\n' then 1 else 0
  }

  lemma {:induction false} BreaksOfLine(s: string, i: nat)
    requires i < |s| && EndsLine(s)
    ensures CountBreaks(s, LineEnd(s, i)) == CountBreaks(s, i) + 1
    decreases |s| - i
  {
    if s[i] != '\n' { BreaksOfLine(s, i + 1); }
  }

  /** A text that ends a line has as many lines as line breaks. */
  lemma {:induction false} LinesAreBreaks(s: string, i: nat)
    requires i <= |s| && EndsLine(s)
    ensures CountBreaks(s, |s|) == CountBreaks(s, i) + |LinesFrom(s, i)|
    decreases |s| - i
  {
    if i < |s| {
      BreaksOfLine(s, i);
      LinesAreBreaks(s, LineEnd(s, i));
    }
  }

  lemma {:induction false} BreaksConcat(a: string, b: string, n: nat)
    requires n <= |b|
    ensures CountBreaks(a + b, |a| + n) == CountBreaks(a, |a|) + CountBreaks(b, n)
  {
    if n > 0 {
      BreaksConcat(a, b, n - 1);
    } else {
      BreaksPrefix(a, b, |a|);
    }
  }

  lemma {:induction false} BreaksPrefix(a: string, b: string, n: nat)
    requires n <= |a|
    ensures CountBreaks(a + b, n) == CountBreaks(a, n)
  {
    if n > 0 { BreaksPrefix(a, b, n - 1); }
  }
}
