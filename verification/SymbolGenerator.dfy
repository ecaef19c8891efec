/** Unique names and shared integer nodes of a Pablo kernel.

    A name that was given out before gets an underscore and a counter appended, and the result is tried in turn.  The
    counters are 64 bits wide in the program and unbounded here. */
module SymbolGenerator {
  import opened Decimals

  type Counters = map<string, nat>

  function Retry(prefix: string, count: nat): string {
    prefix + "_" + DecimalText(count)
  }

  ghost predicate Counting(m: Counters) {
    forall k <- m :: m[k] > 0
  }

  /** The names at least as long as the prefix; colliding prefixes only get longer. */
  ghost function Longer(m: Counters, prefix: string): set<string> {
    set k <- m.Keys | |k| >= |prefix|
  }

  lemma {:induction false} LongerShrinks(m: Counters, prefix: string, count: nat, next: string)
    requires prefix in m && next == Retry(prefix, m[prefix])
    ensures Longer(m[prefix := count], next) < Longer(m, prefix)
  {
    assert m[prefix := count].Keys == m.Keys;
    assert prefix in Longer(m, prefix) && prefix !in Longer(m[prefix := count], next);
  }

  /** The name that is given out, and the counters after that. */
  ghost function Issue(m: Counters, prefix: string): (r: (string, Counters))
    ensures r.0 !in m && r.1.Keys == m.Keys + {r.0}
    ensures |r.0| >= |prefix| && r.0[..|prefix|] == prefix
    ensures Counting(m) ==> Counting(r.1)
    decreases Longer(m, prefix)
  {
    if prefix !in m then (prefix, m[prefix := 1])
    else
      var next := Retry(prefix, m[prefix]);
      LongerShrinks(m, prefix, m[prefix] + 1, next);
      assert next[..|prefix|] == prefix;
      var r := Issue(m[prefix := m[prefix] + 1], next);
      assert r.0[..|next|][..|prefix|] == r.0[..|prefix|];
      r
  }

  // ------------------------------------------------------------------ whole runs

  /** The names given out for a sequence of requests. */
  ghost function Names(m: Counters, prefixes: seq<string>): (r: (seq<string>, Counters))
    ensures |r.0| == |prefixes|
  {
    if |prefixes| == 0 then ([], m)
    else
      var before := Names(m, prefixes[..|prefixes| - 1]);
      var last := Issue(before.1, prefixes[|prefixes| - 1]);
      (before.0 + [last.0], last.1)
  }

  /** Over any sequence of requests no name is given out twice, and none that was known before. */
  lemma {:induction false} NamesAreUnique(m: Counters, prefixes: seq<string>)
    ensures forall i, j :: 0 <= i < j < |prefixes| ==> Names(m, prefixes).0[i] != Names(m, prefixes).0[j]
    ensures forall i :: 0 <= i < |prefixes| ==>
              Names(m, prefixes).0[i] !in m && Names(m, prefixes).0[i] in Names(m, prefixes).1
    ensures m.Keys <= Names(m, prefixes).1.Keys
  {
    if |prefixes| > 0 {
      var init := prefixes[..|prefixes| - 1];
      NamesAreUnique(m, init);
      var before := Names(m, init);
      var last := Issue(before.1, prefixes[|prefixes| - 1]);
      assert Names(m, prefixes) == (before.0 + [last.0], last.1);
      forall i | 0 <= i < |before.0|
        ensures before.0[i] != last.0 && before.0[i] in last.1
      {
        assert before.0[i] in before.1;
      }
    }
  }

  /** After k requests for one prefix and no others. */
  ghost predicate Numbered(m: Counters, prefix: string, k: nat) {
    && (if k == 0 then m == map[] else prefix in m && m[prefix] == k)
    && forall i: nat :: i >= k && i > 0 ==> Retry(prefix, i) !in m
  }

  lemma {:induction false} NextNumber(m: Counters, prefix: string, k: nat)
    requires Numbered(m, prefix, k)
    ensures Issue(m, prefix).0 == (if k == 0 then prefix else Retry(prefix, k))
    ensures Numbered(Issue(m, prefix).1, prefix, k + 1)
  {
    var next := Retry(prefix, k);
    forall i: nat | i >= k + 1
      ensures Retry(prefix, i) != prefix && Retry(prefix, i) != next && next != prefix
    {
      RetryDiffers(prefix, i, k);
      RetryIsNew(prefix, k);
    }
    if k > 0 {
      RetryIsNew(prefix, k);
      var m' := m[prefix := k + 1];
      assert next !in m';
      assert Issue(m', next) == (next, m'[next := 1]);
    }
  }

  /** The name is the other name, an underscore and the decimal numeral of a number. */
  ghost predicate AppendsNumber(name: string, other: string, digits: string, count: nat) {
    name == other + "_" + digits && Numeral(digits, count)
  }

  lemma {:induction false} RetryReads(prefix: string, count: nat)
    ensures AppendsNumber(Retry(prefix, count), prefix, DecimalText(count), count)
  {
    TextIsNumeral(count);
  }

  /** The name is the prefix with numbers appended, perhaps none. */
  ghost predicate NamedAfter(name: string, prefix: string)
    decreases |name|
  {
    name == prefix ||
    exists other: string, digits: string, count: nat ::
      AppendsNumber(name, other, digits, count) && |other| < |name| && NamedAfter(other, prefix)
  }

  lemma {:induction false} NamedOn(name: string, next: string, prefix: string, digits: string, count: nat)
    requires NamedAfter(name, next) && AppendsNumber(next, prefix, digits, count)
    ensures NamedAfter(name, prefix)
    decreases |name|
  {
    if name != next {
      var other: string, d: string, k: nat :|
        AppendsNumber(name, other, d, k) && |other| < |name| && NamedAfter(other, next);
      NamedOn(other, next, prefix, digits, count);
    } else {
      assert NamedAfter(prefix, prefix);
    }
  }

  lemma Unnumbered(prefix: string)
    ensures NamedAfter(prefix, prefix)
  {
  }

  lemma {:induction false} IssuedOn(m: Counters, prefix: string, count: nat, next: string)
    requires prefix in m && count == m[prefix] && next == Retry(prefix, count)
    ensures Issue(m, prefix).0 == Issue(m[prefix := count + 1], next).0
  {
  }

  /** Whatever has been asked for before, the name given out is the prefix with numbers appended. */
  lemma {:induction false} IssuedName(m: Counters, prefix: string, name: string)
    requires name == Issue(m, prefix).0
    ensures NamedAfter(name, prefix)
    decreases Longer(m, prefix)
  {
    if prefix !in m {
      Unnumbered(prefix);
    } else {
      var count := m[prefix];
      var next := Retry(prefix, count);
      LongerShrinks(m, prefix, count + 1, next);
      IssuedOn(m, prefix, count, next);
      RetryReads(prefix, count);
      IssuedName(m[prefix := count + 1], next, name);
      NamedOn(name, next, prefix, DecimalText(count), count);
    }
  }

  /** Asking for one prefix again and again gives the prefix and then the prefix numbered from one. */
  lemma {:induction false} NumberedNames(prefix: string, prefixes: seq<string>)
    requires forall i :: 0 <= i < |prefixes| ==> prefixes[i] == prefix
    ensures forall i :: 0 <= i < |prefixes| ==>
              Names(map[], prefixes).0[i] == if i == 0 then prefix else Retry(prefix, i)
    ensures Numbered(Names(map[], prefixes).1, prefix, |prefixes|)
  {
    var k := |prefixes|;
    if k > 0 {
      var init := prefixes[..k - 1];
      NumberedNames(prefix, init);
      var before := Names(map[], init);
      NextNumber(before.1, prefix, k - 1);
      assert Names(map[], prefixes).0 == before.0 + [Issue(before.1, prefix).0];
    }
  }

  /** So the i-th further name ends in an underscore and the decimal numeral of i. */
  lemma {:induction false} NumberedFromOne(prefix: string, prefixes: seq<string>, i: nat)
    requires (forall j :: 0 <= j < |prefixes| ==> prefixes[j] == prefix) && 0 < i < |prefixes|
    ensures AppendsNumber(Names(map[], prefixes).0[i], prefix, DecimalText(i), i)
  {
    NumberedNames(prefix, prefixes);
    RetryReads(prefix, i);
  }

  lemma {:induction false} RetryIsNew(prefix: string, i: nat)
    ensures Retry(prefix, i) != prefix
  {
    assert |Retry(prefix, i)| > |prefix|;
  }

  /** Distinct counters give distinct names, none of them the prefix. */
  lemma {:induction false} RetryDiffers(prefix: string, i: nat, j: nat)
    ensures Retry(prefix, i) != prefix && (i != j ==> Retry(prefix, i) != Retry(prefix, j))
  {
    DecimalTextValue(i);
    DecimalTextValue(j);
    assert Retry(prefix, i)[|prefix| + 1..] == DecimalText(i) && Retry(prefix, j)[|prefix| + 1..] == DecimalText(j);
    RetryIsNew(prefix, i);
  }

  // ------------------------------------------------------------------ the digit buffer

  function Pow10(k: nat): (r: nat)
    ensures r > 0
  {
    if k == 0 then 1 else 10 * Pow10(k - 1)
  }

  lemma {:induction false} DigitCount(n: nat, k: nat)
    requires (k == 0 || n >= Pow10(k)) && n < Pow10(k + 1)
    ensures |DecimalText(n)| == k + 1
  {
    if k > 0 {
      assert Pow10(k) >= 10;
      DigitCount(n / 10, k - 1);
    }
  }

  /** The digits still to be written. */
  function Pending(c: nat): string {
    if c == 0 then "" else DecimalText(c)
  }

  lemma PendingSplit(c: nat, rest: string)
    requires c > 0
    ensures Pending(c) + rest == Pending(c / 10) + ([DigitOf(c % 10)] + rest)
  {
  }

  method CopyPrefix(data: array<char>, prefix: string)
    requires data.Length >= |prefix|
    modifies data
    ensures data[..|prefix|] == prefix
  {
    for i := 0 to |prefix|
      invariant data[..i] == prefix[..i]
    {
      data[i] := prefix[i];
    }
  }

  /** The length of the name: the prefix, an underscore and the digits. */
  method NameLength(prefix: string, count: nat) returns (length: nat)
    requires count > 0
    ensures length == |prefix| + 1 + |DecimalText(count)|
  {
    var digits: nat := 10;
    length := |prefix| + 2;
    ghost var k := 0;
    while digits <= count
      invariant digits == Pow10(k + 1) && length == |prefix| + 2 + k && (k == 0 || count >= Pow10(k))
      decreases count - digits
    {
      digits, length, k := 10 * digits, length + 1, k + 1;
    }
    DigitCount(count, k);
  }

  lemma Written(data: seq<char>, rest: string, p: nat, c: char)
    requires p < |data| && data[p + 1..] == rest && data[p] == c
    ensures data[p..] == [c] + rest
  {
  }

  /** The digits, from the last one backwards. */
  method WriteDigits(data: array<char>, first: nat, initial: nat)
    requires 0 < first && data.Length == first + |DecimalText(initial)| && initial > 0
    modifies data
    ensures data[..first] == old(data[..first]) && data[first..] == DecimalText(initial)
  {
    var count, p := initial, data.Length - 1;
    while count != 0
      invariant p + 1 == first + |Pending(count)| && p < data.Length
      invariant data[..first] == old(data[..first])
      invariant Pending(count) + data[p + 1..] == DecimalText(initial)
    {
      ghost var rest := data[p + 1..];
      PendingSplit(count, rest);
      data[p] := DigitOf(count % 10);
      Written(data[..], rest, p, DigitOf(count % 10));
      count, p := count / 10, p - 1;
    }
  }

  /** The prefix, an underscore and the counter. */
  method RetryName(prefix: string, initial: nat) returns (name: string)
    requires initial > 0
    ensures name == Retry(prefix, initial)
  {
    var length := NameLength(prefix, initial);
    var data := new char[length];
    CopyPrefix(data, prefix);
    WriteDigits(data, |prefix| + 1, initial);
    assert data[..|prefix|] == data[..|prefix| + 1][..|prefix|];
    data[|prefix|] := '_';
    name := data[..];
    assert name == data[..|prefix|] + [data[|prefix|]] + data[|prefix| + 1..];
  }

  // ------------------------------------------------------------------ the generator

  class Integer {
    const value: nat
    const width: nat

    constructor (value: nat, width: nat)
      ensures this.value == value && this.width == width
    {
      this.value, this.width := value, width;
    }
  }

  class Generator {
    var prefixMap: Counters
    var integerMap: map<(nat, nat), Integer>

    ghost predicate Valid()
      reads this
    {
      && Counting(prefixMap)
      && forall key <- integerMap ::
           integerMap[key].value == key.0 && integerMap[key].width == key.1
    }

    constructor ()
      ensures Valid() && prefixMap == map[] && integerMap == map[]
    {
      prefixMap, integerMap := map[], map[];
    }

    method MakeString(prefix: string) returns (name: string)
      requires Valid()
      modifies `prefixMap
      ensures Valid() && (name, prefixMap) == Issue(old(prefixMap), prefix)
      decreases Longer(prefixMap, prefix)
    {
      if prefix !in prefixMap {
        prefixMap := prefixMap[prefix := 1];
        name := prefix;
      } else {
        var count := prefixMap[prefix];
        LongerShrinks(prefixMap, prefix, count + 1, Retry(prefix, count));
        prefixMap := prefixMap[prefix := count + 1];
        var next := RetryName(prefix, count);
        name := MakeString(next);
      }
    }

    method GetInteger(value: nat, width: nat) returns (r: Integer)
      requires Valid()
      modifies `integerMap
      ensures Valid() && integerMap == old(integerMap)[(value, width) := r]
      ensures (value, width) in old(integerMap) ==> r == old(integerMap)[(value, width)]
    {
      var key := (value, width);
      if key !in integerMap {
        r := new Integer(value, width);
        integerMap := integerMap[key := r];
      } else {
        r := integerMap[key];
      }
    }
  }

  /** Two requests, with any others in between, give one node when value and width agree and two nodes otherwise. */
  method TwoIntegers(g: Generator, value: nat, width: nat, others: seq<(nat, nat)>, value': nat, width': nat)
    returns (a: Integer, b: Integer)
    requires g.Valid()
    modifies g
    ensures g.Valid() && (a == b <==> (value, width) == (value', width'))
  {
    a := g.GetInteger(value, width);
    for i := 0 to |others|
      invariant g.Valid() && (value, width) in g.integerMap && g.integerMap[(value, width)] == a
    {
      var other := g.GetInteger(others[i].0, others[i].1);
    }
    b := g.GetInteger(value', width');
  }
}
