/** ContextSpan: the lines shown around the matched lines, when some lines of context are asked for. */
module GrepContext {
  import opened BitWords

  /** Whether a marked position lies at most k - 1 positions before i, or at i. */
  ghost predicate Behind(start: Word, k: nat, i: nat)
    requires i < |start|
  {
    exists s: nat :: s <= i < s + k && start[s]
  }

  ghost predicate Spread(start: Word, k: nat, consecutive: Word) {
    |consecutive| == |start| && forall i :: 0 <= i < |start| ==> consecutive[i] == Behind(start, k, i)
  }

  /** Joining runs of k positions with the same runs moved by at most k gives longer runs. */
  lemma {:induction false} SpreadMore(start: Word, k: nat, d: nat, consecutive: Word)
    requires Spread(start, k, consecutive) && d <= k
    ensures Spread(start, k + d, Or(consecutive, Shl(consecutive, d)))
  {
    forall i | 0 <= i < |start|
      ensures Or(consecutive, Shl(consecutive, d))[i] == Behind(start, k + d, i)
    {
      if Behind(start, k + d, i) {
        var s: nat :| s <= i < s + (k + d) && start[s];
        if i < s + k { assert Behind(start, k, i); } else { assert Behind(start, k, i - d); }
      }
      if consecutive[i] {
        var s: nat :| s <= i < s + k && start[s];
        assert Behind(start, k + d, i);
      } else if i >= d && consecutive[i - d] {
        var s: nat :| s <= i - d < s + k && start[s];
        assert Behind(start, k + d, i);
      }
    }
  }

  /** Position i is in the context of a marker at p. */
  predicate Around(before: nat, after: nat, p: nat, i: nat) {
    p <= i + before && i <= p + after
  }

  /** What the kernel marks: the context of the markers that have all of their context before them. */
  ghost predicate Spanned(marker: Word, before: nat, after: nat, i: nat) {
    exists p: nat :: before <= p < |marker| && marker[p] && Around(before, after, p, i)
  }

  /** What is asked for: the context of all markers. */
  ghost predicate InContext(marker: Word, before: nat, after: nat, i: nat) {
    exists p: nat :: p < |marker| && marker[p] && Around(before, after, p, i)
  }

  lemma {:induction false} StartsBehind(marker: Word, before: nat, after: nat, i: nat)
    requires i < |marker|
    ensures Behind(Shr(marker, before), before + 1 + after, i) == Spanned(marker, before, after, i)
  {
    var start := Shr(marker, before);
    if Spanned(marker, before, after, i) {
      var p: nat :| before <= p < |marker| && marker[p] && Around(before, after, p, i);
      assert start[p - before];
    }
    if Behind(start, before + 1 + after, i) {
      var s: nat :| s <= i < s + (before + 1 + after) && start[s];
      assert marker[s + before] && Around(before, after, s + before, i);
    }
  }

  /** ContextSpan::generatePabloMethod: runs of 1, 2, 4, ... positions, and a last step to the length wanted. */
  method ContextSpan(markerStream: Word, before: nat, after: nat) returns (context: Word)
    ensures |context| == |markerStream|
    ensures forall i :: 0 <= i < |context| ==> context[i] == Spanned(markerStream, before, after, i)
  {
    var contextStart := Shr(markerStream, before);
    var lgth := before + 1 + after;
    var consecutive, consecutiveCount, i := contextStart, 1, 1;
    while i <= lgth / 2
      invariant 1 <= i == consecutiveCount <= lgth
      invariant Spread(contextStart, consecutiveCount, consecutive)
      decreases lgth - i
    {
      SpreadMore(contextStart, consecutiveCount, i, consecutive);
      consecutiveCount := consecutiveCount + i;
      consecutive := Or(consecutive, Shl(consecutive, i));
      i := i * 2;
    }
    if consecutiveCount < lgth {
      SpreadMore(contextStart, consecutiveCount, lgth - consecutiveCount, consecutive);
      consecutive := Or(consecutive, Shl(consecutive, lgth - consecutiveCount));
    }
    forall i | 0 <= i < |consecutive|
      ensures consecutive[i] == Spanned(markerStream, before, after, i)
    {
      StartsBehind(markerStream, before, after, i);
    }
    context := consecutive;
  }

  /** A marker with less than all of its context before it is forgotten.  The marks are the context of all markers
      exactly when there is no such marker, or the first position that has its context before it is marked. */
  lemma {:induction false} SpannedExactly(marker: Word, before: nat, after: nat)
    ensures (forall i :: 0 <= i < |marker| ==> Spanned(marker, before, after, i) == InContext(marker, before, after, i))
       <==> (before < |marker| && marker[before]) || (forall p :: 0 <= p < before && p < |marker| ==> !marker[p])
  {
    if before < |marker| && marker[before] {
      forall i | 0 <= i < |marker| && InContext(marker, before, after, i)
        ensures Spanned(marker, before, after, i)
      {
        var p: nat :| p < |marker| && marker[p] && Around(before, after, p, i);
        if p < before { assert Around(before, after, before, i); }
      }
    } else if p :| 0 <= p < before && p < |marker| && marker[p] {
      assert Around(before, after, p, 0) && InContext(marker, before, after, 0);
      assert !Spanned(marker, before, after, 0);
    }
  }

  /** A match in the first line only is not shown when a line before it is asked for. */
  method FirstLineLost() returns (context: Word)
    ensures context == [false, false] && InContext([true, false], 1, 0, 0)
  {
    context := ContextSpan([true, false], 1, 0);
    assert Around(1, 0, 0, 0);
  }

  /** In the buffer of a batch the context runs on from file to file: a line of the first file is also shown when a
      match of the lines after it is near enough ... */
  lemma {:induction false} SpannedBeforeEnd(a: Word, b: Word, before: nat, after: nat, i: nat)
    requires i < |a|
    ensures Spanned(a + b, before, after, i) <==>
      || Spanned(a, before, after, i)
      || exists p: nat :: p < |b| && b[p] && before <= |a| + p <= i + before
  {
    if Spanned(a + b, before, after, i) {
      var p: nat :| before <= p < |a + b| && (a + b)[p] && Around(before, after, p, i);
      if p >= |a| { assert b[p - |a|]; }
    }
    if Spanned(a, before, after, i) {
      var p: nat :| before <= p < |a| && a[p] && Around(before, after, p, i);
      assert (a + b)[p];
    }
    if p: nat :| p < |b| && b[p] && before <= |a| + p <= i + before {
      assert (a + b)[|a| + p] && Around(before, after, |a| + p, i);
    }
  }

  /** ... and a line after it also when a match of the first file is near enough; a match early in a later file is not
      forgotten when enough lines come before the file. */
  lemma {:induction false} SpannedAfterEnd(a: Word, b: Word, before: nat, after: nat, i: nat)
    requires i < |b|
    ensures Spanned(a + b, before, after, |a| + i) <==>
      || (exists p: nat :: p < |b| && before <= |a| + p && b[p] && Around(before, after, p, i))
      || (exists p: nat :: before <= p < |a| && a[p] && |a| + i <= p + after)
  {
    if Spanned(a + b, before, after, |a| + i) {
      var p: nat :| before <= p < |a + b| && (a + b)[p] && Around(before, after, p, |a| + i);
      if p >= |a| { assert b[p - |a|] && Around(before, after, p - |a|, i); } else { assert a[p]; }
    }
    if p: nat :| p < |b| && before <= |a| + p && b[p] && Around(before, after, p, i) {
      assert (a + b)[|a| + p] && Around(before, after, |a| + p, |a| + i);
    }
    if p: nat :| before <= p < |a| && a[p] && |a| + i <= p + after {
      assert (a + b)[p] && Around(before, after, p, |a| + i);
    }
  }

  /** With a line of context before, a file whose only line does not match is shown when the next one matches. */
  method ContextCrosses() returns (alone: Word, buffer: Word)
    ensures alone == [false] && buffer == [true, true]
  {
    alone := ContextSpan([false], 1, 0);
    buffer := ContextSpan([false] + [true], 1, 0);
    assert Around(1, 0, 1, 0) && Around(1, 0, 1, 1);
  }
}
