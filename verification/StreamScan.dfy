/** The Pablo scanning and spanning operations, as the compiler lowers them to one whole-stream addition or
    subtraction, and what they mean. */
module StreamScan {
  import opened BitWords

  /** A mark that has started before i and has not met a stop bit yet. */
  function Pending(from: Word, to: Word, i: nat): bool
    requires i <= |from| == |to|
  {
    i > 0 && !to[i - 1] && (from[i - 1] || Pending(from, to, i - 1))
  }

  /** No mark runs into another mark that starts on a stop bit. */
  ghost predicate NoClash(from: Word, to: Word)
    requires |from| == |to|
  {
    forall i :: 0 <= i < |from| ==> !(from[i] && to[i] && Pending(from, to, i))
  }

  /** No mark starts while another one is running. */
  ghost predicate NoOverlap(from: Word, to: Word)
    requires |from| == |to|
  {
    forall i :: 0 <= i < |from| ==> !(from[i] && Pending(from, to, i))
  }

  function ScanTo(from: Word, to: Word): (r: Word)
    requires |from| == |to|
    ensures |r| == |from|
  {
    And(Add(from, Not(to)), to)
  }

  lemma {:induction false} ScanCarry(from: Word, to: Word, i: nat)
    requires i <= |from| == |to| && NoClash(from, to)
    ensures Carry(from, Not(to), false, i) == Pending(from, to, i)
  {
    if i > 0 { ScanCarry(from, to, i - 1); }
  }

  lemma {:induction false} ScanToAt(from: Word, to: Word, i: nat)
    requires i < |from| == |to| && NoClash(from, to)
    ensures ScanTo(from, to)[i] == (to[i] && (from[i] || Pending(from, to, i)))
  {
    ScanCarry(from, to, i);
  }

  /** The marks move by one and then on to the next stop bit. */
  function AdvanceThenScanTo(from: Word, to: Word): (r: Word)
    requires |from| == |to|
    ensures |r| == |from|
  {
    And(Add(from, Or(from, Not(to))), to)
  }

  /** A mark that has left its position and has not met a stop bit after it. */
  function Underway(from: Word, to: Word, i: nat): bool
    requires i <= |from| == |to|
  {
    i > 0 && (from[i - 1] || (!to[i - 1] && Underway(from, to, i - 1)))
  }

  lemma {:induction false} AdvanceScanCarry(from: Word, to: Word, i: nat)
    requires i <= |from| == |to|
    ensures Carry(from, Or(from, Not(to)), false, i) == Underway(from, to, i)
  {
    if i > 0 { AdvanceScanCarry(from, to, i - 1); }
  }

  lemma {:induction false} AdvanceThenScanToAt(from: Word, to: Word, i: nat)
    requires i < |from| == |to|
    ensures AdvanceThenScanTo(from, to)[i] == (to[i] && Underway(from, to, i))
  {
    AdvanceScanCarry(from, to, i);
  }

  /** From each start up to the position before its end. */
  function SpanUpTo(start: Word, end: Word): (r: Word)
    requires |start| == |end|
    ensures |r| == |start|
  {
    Sub(end, start)
  }

  lemma {:induction false} SpanBorrow(from: Word, to: Word, end: Word, i: nat)
    requires i <= |from| == |to| == |end| && NoClash(from, to)
    requires forall k :: 0 <= k < |from| ==> end[k] == (to[k] && (from[k] || Pending(from, to, k)))
    ensures Borrow(end, from, i) == Pending(from, to, i)
  {
    if i > 0 { SpanBorrow(from, to, end, i - 1); }
  }

  /** The span from the marks to the stops they scan to. */
  lemma {:induction false} SpanUpToAt(from: Word, to: Word, i: nat)
    requires i < |from| == |to| && NoOverlap(from, to)
    ensures SpanUpTo(from, ScanTo(from, to))[i] == (!to[i] && (from[i] || Pending(from, to, i)))
  {
    forall k | 0 <= k < |from|
      ensures ScanTo(from, to)[k] == (to[k] && (from[k] || Pending(from, to, k)))
    {
      ScanToAt(from, to, k);
    }
    SpanBorrow(from, to, ScanTo(from, to), i);
  }
}
