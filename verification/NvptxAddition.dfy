/** IDISA_NVPTX20_Builder::CreateLongAddFunc: a group of n threads adds two n-lane blocks, one lane per
    thread.  The threads exchange carry and bubble bits through two shared arrays in log2(n) butterfly
    rounds separated by barriers; within a round a thread may read its partner's cell before or after
    the partner has overwritten it.

    The threads are modelled as a state machine whose steps are the single loads and stores.  A schedule
    is any sequence of thread numbers; a thread that has to wait at a barrier does not move. */
module NvptxAddition {
  import opened BitWords
  import opened LaneAddition
  import opened Schedules
  import IntArith

  /** Where a thread is.  `round` counts the barriers it has passed: 0 before the first one,
      1..k in the exchange rounds, k+1 after the last one. */
  datatype Pc = InitCarry | InitBubble | Barrier | LoadCarry | StoreCarry | LoadBubble | StoreBubble
              | LoadCarry0 | LoadBubble0 | Done

  datatype Thread = Thread(pc: Pc, round: nat, carryVal: Word, bubbleVal: Word)

  datatype State = State(threads: seq<Thread>, carry: seq<Word>, bubble: seq<Word>)

  /** The arguments of one call: n = 2^k threads, the lanes of both operands, and the block carry bit. */
  datatype Call = Call(k: nat, a: seq<Word>, b: seq<Word>, cin: bool)
  {
    ghost predicate Valid() {
      && |a| == |b| == N()
      && Lanes(a, N()) && Lanes(b, N())
    }

    function N(): nat { Pow2(k) }

    function Partial(t: nat): (r: Word)
      requires Valid() && t < N()
      ensures |r| == N()
    {
      Add(a[t], b[t])
    }

    /** The overflow bit of lane t, moved to bit position t. */
    function CarryInit(t: nat): (r: Word)
      requires Valid() && t < N()
      ensures |r| == N()
    {
      var gen := And(a[t], b[t]);
      var prop := Xor(a[t], b[t]);
      var top := And(Or(gen, And(prop, Not(Partial(t)))), OneBit(N(), N() - 1, true));
      Shr(top, N() - 1 - t)
    }

    /** Bit t is set when the lane sum plus one is zero. */
    function BubbleInit(t: nat): (r: Word)
      requires Valid() && t < N()
      ensures |r| == N()
    {
      if Add(Partial(t), OneBit(N(), 0, true)) == Zeros(N()) then Shl(OneBit(N(), 0, true), t) else Zeros(N())
    }

    function Overflow(): Word
      requires Valid()
    {
      OverflowMask(a, b, SimdAdd(a, b))
    }

    function Bubbles(): Word
      requires Valid()
    {
      BubbleMask(SimdAdd(a, b))
    }
  }

  // ----- the steps

  /** Partner of thread t at a power-of-two offset: t xor offset. */
  function Partner(t: nat, offset: nat): nat
    requires offset > 0
  {
    if (t / offset) % 2 == 0 then t + offset else t - offset
  }

  /** The halving offset of round r: n/2, n/4, ..., 1. */
  function Offset(k: nat, r: nat): (d: nat)
    requires 1 <= r <= k
    ensures d > 0
  {
    Pow2(k - r)
  }

  predicate Shape(c: Call, s: State)
  {
    && |s.threads| == |s.carry| == |s.bubble| == c.N()
    && (forall u :: 0 <= u < c.N() ==> |s.carry[u]| == |s.bubble[u]| == c.N())
    && (forall u :: 0 <= u < c.N() ==> |s.threads[u].carryVal| == |s.threads[u].bubbleVal| == c.N())
    && (forall u :: 0 <= u < c.N() ==> s.threads[u].round <= c.k + 1)
    && (forall u :: 0 <= u < c.N() ==> PcMatchesRound(c.k, s.threads[u]))
  }

  predicate PcMatchesRound(k: nat, th: Thread) {
    match th.pc
    case InitCarry | InitBubble => th.round == 0
    case Barrier => th.round <= k
    case LoadCarry | StoreCarry | LoadBubble | StoreBubble => 1 <= th.round <= k
    case LoadCarry0 | LoadBubble0 | Done => th.round == k + 1
  }

  predicate Arrived(th: Thread, r: nat) {
    th.round > r || (th.round == r && th.pc == Barrier)
  }

  predicate Enabled(c: Call, s: State, t: nat)
    requires t < |s.threads|
  {
    match s.threads[t].pc
    case Done => false
    case Barrier => forall u :: 0 <= u < |s.threads| ==> Arrived(s.threads[u], s.threads[t].round)
    case _ => true
  }

  /** The thread after its exchange of one load or store, given the shared cells it sees. */
  function Step(c: Call, s: State, t: nat): State
    requires c.Valid() && Shape(c, s) && t < c.N()
  {
    if !Enabled(c, s, t) then s
    else
      var th := s.threads[t];
      match th.pc
      case InitCarry =>
        s.(carry := s.carry[t := c.CarryInit(t)],
           threads := s.threads[t := th.(pc := InitBubble, carryVal := c.CarryInit(t))])
      case InitBubble =>
        s.(bubble := s.bubble[t := c.BubbleInit(t)],
           threads := s.threads[t := th.(pc := Barrier, bubbleVal := c.BubbleInit(t))])
      case Barrier =>
        s.(threads := s.threads[t := th.(pc := if th.round < c.k then LoadCarry else LoadCarry0,
                                                round := th.round + 1)])
      case LoadCarry =>
        PartnerInRange(c.k, t, th.round);
        var p := Partner(t, Offset(c.k, th.round));
        s.(threads := s.threads[t := th.(pc := StoreCarry, carryVal := Or(th.carryVal, s.carry[p]))])
      case StoreCarry =>
        s.(carry := s.carry[t := th.carryVal], threads := s.threads[t := th.(pc := LoadBubble)])
      case LoadBubble =>
        PartnerInRange(c.k, t, th.round);
        var p := Partner(t, Offset(c.k, th.round));
        s.(threads := s.threads[t := th.(pc := StoreBubble, bubbleVal := Or(th.bubbleVal, s.bubble[p]))])
      case StoreBubble =>
        s.(bubble := s.bubble[t := th.bubbleVal], threads := s.threads[t := th.(pc := Barrier)])
      case LoadCarry0 =>
        s.(threads := s.threads[t := th.(pc := LoadBubble0, carryVal := s.carry[0])])
      case LoadBubble0 =>
        s.(threads := s.threads[t := th.(pc := Done, bubbleVal := s.bubble[0])])
      case Done => s
  }

  lemma {:induction false} PartnerInRange(k: nat, t: nat, r: nat)
    requires 1 <= r <= k && t < Pow2(k)
    ensures 0 <= Partner(t, Offset(k, r)) < Pow2(k)
  {
    var d := Offset(k, r);
    Pow2Add(r - 1, k - r + 1);
    assert Pow2(k) == Pow2(r - 1) * (2 * d);
    PartnerBound(t, d, Pow2(r - 1));
  }

  lemma {:induction false} PartnerBound(t: nat, d: nat, m: nat)
    requires d > 0 && t < m * (2 * d)
    ensures 0 <= Partner(t, d) < m * (2 * d)
  {
    if (t / d) % 2 == 0 {
      IntArith.ModDouble(t, d);
      IntArith.BlockFits(t, 2 * d, m);
    } else {
      IntArith.QuotientPositive(t, d);
    }
  }

  // ----- what the cells hold

  /** After r rounds thread t has gathered the bits of the lanes congruent to t modulo n/2^r. */
  function Gathered(k: nat, bits: Word, r: nat, t: nat): (w: Word)
    requires r <= k && |bits| == Pow2(k)
    ensures |w| == |bits|
  {
    seq(|bits|, i requires 0 <= i < |bits| => bits[i] && i % Pow2(k - r) == t % Pow2(k - r))
  }

  /** One exchange round: a thread and its partner together. */
  lemma {:induction false} GatherRound(k: nat, bits: Word, r: nat, t: nat)
    requires 1 <= r <= k && |bits| == Pow2(k) && t < Pow2(k)
    ensures var p := Partner(t, Offset(k, r));
            && 0 <= p < Pow2(k)
            && Gathered(k, bits, r, t) == Or(Gathered(k, bits, r - 1, t), Gathered(k, bits, r - 1, p))
            && Gathered(k, bits, r, p) == Gathered(k, bits, r, t)
  {
    PartnerInRange(k, t, r);
    var d := Offset(k, r);
    var p := Partner(t, d);
    IntArith.ModDouble(t, d);
    IntArith.ModDouble(p, d);
    PartnerQuotient(t, d);
    forall i | 0 <= i < |bits|
      ensures i % d == t % d <==> i % (2 * d) == t % (2 * d) || i % (2 * d) == p % (2 * d)
    {
      IntArith.ModDouble(i, d);
    }
    assert Pow2(k - (r - 1)) == 2 * d;
  }

  lemma {:induction false} PartnerQuotient(t: nat, d: nat)
    requires d > 0
    ensures var p := Partner(t, d); p >= 0 && p % d == t % d && (p / d) % 2 != (t / d) % 2
  {
    if (t / d) % 2 == 0 {
      IntArith.DivUp(t, d);
    } else {
      IntArith.QuotientPositive(t, d);
      IntArith.DivDown(t, d);
    }
  }

  lemma {:induction false} GatheredAlone(k: nat, bits: Word, t: nat)
    requires |bits| == Pow2(k) && t < Pow2(k)
    ensures Gathered(k, bits, 0, t) == OneBit(|bits|, t, bits[t])
  {
    var d := Pow2(k);
    IntArith.SmallMod(t, d);
    forall i | 0 <= i < |bits|
      ensures Gathered(k, bits, 0, t)[i] == OneBit(|bits|, t, bits[t])[i]
    {
      IntArith.SmallMod(i, d);
    }
  }

  /** Masking out the top bit and shifting it down to position t. */
  lemma TopBitTo(word: Word, t: nat)
    requires t < |word|
    ensures var n := |word|;
            Shr(And(word, OneBit(n, n - 1, true)), n - 1 - t) == OneBit(n, t, word[n - 1])
  {
  }

  lemma XorCarry(a: Word, b: Word, s: Word)
    requires |a| == |b| == |s| > 0
    ensures Or(And(a, b), And(Xor(a, b), Not(s))) == DigitCarry(a, b, s)
  {
  }

  lemma {:induction false} CarryInitIsGathered(c: Call, t: nat)
    requires c.Valid() && t < c.N()
    ensures |c.Overflow()| == c.N() && c.CarryInit(t) == Gathered(c.k, c.Overflow(), 0, t)
  {
    var s := c.Partial(t);
    XorCarry(c.a[t], c.b[t], s);
    TopBitTo(DigitCarry(c.a[t], c.b[t], s), t);
    GatheredAlone(c.k, c.Overflow(), t);
    assert SimdAdd(c.a, c.b)[t] == s;
  }

  lemma {:induction false} BubbleInitIsGathered(c: Call, t: nat)
    requires c.Valid() && t < c.N()
    ensures |c.Bubbles()| == c.N() && c.BubbleInit(t) == Gathered(c.k, c.Bubbles(), 0, t)
  {
    IncrementToZero(c.Partial(t));
    assert SimdAdd(c.a, c.b)[t] == c.Partial(t);
    GatheredAlone(c.k, c.Bubbles(), t);
    var n := c.N();
    assert Shl(OneBit(n, 0, true), t) == OneBit(n, t, true);
    assert Zeros(n) == OneBit(n, t, false);
  }

  /** A sum plus one is zero exactly when the sum is all ones. */
  lemma {:induction false} IncrementToZero(s: Word)
    requires |s| > 0
    ensures Add(s, OneBit(|s|, 0, true)) == Zeros(|s|) <==> s == Ones(|s|)
  {
    var n, one := |s|, OneBit(|s|, 0, true);
    AddValue(s, one, false);
    OneBitValueTo(n, true, n);
    OnesValue(s);
    ValToBound(s, n);
    ZeroValue(n, n);
    if Val(Add(s, one)) == 0 {
      ValInjective(Add(s, one), Zeros(n));
    }
  }

  lemma ZeroValue(n: nat, m: nat)
    requires m <= n
    ensures ValTo(Zeros(n), m) == 0
  {
  }

  /** After the last round everybody has everything. */
  lemma GatheredAll(k: nat, bits: Word, t: nat)
    requires |bits| == Pow2(k)
    ensures Gathered(k, bits, k, t) == bits
  {
  }

  // ----- the invariant

  function CarryLevel(k: nat, th: Thread): int {
    match th.pc
    case InitCarry => -1
    case InitBubble => 0
    case Barrier => th.round
    case LoadCarry | StoreCarry => th.round - 1
    case LoadBubble | StoreBubble => th.round
    case LoadCarry0 | LoadBubble0 | Done => k
  }

  function BubbleLevel(k: nat, th: Thread): int {
    match th.pc
    case InitCarry | InitBubble => -1
    case Barrier => th.round
    case LoadCarry | StoreCarry | LoadBubble | StoreBubble => th.round - 1
    case LoadCarry0 | LoadBubble0 | Done => k
  }

  /** What thread t knows, and what it has published in its own two cells. */
  ghost predicate ThreadOk(c: Call, th: Thread, cell: Word, bubbleCell: Word, t: nat)
    requires c.Valid() && t < c.N()
  {
    var gen, bub := c.Overflow(), c.Bubbles();
    && |gen| == |bub| == c.N()
    && PcMatchesRound(c.k, th)
    && (CarryLevel(c.k, th) >= 0 ==> cell == Gathered(c.k, gen, CarryLevel(c.k, th), t))
    && (BubbleLevel(c.k, th) >= 0 ==> bubbleCell == Gathered(c.k, bub, BubbleLevel(c.k, th), t))
    && match th.pc
       case InitCarry => true
       case InitBubble => th.carryVal == Gathered(c.k, gen, 0, t)
       case Barrier =>
         && th.carryVal == Gathered(c.k, gen, th.round, t)
         && th.bubbleVal == Gathered(c.k, bub, th.round, t)
       case LoadCarry =>
         && th.carryVal == Gathered(c.k, gen, th.round - 1, t)
         && th.bubbleVal == Gathered(c.k, bub, th.round - 1, t)
       case StoreCarry | LoadBubble =>
         && th.carryVal == Gathered(c.k, gen, th.round, t)
         && th.bubbleVal == Gathered(c.k, bub, th.round - 1, t)
       case StoreBubble =>
         && th.carryVal == Gathered(c.k, gen, th.round, t)
         && th.bubbleVal == Gathered(c.k, bub, th.round, t)
       case LoadCarry0 => true
       case LoadBubble0 => th.carryVal == gen
       case Done => th.carryVal == gen && th.bubbleVal == bub
  }

  /** No thread is more than one barrier ahead of another, and then the other one stands at that barrier. */
  ghost predicate InStep(s: State) {
    forall t, u :: 0 <= t < |s.threads| && 0 <= u < |s.threads| && s.threads[t].round > 0 ==>
      Arrived(s.threads[u], s.threads[t].round - 1)
  }

  ghost predicate Inv(c: Call, s: State)
    requires c.Valid()
  {
    && Shape(c, s)
    && InStep(s)
    && forall t :: 0 <= t < c.N() ==> ThreadOk(c, s.threads[t], s.carry[t], s.bubble[t], t)
  }

  /** Reading the partner's carry cell gives the bits of the round whether or not the partner has
      already overwritten it. */
  lemma {:induction false} PartnerLoad(k: nat, bits: Word, r: nat, t: nat, level: nat)
    requires 1 <= r <= k && |bits| == Pow2(k) && t < Pow2(k) && (level == r - 1 || level == r)
    ensures 0 <= Partner(t, Offset(k, r)) < Pow2(k)
    ensures Or(Gathered(k, bits, r - 1, t), Gathered(k, bits, level, Partner(t, Offset(k, r))))
         == Gathered(k, bits, r, t)
  {
    GatherRound(k, bits, r, t);
    if level == r {
      var g0, g := Gathered(k, bits, r - 1, t), Gathered(k, bits, r, t);
      forall i | 0 <= i < |bits|
        ensures g0[i] ==> g[i]
      {
      }
      assert Or(g0, g) == g;
    }
  }

  lemma {:induction false} PartnerLevels(c: Call, s: State, t: nat, p: nat)
    requires c.Valid() && Inv(c, s) && t < c.N() && p < c.N()
    requires s.threads[t].pc.LoadCarry? || s.threads[t].pc.LoadBubble?
    ensures var r := s.threads[t].round;
            && CarryLevel(c.k, s.threads[p]) in {r - 1, r as int}
            && BubbleLevel(c.k, s.threads[p]) in {r - 1, r as int}
  {
    assert Arrived(s.threads[p], s.threads[t].round - 1);
    if s.threads[p].round > 0 {
      assert Arrived(s.threads[t], s.threads[p].round - 1);
    }
  }

  ghost predicate StepKeepsThread(c: Call, s: State, t: nat)
    requires c.Valid() && Shape(c, s) && t < c.N()
  {
    var s' := Step(c, s, t);
    && Shape(c, s')
    && ThreadOk(c, s'.threads[t], s'.carry[t], s'.bubble[t], t)
  }

  lemma {:induction false} StepInit(c: Call, s: State, t: nat)
    requires c.Valid() && Inv(c, s) && t < c.N() && (s.threads[t].pc.InitCarry? || s.threads[t].pc.InitBubble?)
    ensures StepKeepsThread(c, s, t)
  {
    assert ThreadOk(c, s.threads[t], s.carry[t], s.bubble[t], t);
    CarryInitIsGathered(c, t);
    BubbleInitIsGathered(c, t);
  }

  lemma {:induction false} StepLoadCarry(c: Call, s: State, t: nat)
    requires c.Valid() && Inv(c, s) && t < c.N() && (s.threads[t].pc.LoadCarry?)
    ensures StepKeepsThread(c, s, t)
  {
    assert ThreadOk(c, s.threads[t], s.carry[t], s.bubble[t], t);
    var r := s.threads[t].round;
    PartnerInRange(c.k, t, r);
    var p := Partner(t, Offset(c.k, r));
    PartnerLevels(c, s, t, p);
    assert ThreadOk(c, s.threads[p], s.carry[p], s.bubble[p], p);
    PartnerLoad(c.k, c.Overflow(), r, t, CarryLevel(c.k, s.threads[p]));
  }

  lemma {:induction false} StepLoadBubble(c: Call, s: State, t: nat)
    requires c.Valid() && Inv(c, s) && t < c.N() && (s.threads[t].pc.LoadBubble?)
    ensures StepKeepsThread(c, s, t)
  {
    assert ThreadOk(c, s.threads[t], s.carry[t], s.bubble[t], t);
    var r := s.threads[t].round;
    PartnerInRange(c.k, t, r);
    var p := Partner(t, Offset(c.k, r));
    PartnerLevels(c, s, t, p);
    assert ThreadOk(c, s.threads[p], s.carry[p], s.bubble[p], p);
    PartnerLoad(c.k, c.Bubbles(), r, t, BubbleLevel(c.k, s.threads[p]));
  }

  lemma {:induction false} StepFinalLoad(c: Call, s: State, t: nat)
    requires c.Valid() && Inv(c, s) && t < c.N() && (s.threads[t].pc.LoadCarry0? || s.threads[t].pc.LoadBubble0?)
    ensures StepKeepsThread(c, s, t)
  {
    assert ThreadOk(c, s.threads[t], s.carry[t], s.bubble[t], t);
    assert Arrived(s.threads[0], c.k);
    assert ThreadOk(c, s.threads[0], s.carry[0], s.bubble[0], 0);
    GatheredAll(c.k, c.Overflow(), 0);
    GatheredAll(c.k, c.Bubbles(), 0);
  }

  lemma {:induction false} StepStoreOrWait(c: Call, s: State, t: nat)
    requires c.Valid() && Inv(c, s) && t < c.N()
    requires s.threads[t].pc in {StoreCarry, StoreBubble, Barrier, Done}
    ensures StepKeepsThread(c, s, t)
  {
    assert ThreadOk(c, s.threads[t], s.carry[t], s.bubble[t], t);
  }

  lemma {:induction false} StepThreadOk(c: Call, s: State, t: nat)
    requires c.Valid() && Inv(c, s) && t < c.N()
    ensures StepKeepsThread(c, s, t)
  {
    match s.threads[t].pc
    case InitCarry | InitBubble => StepInit(c, s, t);
    case LoadCarry => StepLoadCarry(c, s, t);
    case LoadBubble => StepLoadBubble(c, s, t);
    case LoadCarry0 | LoadBubble0 => StepFinalLoad(c, s, t);
    case StoreCarry | StoreBubble | Barrier | Done => StepStoreOrWait(c, s, t);
  }

  /** A thread keeps its round and does not leave a barrier, or passes one at which all threads have arrived. */
  ghost predicate Moves(threads: seq<Thread>, t: nat, th: Thread)
    requires t < |threads|
  {
    || (th.round == threads[t].round && (threads[t].pc == Barrier ==> th.pc == Barrier))
    || (th.round == threads[t].round + 1 && forall u :: 0 <= u < |threads| ==> Arrived(threads[u], threads[t].round))
  }

  lemma StepMoves(c: Call, s: State, t: nat)
    requires c.Valid() && Shape(c, s) && t < c.N()
    ensures |Step(c, s, t).threads| == |s.threads| && Moves(s.threads, t, Step(c, s, t).threads[t])
    ensures Step(c, s, t).threads == s.threads[t := Step(c, s, t).threads[t]]
  {
  }

  lemma {:induction false} MovesInStep(s: State, s': State, t: nat)
    requires t < |s.threads| == |s'.threads| && InStep(s) && Moves(s.threads, t, s'.threads[t])
    requires s'.threads == s.threads[t := s'.threads[t]]
    ensures InStep(s')
  {
    forall i, u | 0 <= i < |s'.threads| && 0 <= u < |s'.threads| && s'.threads[i].round > 0
      ensures Arrived(s'.threads[u], s'.threads[i].round - 1)
    {
      assert s.threads[i].round > 0 ==> Arrived(s.threads[u], s.threads[i].round - 1);
    }
  }

  lemma {:induction false} StepInStep(c: Call, s: State, t: nat)
    requires c.Valid() && Inv(c, s) && t < c.N()
    ensures InStep(Step(c, s, t))
  {
    StepMoves(c, s, t);
    MovesInStep(s, Step(c, s, t), t);
  }

  /** Every step of every thread keeps the invariant. */
  lemma {:induction false} StepInv(c: Call, s: State, t: nat)
    requires c.Valid() && Inv(c, s) && t < c.N()
    ensures Inv(c, Step(c, s, t))
  {
    StepThreadOk(c, s, t);
    StepInStep(c, s, t);
    var s' := Step(c, s, t);
    forall u | 0 <= u < c.N()
      ensures ThreadOk(c, s'.threads[u], s'.carry[u], s'.bubble[u], u)
    {
      assert ThreadOk(c, s.threads[u], s.carry[u], s.bubble[u], u);
    }
  }

  // ----- runs

  /** Any initial contents of locals and shared cells. */
  ghost predicate Start(c: Call, s: State) {
    && Shape(c, s)
    && forall t :: 0 <= t < c.N() ==> s.threads[t].pc == InitCarry
  }

  /** The state after the threads have taken steps in the given order. */
  function Run(c: Call, s: State, schedule: seq<nat>): (r: State)
    requires c.Valid() && Shape(c, s) && Schedule(c.N(), schedule)
    ensures Shape(c, r)
    decreases |schedule|
  {
    if |schedule| == 0 then s
    else
      var m := |schedule| - 1;
      var before := Run(c, s, schedule[..m]);
      StepShape(c, before, schedule[m]);
      Step(c, before, schedule[m])
  }

  lemma {:induction false} StepShape(c: Call, s: State, t: nat)
    requires c.Valid() && Shape(c, s) && t < c.N()
    ensures Shape(c, Step(c, s, t))
  {
    if Enabled(c, s, t) {
      match s.threads[t].pc
      case LoadCarry | LoadBubble => PartnerInRange(c.k, t, s.threads[t].round);
      case _ =>
    }
  }

  /** The invariant holds in every state of every interleaving. */
  lemma {:induction false} RunInv(c: Call, s: State, schedule: seq<nat>)
    requires c.Valid() && Start(c, s) && Schedule(c.N(), schedule)
    ensures Inv(c, Run(c, s, schedule))
    decreases |schedule|
  {
    if |schedule| == 0 {
      assert |c.Overflow()| == |c.Bubbles()| == c.N();
    } else {
      var m := |schedule| - 1;
      RunInv(c, s, schedule[..m]);
      StepInv(c, Run(c, s, schedule[..m]), schedule[m]);
    }
  }

  /** In every interleaving all finished threads hold the complete carry and bubble masks. */
  lemma {:induction false} FinishedThreadsAgree(c: Call, s: State, schedule: seq<nat>, t: nat)
    requires c.Valid() && Start(c, s) && Schedule(c.N(), schedule)
    requires t < c.N() && Run(c, s, schedule).threads[t].pc == Done
    ensures Run(c, s, schedule).threads[t].carryVal == c.Overflow()
    ensures Run(c, s, schedule).threads[t].bubbleVal == c.Bubbles()
  {
    RunInv(c, s, schedule);
    var r := Run(c, s, schedule);
    assert ThreadOk(c, r.threads[t], r.carry[t], r.bubble[t], t);
  }

  // ----- progress

  /** Steps thread th still has to take. */
  function Left(k: nat, th: Thread): nat
    requires PcMatchesRound(k, th)
  {
    match th.pc
    case InitCarry => 5 * k + 5
    case InitBubble => 5 * k + 4
    case Barrier => 5 * (k - th.round) + 3
    case LoadCarry => 5 * (k - th.round) + 7
    case StoreCarry => 5 * (k - th.round) + 6
    case LoadBubble => 5 * (k - th.round) + 5
    case StoreBubble => 5 * (k - th.round) + 4
    case LoadCarry0 => 2
    case LoadBubble0 => 1
    case Done => 0
  }

  function TotalLeft(k: nat, ths: seq<Thread>): nat
    requires forall u :: 0 <= u < |ths| ==> PcMatchesRound(k, ths[u])
  {
    if |ths| == 0 then 0 else Left(k, ths[0]) + TotalLeft(k, ths[1..])
  }

  lemma {:induction false} TotalLeftUpdate(k: nat, ths: seq<Thread>, t: nat, th: Thread)
    requires forall u :: 0 <= u < |ths| ==> PcMatchesRound(k, ths[u])
    requires t < |ths| && PcMatchesRound(k, th)
    ensures TotalLeft(k, ths[t := th]) == TotalLeft(k, ths) - Left(k, ths[t]) + Left(k, th)
  {
    if t == 0 {
      assert ths[t := th][1..] == ths[1..];
    } else {
      assert ths[t := th][1..] == ths[1..][t - 1 := th];
      TotalLeftUpdate(k, ths[1..], t - 1, th);
    }
  }

  /** Each step that is not a wait brings the group one step closer to completion, so no interleaving
      contains more than n(5k + 5) of them. */
  lemma {:induction false} StepMakesProgress(c: Call, s: State, t: nat)
    requires c.Valid() && Shape(c, s) && t < c.N() && Enabled(c, s, t)
    ensures Shape(c, Step(c, s, t))
    ensures TotalLeft(c.k, Step(c, s, t).threads) == TotalLeft(c.k, s.threads) - 1
  {
    StepShape(c, s, t);
    var s' := Step(c, s, t);
    assert s'.threads == s.threads[t := s'.threads[t]];
    TotalLeftUpdate(c.k, s.threads, t, s'.threads[t]);
  }

  /** A thread that has passed the fewest barriers. */
  lemma {:induction false} Slowest(ths: seq<Thread>) returns (t: nat)
    requires |ths| > 0
    ensures t < |ths| && forall u :: 0 <= u < |ths| ==> ths[t].round <= ths[u].round
  {
    t := 0;
    for i := 0 to |ths|
      invariant t < |ths| && forall u :: 0 <= u < i ==> ths[t].round <= ths[u].round
    {
      if ths[i].round < ths[t].round {
        t := i;
      }
    }
  }

  /** No interleaving deadlocks: unless every thread is done, some thread can move. */
  lemma {:induction false} NoDeadlock(c: Call, s: State) returns (t: nat)
    requires c.Valid() && Inv(c, s)
    requires exists u :: 0 <= u < c.N() && s.threads[u].pc != Done
    ensures t < c.N() && Enabled(c, s, t)
  {
    t := Slowest(s.threads);
    var r := s.threads[t].round;
    if exists u :: 0 <= u < c.N() && s.threads[u].round == r && s.threads[u].pc !in {Barrier, Done} {
      t :| 0 <= t < c.N() && s.threads[t].round == r && s.threads[t].pc !in {Barrier, Done};
    } else if s.threads[t].pc == Barrier {
      forall u | 0 <= u < c.N()
        ensures Arrived(s.threads[u], r)
      {
      }
    }
  }

  ghost predicate AllDone(s: State) {
    forall u :: 0 <= u < |s.threads| ==> s.threads[u].pc == Done
  }

  /** Until all threads are done, some thread can take a step that is not a wait. */
  lemma {:induction false} OneMoreStep(c: Call, s: State, schedule: seq<nat>, left: nat) returns (t: nat)
    requires c.Valid() && Start(c, s) && Schedule(c.N(), schedule)
    requires !AllDone(Run(c, s, schedule)) && left == TotalLeft(c.k, Run(c, s, schedule).threads)
    ensures t < c.N() && Schedule(c.N(), schedule + [t])
    ensures left == TotalLeft(c.k, Run(c, s, schedule + [t]).threads) + 1
  {
    var now := Run(c, s, schedule);
    RunInv(c, s, schedule);
    t := NoDeadlock(c, now);
    StepMakesProgress(c, now, t);
    var next := schedule + [t];
    assert next[..|next| - 1] == schedule;
  }

  /** Every interleaving, wherever it has got to, can be continued until all threads are done. */
  lemma {:induction false} RunCanFinish(c: Call, s: State, schedule: seq<nat>, left: nat) returns (whole: seq<nat>)
    requires c.Valid() && Start(c, s) && Schedule(c.N(), schedule)
    requires left == TotalLeft(c.k, Run(c, s, schedule).threads)
    ensures schedule <= whole && Schedule(c.N(), whole) && AllDone(Run(c, s, whole))
    decreases left
  {
    if AllDone(Run(c, s, schedule)) {
      whole := schedule;
    } else {
      var t := OneMoreStep(c, s, schedule, left);
      whole := RunCanFinish(c, s, schedule + [t], left - 1);
    }
  }

  // ----- fair runs

  lemma {:induction false} StepCounts(c: Call, s: State, t: nat)
    requires c.Valid() && Shape(c, s) && t < c.N()
    ensures Shape(c, Step(c, s, t))
    ensures if Enabled(c, s, t) then TotalLeft(c.k, Step(c, s, t).threads) == TotalLeft(c.k, s.threads) - 1
            else Step(c, s, t) == s
  {
    StepShape(c, s, t);
    if Enabled(c, s, t) { StepMakesProgress(c, s, t); }
  }

  /** r is s, or fewer steps are left in r. */
  ghost predicate Advanced(c: Call, s: State, r: State) {
    Shape(c, s) && Shape(c, r) && (r == s || TotalLeft(c.k, r.threads) < TotalLeft(c.k, s.threads))
  }

  lemma {:induction false} StepAdvances(c: Call, s: State, before: State, u: nat, t: nat)
    requires c.Valid() && Advanced(c, s, before) && u < c.N() && t < c.N()
    ensures Advanced(c, s, Step(c, before, u))
    ensures before != s || (u == t && Enabled(c, s, t)) ==>
      Shape(c, Step(c, before, u)) && TotalLeft(c.k, Step(c, before, u).threads) < TotalLeft(c.k, s.threads)
  {
    StepCounts(c, before, u);
  }

  /** A run that changes nothing has let no thread move, so thread t gets its move when its turn comes. */
  lemma {:induction false} RunCounts(c: Call, s: State, schedule: seq<nat>, t: nat)
    requires c.Valid() && Shape(c, s) && Schedule(c.N(), schedule) && t < c.N()
    ensures Advanced(c, s, Run(c, s, schedule))
    ensures t in schedule && Enabled(c, s, t) ==>
      TotalLeft(c.k, Run(c, s, schedule).threads) < TotalLeft(c.k, s.threads)
  {
    if schedule != [] {
      var m := |schedule| - 1;
      RunCounts(c, s, schedule[..m], t);
      StepAdvances(c, s, Run(c, s, schedule[..m]), schedule[m], t);
    }
  }

  lemma {:induction false} RunConcat(c: Call, s: State, a: seq<nat>, b: seq<nat>)
    requires c.Valid() && Shape(c, s) && Schedule(c.N(), a) && Schedule(c.N(), b)
    ensures Schedule(c.N(), a + b) && Run(c, s, a + b) == Run(c, Run(c, s, a), b)
  {
    if b == [] {
      assert a + b == a;
    } else {
      var m := |b| - 1;
      RunConcat(c, s, a, b[..m]);
      assert (a + b)[..|a + b| - 1] == a + b[..m];
    }
  }

  lemma {:induction false} StartLeft(k: nat, ths: seq<Thread>)
    requires forall u :: 0 <= u < |ths| ==> PcMatchesRound(k, ths[u]) && ths[u].pc == InitCarry
    ensures TotalLeft(k, ths) == |ths| * (5 * k + 5)
  {
    if |ths| > 0 { StartLeft(k, ths[1..]); }
  }

  /** One more round brings a move, unless all threads are done. */
  lemma {:induction false} RoundCounts(c: Call, s: State, round: seq<nat>)
    requires c.Valid() && Inv(c, s) && Round(c.N(), round) && !AllDone(s)
    ensures TotalLeft(c.k, Run(c, s, round).threads) < TotalLeft(c.k, s.threads)
  {
    var t := NoDeadlock(c, s);
    RunCounts(c, s, round, t);
  }

  lemma {:induction false} DoneStays(c: Call, s: State, schedule: seq<nat>)
    requires c.Valid() && Shape(c, s) && Schedule(c.N(), schedule) && AllDone(s)
    ensures Run(c, s, schedule) == s
  {
    if schedule != [] { DoneStays(c, s, schedule[..|schedule| - 1]); }
  }

  lemma {:induction false} RoundsCount(c: Call, s: State, rounds: seq<seq<nat>>, k: nat)
    requires c.Valid() && Start(c, s) && k <= |rounds| && AllRounds(c.N(), rounds)
    ensures Schedule(c.N(), Whole(rounds, k))
    ensures var r := Run(c, s, Whole(rounds, k));
            AllDone(r) || TotalLeft(c.k, r.threads) + k <= TotalLeft(c.k, s.threads)
  {
    WholeSchedule(c.N(), rounds, k);
    if k > 0 {
      RoundsCount(c, s, rounds, k - 1);
      var before := Run(c, s, Whole(rounds, k - 1));
      RunInv(c, s, Whole(rounds, k - 1));
      RunConcat(c, s, Whole(rounds, k - 1), rounds[k - 1]);
      if AllDone(before) {
        DoneStays(c, before, rounds[k - 1]);
      } else {
        RoundCounts(c, before, rounds[k - 1]);
      }
    }
  }

  /** Every fair interleaving finishes: after 5k + 5 rounds for each thread all threads are done. */
  lemma {:induction false} FairRunFinishes(c: Call, s: State, rounds: seq<seq<nat>>)
    requires c.Valid() && Start(c, s) && AllRounds(c.N(), rounds)
    requires |rounds| >= c.N() * (5 * c.k + 5)
    ensures Schedule(c.N(), Whole(rounds, |rounds|)) && AllDone(Run(c, s, Whole(rounds, |rounds|)))
  {
    StartLeft(c.k, s.threads);
    RoundsCount(c, s, rounds, |rounds|);
    var r := Run(c, s, Whole(rounds, |rounds|));
    if !AllDone(r) {
      RunInv(c, s, Whole(rounds, |rounds|));
      var t := NoDeadlock(c, r);
      StepMakesProgress(c, r, t);
    }
  }

  // ----- the result

  /** Runs of bubbles entered by a carry, together with the lane after each run. */
  function Increments(carryMask: Word, bubbleMask: Word): (inc: Word)
    requires |carryMask| == |bubbleMask|
    ensures |inc| == |carryMask|
  {
    var s := And(Add(carryMask, bubbleMask), Not(bubbleMask));
    Or(s, Sub(s, carryMask))
  }

  lemma {:induction false} IncrementsAreCarries(gen: Word, bub: Word, cin: bool, i: nat)
    requires |gen| == |bub| && i < |gen| && Exclusive(gen, bub)
    ensures Increments(Or(Shl(gen, 1), OneBit(|gen|, 0, cin)), bub)[i] == LaneCarry(gen, bub, cin, i)
  {
    MarkerSpanAt(gen, bub, cin, i);
  }

  /** What a thread computes from its lane and the two masks it has read: its lane of the sum and
      the carry out of the block. */
  function Finish(partial: Word, t: nat, carryVal0: Word, bubbleMask: Word, blockCarry: Word): (Word, Word)
    requires |partial| == |carryVal0| == |bubbleMask| == |blockCarry| > 0
  {
    var n := |partial|;
    var inc := Increments(Or(Shl(carryVal0, 1), blockCarry), bubbleMask);
    var rslt := Add(partial, And(Shr(inc, t), OneBit(n, 0, true)));
    (rslt, Shr(Or(carryVal0, And(bubbleMask, inc)), n - 1))
  }

  lemma LowBitOf(inc: Word, t: nat)
    requires t < |inc|
    ensures And(Shr(inc, t), OneBit(|inc|, 0, true)) == OneBit(|inc|, 0, inc[t])
  {
  }

  lemma TopBitOf(w: Word)
    requires |w| > 0
    ensures Shr(w, |w| - 1) == OneBit(|w|, 0, w[|w| - 1])
  {
  }

  lemma {:induction false} FinishLaneSum(gen: Word, bub: Word, cin: bool, t: nat, inc: Word)
    requires |gen| == |bub| > 0 && t < |gen| && Exclusive(gen, bub)
    requires inc == Increments(Or(Shl(gen, 1), OneBit(|gen|, 0, cin)), bub)
    ensures And(Shr(inc, t), OneBit(|gen|, 0, true)) == OneBit(|gen|, 0, LaneCarry(gen, bub, cin, t))
  {
    IncrementsAreCarries(gen, bub, cin, t);
    LowBitOf(inc, t);
  }

  lemma {:induction false} FinishCarryOut(gen: Word, bub: Word, cin: bool, n: nat, inc: Word)
    requires |gen| == |bub| == n > 0 && Exclusive(gen, bub)
    requires inc == Increments(Or(Shl(gen, 1), OneBit(n, 0, cin)), bub)
    ensures Shr(Or(gen, And(bub, inc)), n - 1) == OneBit(n, 0, LaneCarry(gen, bub, cin, n))
  {
    IncrementsAreCarries(gen, bub, cin, n - 1);
    TopBitOf(Or(gen, And(bub, inc)));
  }

  lemma {:induction false} FinishFromMasks(partial: Word, t: nat, gen: Word, bub: Word, cin: bool, n: nat)
    requires |partial| == |gen| == |bub| == n > 0 && t < n && Exclusive(gen, bub)
    ensures Finish(partial, t, gen, bub, OneBit(n, 0, cin)) ==
      (Add(partial, OneBit(n, 0, LaneCarry(gen, bub, cin, t))), OneBit(n, 0, LaneCarry(gen, bub, cin, n)))
  {
    var inc := Increments(Or(Shl(gen, 1), OneBit(n, 0, cin)), bub);
    FinishLaneSum(gen, bub, cin, t, inc);
    FinishCarryOut(gen, bub, cin, n, inc);
  }

  /** With the complete masks, thread t increments its lane by the carry into it, and every thread
      reports the same carry out. */
  lemma {:induction false} FinishLane(c: Call, t: nat)
    requires c.Valid() && t < c.N()
    ensures |c.Overflow()| == |c.Bubbles()| == c.N()
    ensures var gen, bub := c.Overflow(), c.Bubbles();
            var r := Finish(c.Partial(t), t, gen, bub, OneBit(c.N(), 0, c.cin));
            && r.0 == Add(c.Partial(t), OneBit(c.N(), 0, LaneCarry(gen, bub, c.cin, t)))
            && r.1 == OneBit(c.N(), 0, LaneCarry(gen, bub, c.cin, c.N()))
  {
    MasksExclusive(c.a, c.b, c.N());
    FinishFromMasks(c.Partial(t), t, c.Overflow(), c.Bubbles(), c.cin, c.N());
  }

  /** The results of all threads of one finished interleaving. */
  function Results(c: Call, s: State): seq<Word>
    requires c.Valid() && Shape(c, s)
  {
    seq(c.N(), t requires 0 <= t < c.N() =>
      Finish(c.Partial(t), t, s.threads[t].carryVal, s.threads[t].bubbleVal, OneBit(c.N(), 0, c.cin)).0)
  }

  function CarryOut(c: Call, s: State, t: nat): Word
    requires c.Valid() && Shape(c, s) && t < c.N()
  {
    Finish(c.Partial(t), t, s.threads[t].carryVal, s.threads[t].bubbleVal, OneBit(c.N(), 0, c.cin)).1
  }

  /** In every interleaving in which all threads finish, the lanes they return and the one carry they
      all report are the sum of the two blocks and the incoming carry. */
  lemma {:induction false} LongAddIsAddition(c: Call, s: State, schedule: seq<nat>) returns (cout: bool)
    requires c.Valid() && Start(c, s) && Schedule(c.N(), schedule)
    requires forall t :: 0 <= t < c.N() ==> Run(c, s, schedule).threads[t].pc == Done
    ensures var r := Run(c, s, schedule);
            && (forall t :: 0 <= t < c.N() ==> CarryOut(c, r, t) == OneBit(c.N(), 0, cout))
            && BlockVal(Results(c, r), c.N()) + Weigh(cout, Power(Pow2(c.N()), c.N()))
               == BlockVal(c.a, c.N()) + BlockVal(c.b, c.N()) + Bit(c.cin)
  {
    var r, n := Run(c, s, schedule), c.N();
    var gen, bub := c.Overflow(), c.Bubbles();
    cout := LaneCarry(gen, bub, c.cin, n);
    forall t | 0 <= t < n
      ensures CarryOut(c, r, t) == OneBit(n, 0, cout)
      ensures Results(c, r)[t] == Add(c.Partial(t), OneBit(n, 0, LaneCarry(gen, bub, c.cin, t)))
    {
      FinishedThreadsAgree(c, s, schedule, t);
      FinishLane(c, t);
    }
    LanesSum(c.a, c.b, Results(c, r), gen, bub, c.cin, n);
  }
}
