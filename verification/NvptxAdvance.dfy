/** IDISA_NVPTX20_Builder::CreateLongAdvanceFunc: n threads advance an n-lane block by less than a lane.  Every thread
    writes the block carry to the first shared cell and the bits it pushes out to the cell after its own number; after a
    barrier it reads the cell with its number and the last one.

    As in NvptxAddition, a step is a single load or store, and a schedule is any sequence of thread numbers. */
module NvptxAdvance {
  import opened BitWords
  import opened Schedules

  datatype Pc = StoreFirst | StoreNext | Barrier | LoadLast | LoadOwn | Done
  datatype Thread = Thread(pc: Pc, carryOut: Word, carryVal: Word)
  datatype State = State(threads: seq<Thread>, carry: seq<Word>)

  /** The lanes, the shift in bits and the carry into the block, which all threads are given alike. */
  datatype Call = Call(lanes: seq<Word>, shift: nat, blockCarry: Word) {
    /** A carry holds at most `shift` bits. */
    predicate Valid() {
      && 0 < shift < |blockCarry| && |lanes| > 0
      && (forall t :: 0 <= t < |lanes| ==> |lanes[t]| == |blockCarry|)
      && (forall j :: shift <= j < |blockCarry| ==> !blockCarry[j])
    }

    /** The bits that leave lane t. */
    function Pushed(t: nat): (r: Word)
      requires Valid() && t < |lanes|
      ensures |r| == |blockCarry|
    {
      Shr(lanes[t], |blockCarry| - shift)
    }

    /** What belongs in cell t. */
    function CarryInto(t: nat): (r: Word)
      requires Valid() && t <= |lanes|
      ensures |r| == |blockCarry|
    {
      if t == 0 then blockCarry else Pushed(t - 1)
    }
  }

  predicate Shape(c: Call, s: State) {
    |s.threads| == |c.lanes| && |s.carry| == |c.lanes| + 1
  }

  predicate Arrived(th: Thread) {
    !th.pc.StoreFirst? && !th.pc.StoreNext?
  }

  predicate Enabled(s: State, t: nat)
    requires t < |s.threads|
  {
    match s.threads[t].pc
    case Done => false
    case Barrier => forall u :: 0 <= u < |s.threads| ==> Arrived(s.threads[u])
    case _ => true
  }

  function Step(c: Call, s: State, t: nat): (r: State)
    requires c.Valid() && Shape(c, s) && t < |c.lanes|
    ensures Shape(c, r)
  {
    if !Enabled(s, t) then s
    else
      var th := s.threads[t];
      match th.pc
      case StoreFirst => s.(carry := s.carry[0 := c.blockCarry], threads := s.threads[t := th.(pc := StoreNext)])
      case StoreNext => s.(carry := s.carry[t + 1 := c.Pushed(t)], threads := s.threads[t := th.(pc := Barrier)])
      case Barrier => s.(threads := s.threads[t := th.(pc := LoadLast)])
      case LoadLast => s.(threads := s.threads[t := th.(pc := LoadOwn, carryOut := s.carry[|c.lanes|])])
      case LoadOwn => s.(threads := s.threads[t := th.(pc := Done, carryVal := s.carry[t])])
      case Done => s
  }

  predicate Passed(th: Thread) {
    th.pc.LoadLast? || th.pc.LoadOwn? || th.pc.Done?
  }

  ghost predicate ThreadOk(c: Call, s: State, t: nat)
    requires c.Valid() && Shape(c, s) && t < |c.lanes|
  {
    var th := s.threads[t];
    && (!th.pc.StoreFirst? ==> s.carry[0] == c.blockCarry)
    && (Arrived(th) ==> s.carry[t + 1] == c.Pushed(t))
    && (Passed(th) ==> forall u :: 0 <= u < |c.lanes| ==> Arrived(s.threads[u]))
    && (th.pc.LoadOwn? || th.pc.Done? ==> th.carryOut == c.CarryInto(|c.lanes|))
    && (th.pc.Done? ==> th.carryVal == c.CarryInto(t))
  }

  ghost predicate Inv(c: Call, s: State) {
    c.Valid() && Shape(c, s) && forall t :: 0 <= t < |c.lanes| ==> ThreadOk(c, s, t)
  }

  /** A step of a thread keeps the invariant of every thread, itself included. */
  lemma {:induction false} StepInv(c: Call, s: State, t: nat)
    requires Inv(c, s) && t < |c.lanes|
    ensures Inv(c, Step(c, s, t))
  {
    var n := |c.lanes|;
    var r := Step(c, s, t);
    assert ThreadOk(c, s, t);
    if Passed(s.threads[t]) {
      assert ThreadOk(c, s, n - 1) && ThreadOk(c, s, if t > 0 then t - 1 else 0);
    }
    forall u | 0 <= u < n
      ensures ThreadOk(c, r, u)
    {
      assert ThreadOk(c, s, u);
    }
  }

  /** Any initial contents of the locals and the shared cells. */
  ghost predicate Start(c: Call, s: State) {
    Shape(c, s) && forall t :: 0 <= t < |c.lanes| ==> s.threads[t].pc == StoreFirst
  }

  function Run(c: Call, s: State, schedule: seq<nat>): (r: State)
    requires c.Valid() && Shape(c, s) && Schedule(|c.lanes|, schedule)
    ensures Shape(c, r)
  {
    if |schedule| == 0 then s
    else Step(c, Run(c, s, schedule[..|schedule| - 1]), schedule[|schedule| - 1])
  }

  lemma {:induction false} RunInv(c: Call, s: State, schedule: seq<nat>)
    requires c.Valid() && Start(c, s) && Schedule(|c.lanes|, schedule)
    ensures Inv(c, Run(c, s, schedule))
  {
    if |schedule| > 0 {
      RunInv(c, s, schedule[..|schedule| - 1]);
      StepInv(c, Run(c, s, schedule[..|schedule| - 1]), schedule[|schedule| - 1]);
    }
  }

  // ------------------------------------------------------------------ all threads can finish

  ghost predicate AllDone(s: State) {
    forall t :: 0 <= t < |s.threads| ==> s.threads[t].pc.Done?
  }

  function Left(pc: Pc): nat {
    match pc
    case StoreFirst => 5
    case StoreNext => 4
    case Barrier => 3
    case LoadLast => 2
    case LoadOwn => 1
    case Done => 0
  }

  function TotalLeft(threads: seq<Thread>): nat {
    if |threads| == 0 then 0 else TotalLeft(threads[..|threads| - 1]) + Left(threads[|threads| - 1].pc)
  }

  lemma {:induction false} TotalLeftUpdate(threads: seq<Thread>, t: nat, th: Thread)
    requires t < |threads|
    ensures TotalLeft(threads[t := th]) == TotalLeft(threads) - Left(threads[t].pc) + Left(th.pc)
  {
    var last := |threads| - 1;
    if t == last {
      assert threads[t := th][..last] == threads[..last];
    } else {
      assert threads[t := th][..last] == threads[..last][t := th];
      TotalLeftUpdate(threads[..last], t, th);
    }
  }

  /** Unless all threads are done some thread can move, and every move is one of 5n. */
  lemma {:induction false} SomeMove(c: Call, s: State) returns (t: nat)
    requires c.Valid() && Shape(c, s) && !AllDone(s)
    ensures t < |c.lanes| && TotalLeft(Step(c, s, t).threads) == TotalLeft(s.threads) - 1
  {
    if u :| 0 <= u < |s.threads| && !Arrived(s.threads[u]) {
      t := u;
    } else {
      t :| 0 <= t < |s.threads| && !s.threads[t].pc.Done?;
    }
    TotalLeftUpdate(s.threads, t, Step(c, s, t).threads[t]);
  }

  /** Every interleaving, wherever it has got to, can be continued until all threads are done. */
  lemma {:induction false} RunCanFinish(c: Call, s: State, schedule: seq<nat>) returns (whole: seq<nat>)
    requires c.Valid() && Start(c, s) && Schedule(|c.lanes|, schedule)
    ensures schedule <= whole && Schedule(|c.lanes|, whole) && AllDone(Run(c, s, whole))
    decreases TotalLeft(Run(c, s, schedule).threads)
  {
    if AllDone(Run(c, s, schedule)) {
      whole := schedule;
    } else {
      var t := SomeMove(c, Run(c, s, schedule));
      var next := schedule + [t];
      assert next[..|next| - 1] == schedule;
      whole := RunCanFinish(c, s, next);
    }
  }

  // ------------------------------------------------------------------ fair runs

  /** A step waits without any change or uses up one of the moves. */
  lemma {:induction false} StepCounts(c: Call, s: State, t: nat)
    requires c.Valid() && Shape(c, s) && t < |c.lanes|
    ensures if Enabled(s, t) then TotalLeft(Step(c, s, t).threads) == TotalLeft(s.threads) - 1 else Step(c, s, t) == s
  {
    if Enabled(s, t) { TotalLeftUpdate(s.threads, t, Step(c, s, t).threads[t]); }
  }

  /** So a run that changes nothing has let no thread move, and thread t gets its move when its turn comes. */
  lemma {:induction false} RunCounts(c: Call, s: State, schedule: seq<nat>, t: nat)
    requires c.Valid() && Shape(c, s) && Schedule(|c.lanes|, schedule) && t < |c.lanes|
    ensures Run(c, s, schedule) == s || TotalLeft(Run(c, s, schedule).threads) < TotalLeft(s.threads)
    ensures t in schedule && Enabled(s, t) ==> TotalLeft(Run(c, s, schedule).threads) < TotalLeft(s.threads)
  {
    if schedule != [] {
      var m := |schedule| - 1;
      RunCounts(c, s, schedule[..m], t);
      StepCounts(c, Run(c, s, schedule[..m]), schedule[m]);
    }
  }

  lemma {:induction false} RunConcat(c: Call, s: State, a: seq<nat>, b: seq<nat>)
    requires c.Valid() && Shape(c, s) && Schedule(|c.lanes|, a) && Schedule(|c.lanes|, b)
    ensures Schedule(|c.lanes|, a + b) && Run(c, s, a + b) == Run(c, Run(c, s, a), b)
  {
    if b == [] {
      assert a + b == a;
    } else {
      var m := |b| - 1;
      RunConcat(c, s, a, b[..m]);
      assert (a + b)[..|a + b| - 1] == a + b[..m];
    }
  }

  /** While not all threads are done, every round brings a move. */
  lemma {:induction false} RoundsCount(c: Call, s: State, rounds: seq<seq<nat>>, k: nat)
    requires c.Valid() && Shape(c, s) && k <= |rounds| && AllRounds(|c.lanes|, rounds)
    ensures Schedule(|c.lanes|, Whole(rounds, k))
    ensures var r := Run(c, s, Whole(rounds, k));
            AllDone(r) || TotalLeft(r.threads) + k <= TotalLeft(s.threads)
  {
    WholeSchedule(|c.lanes|, rounds, k);
    if k > 0 {
      RoundsCount(c, s, rounds, k - 1);
      var before := Run(c, s, Whole(rounds, k - 1));
      assert Round(|c.lanes|, rounds[k - 1]);
      RunConcat(c, s, Whole(rounds, k - 1), rounds[k - 1]);
      if AllDone(before) {
        NoneLeft(before.threads);
        RunCounts(c, before, rounds[k - 1], 0);
      } else {
        var t := SomeMove(c, before);
        StepCounts(c, before, t);
        RunCounts(c, before, rounds[k - 1], t);
      }
    }
  }

  lemma {:induction false} NoneLeft(threads: seq<Thread>)
    requires forall t :: 0 <= t < |threads| ==> threads[t].pc.Done?
    ensures TotalLeft(threads) == 0
  {
    if |threads| > 0 { NoneLeft(threads[..|threads| - 1]); }
  }

  lemma {:induction false} StartLeft(threads: seq<Thread>)
    requires forall t :: 0 <= t < |threads| ==> threads[t].pc.StoreFirst?
    ensures TotalLeft(threads) == 5 * |threads|
  {
    if |threads| > 0 { StartLeft(threads[..|threads| - 1]); }
  }

  /** Every fair interleaving finishes: after five rounds for each thread all threads are done. */
  lemma {:induction false} FairRunFinishes(c: Call, s: State, rounds: seq<seq<nat>>)
    requires c.Valid() && Start(c, s) && AllRounds(|c.lanes|, rounds)
    requires |rounds| >= 5 * |c.lanes|
    ensures Schedule(|c.lanes|, Whole(rounds, |rounds|)) && AllDone(Run(c, s, Whole(rounds, |rounds|)))
  {
    StartLeft(s.threads);
    RoundsCount(c, s, rounds, |rounds|);
    var r := Run(c, s, Whole(rounds, |rounds|));
    if !AllDone(r) { var t := SomeMove(c, r); }
  }

  // ------------------------------------------------------------------ the result

  /** A stream pushed behind a queue of bits: as much comes out as goes in, and the rest is the new queue. */
  ghost predicate Advances(queue: Word, x: Word, out: Word, rest: Word) {
    |out| == |x| && queue + x == out + rest
  }

  lemma {:induction false} Append(queue: Word, x: Word, outX: Word, mid: Word, y: Word, outY: Word, rest: Word)
    requires Advances(queue, x, outX, mid) && Advances(mid, y, outY, rest)
    ensures Advances(queue, x + y, outX + outY, rest)
  {
    calc {
      queue + (x + y);
      (queue + x) + y;
      (outX + mid) + y;
      outX + (mid + y);
      outX + (outY + rest);
      (outX + outY) + rest;
    }
  }

  lemma {:induction false} AdvancedNothing(queue: Word)
    ensures Advances(queue, [], [], queue)
  {
    assert queue + [] == queue && [] + queue == queue;
  }

  /** One lane: shifted, joined with the bits carried into it; its top bits are carried on. */
  lemma {:induction false} LaneAdvanced(v: Word, carry: Word, shift: nat)
    requires 0 < shift < |v| == |carry| && forall j :: shift <= j < |v| ==> !carry[j]
    ensures Advances(carry[..shift], v, Or(Shl(v, shift), carry), Shr(v, |v| - shift)[..shift])
  {
    assert carry[..shift] + v == Or(Shl(v, shift), carry) + Shr(v, |v| - shift)[..shift];
  }

  /** What a thread returns for its lane. */
  function LaneResult(c: Call, s: State, t: nat): (r: Word)
    requires c.Valid() && Shape(c, s) && t < |c.lanes| && |s.threads[t].carryVal| == |c.blockCarry|
    ensures |r| == |c.blockCarry|
  {
    Or(Shl(c.lanes[t], c.shift), s.threads[t].carryVal)
  }

  ghost predicate Returns(c: Call, s: State, lanes: seq<Word>, carryOut: Word)
    requires c.Valid() && Shape(c, s)
  {
    && |lanes| == |c.lanes|
    && (forall t :: 0 <= t < |c.lanes| ==> s.threads[t].carryOut == carryOut)
    && (forall t :: 0 <= t < |c.lanes| ==>
          |s.threads[t].carryVal| == |c.blockCarry| && lanes[t] == LaneResult(c, s, t))
  }

  /** Lane u shifted and joined with the bits that belong in its cell. */
  ghost predicate LaneOk(c: Call, lanes: seq<Word>, u: nat)
    requires c.Valid() && u < |c.lanes| == |lanes|
  {
    lanes[u] == Or(Shl(c.lanes[u], c.shift), c.CarryInto(u))
  }

  lemma {:induction false} LanesAdvanced(c: Call, lanes: seq<Word>, t: nat)
    requires c.Valid() && t <= |c.lanes| == |lanes|
    requires forall u :: 0 <= u < |lanes| ==> LaneOk(c, lanes, u)
    ensures Advances(c.blockCarry[..c.shift], Joined(c.lanes[..t]), Joined(lanes[..t]), c.CarryInto(t)[..c.shift])
  {
    var queue := c.blockCarry[..c.shift];
    if t == 0 {
      AdvancedNothing(queue);
    } else {
      LanesAdvanced(c, lanes, t - 1);
      var v := c.lanes[t - 1];
      assert LaneOk(c, lanes, t - 1);
      LaneAdvanced(v, c.CarryInto(t - 1), c.shift);
      Append(queue, Joined(c.lanes[..t - 1]), Joined(lanes[..t - 1]), c.CarryInto(t - 1)[..c.shift],
        v, lanes[t - 1], c.CarryInto(t)[..c.shift]);
      assert c.lanes[..t][..t - 1] == c.lanes[..t - 1] && lanes[..t][..t - 1] == lanes[..t - 1];
    }
  }

  /** In every interleaving in which all threads finish, they return the block advanced by the shift behind the bits
      of the block carry, and all of them the same carry out: the bits that were pushed out, and nothing above them. */
  lemma {:induction false} LongAdvanceIsAdvance(c: Call, s: State, schedule: seq<nat>, lanes: seq<Word>, carryOut: Word)
    requires c.Valid() && Start(c, s) && Schedule(|c.lanes|, schedule) && AllDone(Run(c, s, schedule))
    requires Returns(c, Run(c, s, schedule), lanes, carryOut)
    ensures |carryOut| == |c.blockCarry| && forall j :: c.shift <= j < |carryOut| ==> !carryOut[j]
    ensures Advances(c.blockCarry[..c.shift], Joined(c.lanes), Joined(lanes), carryOut[..c.shift])
  {
    var r := Run(c, s, schedule);
    RunInv(c, s, schedule);
    forall u | 0 <= u < |lanes|
      ensures LaneOk(c, lanes, u) && carryOut == c.CarryInto(|c.lanes|)
    {
      assert ThreadOk(c, r, u) && r.threads[u].pc.Done?;
    }
    LanesAdvanced(c, lanes, |c.lanes|);
    assert c.lanes[..|c.lanes|] == c.lanes && lanes[..|lanes|] == lanes;
    assert LaneOk(c, lanes, 0);
  }

  /** Every finished interleaving returns something. */
  lemma {:induction false} FinishedReturns(c: Call, s: State, schedule: seq<nat>)
      returns (lanes: seq<Word>, carryOut: Word)
    requires c.Valid() && Start(c, s) && Schedule(|c.lanes|, schedule) && AllDone(Run(c, s, schedule))
    ensures Returns(c, Run(c, s, schedule), lanes, carryOut)
  {
    var r := Run(c, s, schedule);
    RunInv(c, s, schedule);
    forall u | 0 <= u < |c.lanes|
      ensures r.threads[u].carryVal == c.CarryInto(u) && r.threads[u].carryOut == c.CarryInto(|c.lanes|)
    {
      assert ThreadOk(c, r, u) && r.threads[u].pc.Done?;
    }
    lanes := seq(|c.lanes|, t requires 0 <= t < |c.lanes| => LaneResult(c, r, t));
    carryOut := c.CarryInto(|c.lanes|);
  }

  // ------------------------------------------------------------------ the whole stream

  /** One block after the other: some finished interleaving of each, given the carry that the one before returned. */
  datatype BlockRun = BlockRun(c: Call, s: State, schedule: seq<nat>, lanes: seq<Word>, carryOut: Word) {
    ghost predicate Valid() {
      && c.Valid() && Start(c, s) && Schedule(|c.lanes|, schedule) && AllDone(Run(c, s, schedule))
      && Returns(c, Run(c, s, schedule), lanes, carryOut)
    }
  }

  ghost predicate Chained(runs: seq<BlockRun>, shift: nat, carry: Word, k: nat)
    requires k <= |runs|
  {
    k > 0 ==>
      && Chained(runs, shift, carry, k - 1)
      && runs[k - 1].Valid() && runs[k - 1].c.shift == shift
      && runs[k - 1].c.blockCarry == CarryBefore(runs, carry, k - 1)
  }

  function CarryBefore(runs: seq<BlockRun>, carry: Word, i: nat): Word
    requires i <= |runs|
  {
    if i == 0 then carry else runs[i - 1].carryOut
  }

  function StreamIn(runs: seq<BlockRun>, k: nat): Word
    requires k <= |runs|
  {
    if k == 0 then [] else StreamIn(runs, k - 1) + Joined(runs[k - 1].c.lanes)
  }

  function StreamOut(runs: seq<BlockRun>, k: nat): Word
    requires k <= |runs|
  {
    if k == 0 then [] else StreamOut(runs, k - 1) + Joined(runs[k - 1].lanes)
  }

  lemma {:induction false} BlockAdvanced(run: BlockRun, shift: nat, carry: Word)
    requires run.Valid() && run.c.shift == shift && run.c.blockCarry == carry
    ensures shift < |run.carryOut| == |carry|
    ensures Advances(carry[..shift], Joined(run.c.lanes), Joined(run.lanes), run.carryOut[..shift])
  {
    LongAdvanceIsAdvance(run.c, run.s, run.schedule, run.lanes, run.carryOut);
  }

  /** Chaining the blocks through the carry, in whatever interleavings, advances the whole stream. */
  lemma {:induction false} StreamAdvanced(runs: seq<BlockRun>, shift: nat, carry: Word, k: nat)
    requires k <= |runs| && Chained(runs, shift, carry, k) && shift < |carry|
    ensures |CarryBefore(runs, carry, k)| == |carry|
    ensures Advances(carry[..shift], StreamIn(runs, k), StreamOut(runs, k), CarryBefore(runs, carry, k)[..shift])
  {
    if k == 0 {
      AdvancedNothing(carry[..shift]);
    } else {
      StreamAdvanced(runs, shift, carry, k - 1);
      var run, before := runs[k - 1], CarryBefore(runs, carry, k - 1);
      BlockAdvanced(run, shift, before);
      Append(carry[..shift], StreamIn(runs, k - 1), StreamOut(runs, k - 1), before[..shift],
        Joined(run.c.lanes), Joined(run.lanes), run.carryOut[..shift]);
    }
  }
}
