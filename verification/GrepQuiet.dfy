/** Quiet runs of searchAllFiles: they stop after the first match, up to one search for every thread, and with one
    thread exactly there. */
module GrepQuiet {
  import opened GrepScheduler
  import opened Schedules

  // ------------------------------------------------------------------ any number of threads

  /** How many searches have begun, over the first k groups. */
  function Begun(searches: seq<nat>, k: nat): (r: nat)
    requires k <= |searches|
  {
    if k == 0 then 0 else Begun(searches, k - 1) + searches[k - 1]
  }

  /** A thread that will begin a search before it next tests for a match. */
  predicate MayBegin(pc: Pc) {
    Claiming(pc) || BeforeSearch(pc)
  }

  function Beginners(threads: seq<Thread>, k: nat): (r: nat)
    requires k <= |threads|
    ensures r <= k
  {
    if k == 0 then 0 else Beginners(threads, k - 1) + if MayBegin(threads[k - 1].pc) then 1 else 0
  }

  lemma {:induction false} BegunUpdate(searches: seq<nat>, g: nat, x: nat, k: nat)
    requires g < |searches| && k <= |searches|
    ensures Begun(searches[g := x], k) == Begun(searches, k) + if g < k then x - searches[g] else 0
  {
    if k > 0 { BegunUpdate(searches, g, x, k - 1); }
  }

  lemma {:induction false} BeginnersUpdate(threads: seq<Thread>, t: nat, th: Thread, k: nat)
    requires t < |threads| && k <= |threads|
    ensures Beginners(threads[t := th], k) == Beginners(threads, k)
              + if t >= k then 0 else (if MayBegin(th.pc) then 1 else 0) - (if MayBegin(threads[t].pc) then 1 else 0)
  {
    if k > 0 { BeginnersUpdate(threads, t, th, k - 1); }
  }

  /** What a step does to thread t and to the counts of searches. */
  ghost predicate Spends(s: State, r: State, t: nat) {
    && OnlyThread(s, r, t) && r.found && |r.searches| == |s.searches|
    && if s.threads[t].pc.SearchBegin? then
         var g := s.threads[t].fileIdx;
         !MayBegin(r.threads[t].pc) && g < |s.searches| && r.searches == s.searches[g := s.searches[g] + 1]
       else
         r.searches == s.searches && (MayBegin(r.threads[t].pc) ==> MayBegin(s.threads[t].pc))
  }

  lemma {:induction false} StepSpends(job: Job, s: State, t: nat)
    requires Shape(job, s) && t < |s.threads| && ThreadOk(job, s, t) && job.quiet && s.found
    ensures Spends(s, Step(job, s, t), t)
  {
  }

  lemma {:induction false} SpentCounts(s: State, r: State, t: nat)
    requires Spends(s, r, t)
    ensures Begun(r.searches, |r.searches|) + Beginners(r.threads, |r.threads|)
         <= Begun(s.searches, |s.searches|) + Beginners(s.threads, |s.threads|)
  {
    BeginnersUpdate(s.threads, t, r.threads[t], |s.threads|);
    var g := s.threads[t].fileIdx;
    if s.threads[t].pc.SearchBegin? { BegunUpdate(s.searches, g, s.searches[g] + 1, |s.searches|); }
  }

  lemma {:induction false} RunSpends(job: Job, s: State, schedule: seq<nat>)
    requires Inv(job, s) && job.quiet && s.found && Schedule(job.workers + 1, schedule)
    ensures var r := Run(job, s, schedule);
            Begun(r.searches, |r.searches|) + Beginners(r.threads, |r.threads|)
              <= Begun(s.searches, |s.searches|) + Beginners(s.threads, |s.threads|)
    decreases |schedule|
  {
    if schedule != [] {
      var t, next := schedule[0], Step(job, s, schedule[0]);
      assert ThreadOk(job, s, t);
      StepSpends(job, s, t);
      SpentCounts(s, next, t);
      StepInv(job, s, t);
      RunSpends(job, next, schedule[1..]);
    }
  }

  /** Once a quiet run has recorded a match, every continuation begins at most one more search for every thread. */
  lemma {:induction false} QuietStops(job: Job, before: seq<nat>, after: seq<nat>)
    requires job.quiet && Schedule(job.workers + 1, before) && Schedule(job.workers + 1, after)
    requires Run(job, Init(job), before).found
    ensures var s := Run(job, Init(job), before);
            var r := Run(job, s, after);
            Begun(r.searches, |job.groups|) <= Begun(s.searches, |job.groups|) + job.workers + 1
  {
    InitInv(job);
    RunInv(job, Init(job), before);
    RunSpends(job, Run(job, Init(job), before), after);
  }

  ghost predicate MatchRecorded(job: Job, s: State, g: nat) {
    g < |job.groups| && job.groups[g].matches > 0 ==> s.found
  }

  /** An early engine records a match before the search of the group is over. */
  ghost predicate RecordedEarly(job: Job, s: State)
    requires Shape(job, s)
  {
    && (forall t :: 0 <= t < |s.threads| && s.threads[t].pc.SetStatus? ==> MatchRecorded(job, s, s.threads[t].fileIdx))
    && (forall g :: 0 <= g < |job.groups| && s.status[g] != Pending ==> MatchRecorded(job, s, g))
  }

  lemma {:induction false} SearchRecords(job: Job, s: State, t: nat)
    requires Inv(job, s) && t < |s.threads| && job.early && RecordedEarly(job, s) && Searching(s.threads[t].pc)
    ensures Shape(job, Step(job, s, t)) && RecordedEarly(job, Step(job, s, t))
  {
    StepShape(job, s, t);
    assert ThreadOk(job, s, t);
  }

  /** The other steps record no match, complete no group, and lead nowhere near. */
  ghost predicate NothingSearched(job: Job, s: State, next: State)
    requires Shape(job, s) && Shape(job, next)
  {
    && next.found == s.found
    && (forall g :: 0 <= g < |job.groups| && next.status[g] != Pending ==> s.status[g] != Pending)
    && (forall t :: 0 <= t < |s.threads| && next.threads[t].pc.SetStatus? ==> next.threads[t] == s.threads[t])
  }

  lemma {:induction false} PrintSteps(job: Job, s: State, t: nat)
    requires Shape(job, s) && t < |s.threads| && ThreadOk(job, s, t) && PrintOk(job, s)
    ensures Shape(job, StepPrint(s, t)) && NothingSearched(job, s, StepPrint(s, t))
  {
  }

  lemma {:induction false} OtherSteps(job: Job, s: State, t: nat)
    requires Shape(job, s) && t < |s.threads| && ThreadOk(job, s, t) && PrintOk(job, s) && !Searching(s.threads[t].pc)
    ensures Shape(job, Step(job, s, t)) && NothingSearched(job, s, Step(job, s, t))
  {
    StepShape(job, s, t);
    var pc := s.threads[t].pc;
    if !Claiming(pc) && !pc.LoopTest? && !pc.QuietTest? { PrintSteps(job, s, t); }
  }

  lemma OtherRecords(job: Job, s: State, next: State)
    requires Shape(job, s) && Shape(job, next) && RecordedEarly(job, s) && NothingSearched(job, s, next)
    ensures RecordedEarly(job, next)
  {
    forall g | 0 <= g < |job.groups| && next.status[g] != Pending
      ensures MatchRecorded(job, next, g)
    {
      assert MatchRecorded(job, s, g);
    }
  }

  lemma {:induction false} StepRecords(job: Job, s: State, t: nat)
    requires Inv(job, s) && t < |s.threads| && job.early && RecordedEarly(job, s)
    ensures Shape(job, Step(job, s, t)) && RecordedEarly(job, Step(job, s, t))
  {
    if Searching(s.threads[t].pc) {
      SearchRecords(job, s, t);
    } else {
      assert ThreadOk(job, s, t);
      OtherSteps(job, s, t);
      OtherRecords(job, s, Step(job, s, t));
    }
  }

  lemma {:induction false} RunRecords(job: Job, s: State, schedule: seq<nat>)
    requires Inv(job, s) && Schedule(job.workers + 1, schedule) && job.early && RecordedEarly(job, s)
    ensures RecordedEarly(job, Run(job, s, schedule))
    decreases |schedule|
  {
    if schedule != [] {
      StepInv(job, s, schedule[0]);
      StepRecords(job, s, schedule[0]);
      RunRecords(job, Step(job, s, schedule[0]), schedule[1..]);
    }
  }

  /** So with such an engine a match counts as recorded as soon as the group is marked complete. */
  lemma {:induction false} EarlyRecords(job: Job, schedule: seq<nat>, g: nat)
    requires job.early && Schedule(job.workers + 1, schedule) && g < |job.groups| && job.groups[g].matches > 0
    ensures var s := Run(job, Init(job), schedule);
            s.status[g] != Pending ==> s.found
  {
    InitInv(job);
    RunRecords(job, Init(job), schedule);
  }

  // ------------------------------------------------------------------ one thread

  predicate SearchedOwn(pc: Pc) {
    pc.SearchEnd? || pc.SetStatus? || AfterStatus(pc) || pc.Done?
  }

  predicate Completed(pc: Pc) {
    AfterStatus(pc) || pc.Done?
  }

  /** What the only thread of a quiet run has searched: the groups before the one it holds, none of which matches, and
      that one once its search has begun. */
  ghost predicate SoloCounts(job: Job, s: State, pc: Pc, g: nat)
    requires Shape(job, s)
  {
    && g <= |job.groups|
    && (forall l :: 0 <= l < |job.groups| ==> s.searches[l] == if l < g || (l == g && SearchedOwn(pc)) then 1 else 0)
    && (forall l :: 0 <= l < |job.groups| ==> (s.status[l] == Pending <==> l > g || (l == g && !Completed(pc))))
    && (forall l :: 0 <= l < g ==> job.groups[l].matches == 0)
  }

  /** A match is recorded in the group it was found in, and the thread goes no further. */
  ghost predicate SoloFound(job: Job, s: State, pc: Pc, g: nat) {
    && (s.found ==> g < |job.groups| && job.groups[g].matches > 0 && SearchedOwn(pc) && !pc.NextClaim?)
    && (pc.QuietTest? || pc.NextClaim? ==> g < |job.groups| && (s.found <==> job.groups[g].matches > 0))
    && (pc.Done? && !s.found ==> g == |job.groups|)
  }

  /** All earlier groups have been printed, but for the last one while the thread is in the print loop. */
  ghost predicate SoloPrinted(s: State, pc: Pc, g: nat) {
    && !Finalising(pc)
    && if pc.PrintTest? then g > 0 && (s.nextToPrint == g - 1 || s.nextToPrint == g)
       else if pc.PrintOut? || pc.PrintMark? || pc.PrintAdvance? then g > 0 && s.nextToPrint == g - 1
       else s.nextToPrint == g
  }

  ghost predicate Solo(job: Job, s: State) {
    && Shape(job, s) && |s.threads| == 1
    && var pc, g := s.threads[0].pc, s.threads[0].fileIdx;
    && s.nextToGrep == (if pc.FirstClaim? then 0 else g + 1) && (pc.FirstClaim? ==> g == 0)
    && SoloCounts(job, s, pc, g) && SoloFound(job, s, pc, g) && SoloPrinted(s, pc, g)
  }

  lemma {:induction false} SoloClaim(job: Job, s: State)
    requires job.quiet && Inv(job, s) && Solo(job, s) && Claiming(s.threads[0].pc)
    ensures Solo(job, Step(job, s, 0))
  {
    assert ThreadOk(job, s, 0);
  }

  lemma {:induction false} SoloSearch(job: Job, s: State)
    requires job.quiet && Inv(job, s) && Solo(job, s) && Searching(s.threads[0].pc)
    ensures Solo(job, Step(job, s, 0))
  {
    assert ThreadOk(job, s, 0);
    StepShape(job, s, 0);
  }

  lemma {:induction false} SoloMove(job: Job, s: State)
    requires job.quiet && Inv(job, s) && Solo(job, s) && (s.threads[0].pc.LoopTest? || s.threads[0].pc.QuietTest?)
    ensures Solo(job, Step(job, s, 0))
  {
    assert ThreadOk(job, s, 0);
  }

  lemma {:induction false} SoloPrint(job: Job, s: State)
    requires job.quiet && Inv(job, s) && Solo(job, s)
    requires var pc := s.threads[0].pc; !Claiming(pc) && !Searching(pc) && !pc.LoopTest? && !pc.QuietTest?
    ensures Solo(job, Step(job, s, 0))
  {
    var th := s.threads[0];
    assert ThreadOk(job, s, 0);
    if th.pc.PrintTest? && s.nextToPrint < th.fileIdx {
      assert s.status[s.nextToPrint] != Pending && s.status[s.nextToPrint] != PrintComplete;
    }
  }

  lemma {:induction false} SoloStep(job: Job, s: State)
    requires job.quiet && Inv(job, s) && Solo(job, s)
    ensures Solo(job, Step(job, s, 0))
  {
    var pc := s.threads[0].pc;
    if Claiming(pc) {
      SoloClaim(job, s);
    } else if Searching(pc) {
      SoloSearch(job, s);
    } else if pc.LoopTest? || pc.QuietTest? {
      SoloMove(job, s);
    } else {
      SoloPrint(job, s);
    }
  }

  lemma {:induction false} SoloRun(job: Job, s: State, schedule: seq<nat>)
    requires job.quiet && Inv(job, s) && Solo(job, s) && Schedule(1, schedule) && job.workers == 0
    ensures Solo(job, Run(job, s, schedule)) && Inv(job, Run(job, s, schedule))
    decreases |schedule|
  {
    if schedule != [] {
      StepInv(job, s, schedule[0]);
      SoloStep(job, s);
      SoloRun(job, Step(job, s, 0), schedule[1..]);
    }
  }

  /** The first group that matches. */
  ghost predicate FirstMatch(job: Job, m: nat) {
    m < |job.groups| && job.groups[m].matches > 0 && forall l :: 0 <= l < m ==> job.groups[l].matches == 0
  }

  /** A finished quiet run with one thread has searched the groups up to the first one that matches, and no other, and
      has printed the texts of the groups before it. */
  lemma {:induction false} QuietAlone(job: Job, schedule: seq<nat>, m: nat)
    requires job.quiet && job.workers == 0 && FirstMatch(job, m)
    requires Schedule(1, schedule) && AllDone(Run(job, Init(job), schedule))
    ensures var s := Run(job, Init(job), schedule);
      && s.found && s.printed == InOrder(job.groups, m)
      && forall g :: 0 <= g < |job.groups| ==> s.searches[g] == if g <= m then 1 else 0
  {
    InitInv(job);
    SoloRun(job, Init(job), schedule);
    FinishedRun(job, schedule);
    var s := Run(job, Init(job), schedule);
    assert s.threads[0].pc.Done?;
    assert s.threads[0].fileIdx == m;
  }
}
