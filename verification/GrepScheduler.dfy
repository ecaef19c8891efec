/** GrepEngine::searchAllFiles and DoGrepThreadMethod: worker threads claim groups of files from a shared
    counter, search them, and the main thread prints the results in group order.

    Every load and store of shared state is one step of one thread.  Thread 0 is the thread that built the
    engine, which searches like the others and is the only one that prints.  A schedule is any sequence
    of thread numbers. */
module GrepScheduler {
  import opened Schedules

  /** Where a thread is in DoGrepThreadMethod. */
  datatype Pc = FirstClaim | LoopTest | SearchBegin | SearchEnd | SetStatus | SetFound | QuietTest | NextClaim
              | PrintTest | PrintOut | PrintMark | PrintAdvance
              | FinalTest | FinalOut | FinalMark | FinalAdvance | Done

  datatype FileStatus = Pending | GrepComplete | PrintComplete

  datatype Thread = Thread(pc: Pc, fileIdx: nat)

  /** What searching a group yields: the text written so far at some point during the search, the final
      text, and the number of matching lines. */
  datatype Group = Group(partial: string, output: string, matches: nat)

  /** `early` says that doGrep itself already sets grepMatchFound, as EmitMatchesEngine does. */
  datatype Job = Job(groups: seq<Group>, workers: nat, quiet: bool, early: bool)

  /** The shared variables, what has been printed, and how often the search of each group has begun. */
  datatype State = State(threads: seq<Thread>, nextToGrep: nat, nextToPrint: nat, status: seq<FileStatus>,
                         results: seq<string>, found: bool, printed: string, searches: seq<nat>)

  ghost predicate Shape(job: Job, s: State) {
    && |s.threads| == job.workers + 1
    && |s.status| == |s.results| == |s.searches| == |job.groups|
  }

  function Init(job: Job): (s: State)
    ensures Shape(job, s)
  {
    var n := |job.groups|;
    State(seq(job.workers + 1, _ => Thread(FirstClaim, 0)), 0, 0, seq(n, _ => Pending), seq(n, _ => ""), false, "",
          seq(n, _ => 0))
  }

  predicate ReadyToPrint(s: State) {
    s.nextToPrint < |s.status| && s.status[s.nextToPrint] == GrepComplete
  }

  function Goto(s: State, t: nat, pc: Pc): (r: State)
    requires t < |s.threads|
  {
    s.(threads := s.threads[t := s.threads[t].(pc := pc)])
  }

  function Claim(s: State, t: nat, pc: Pc): (r: State)
    requires t < |s.threads|
  {
    s.(threads := s.threads[t := Thread(pc, s.nextToGrep)], nextToGrep := s.nextToGrep + 1)
  }

  function Print(s: State): (r: State) {
    if s.nextToPrint < |s.results| then s.(printed := s.printed + s.results[s.nextToPrint]) else s
  }

  function Mark(s: State): (r: State) {
    if s.nextToPrint < |s.status| then s.(status := s.status[s.nextToPrint := PrintComplete]) else s
  }

  function StepSearch(job: Job, s: State, t: nat): (r: State)
    requires Shape(job, s) && t < |s.threads| && s.threads[t].fileIdx < |job.groups|
  {
    var g := s.threads[t].fileIdx;
    var group := job.groups[g];
    match s.threads[t].pc
    case SearchBegin =>
      Goto(s.(results := s.results[g := group.partial], searches := s.searches[g := s.searches[g] + 1]), t, SearchEnd)
    case SearchEnd =>
      Goto(s.(results := s.results[g := group.output],
              found := s.found || (job.early && group.matches > 0)), t, SetStatus)
    case SetStatus =>
      Goto(s.(status := s.status[g := GrepComplete]), t, SetFound)
    case SetFound =>
      Goto(s.(found := s.found || group.matches > 0), t, QuietTest)
    case _ => s
  }

  function StepPrint(s: State, t: nat): (r: State)
    requires t < |s.threads|
  {
    match s.threads[t].pc
    case PrintTest => Goto(s, t, if ReadyToPrint(s) then PrintOut else LoopTest)
    case PrintOut => Goto(Print(s), t, PrintMark)
    case PrintMark => Goto(Mark(s), t, PrintAdvance)
    case PrintAdvance => Goto(s.(nextToPrint := s.nextToPrint + 1), t, PrintTest)
    case FinalTest =>
      if s.nextToPrint >= |s.status| then Goto(s, t, Done)
      else if ReadyToPrint(s) then Goto(s, t, FinalOut)
      else s
    case FinalOut => Goto(Print(s), t, FinalMark)
    case FinalMark => Goto(Mark(s), t, FinalAdvance)
    case FinalAdvance => Goto(s.(nextToPrint := s.nextToPrint + 1), t, FinalTest)
    case _ => s
  }

  function StepMove(job: Job, s: State, t: nat): (r: State)
    requires t < |s.threads|
  {
    match s.threads[t].pc
    case LoopTest =>
      Goto(s, t, if s.threads[t].fileIdx < |job.groups| then SearchBegin else if t == 0 then FinalTest else Done)
    case QuietTest => Goto(s, t, if job.quiet && s.found then Done else NextClaim)
    case _ => s
  }

  /** One step of thread t; a thread that is done or that waits to print stays where it is. */
  function Step(job: Job, s: State, t: nat): (r: State)
    requires Shape(job, s) && t < |s.threads|
  {
    var pc := s.threads[t].pc;
    if Claiming(pc) then Claim(s, t, if t == 0 && pc.NextClaim? then PrintTest else LoopTest)
    else if Searching(pc) then (if s.threads[t].fileIdx < |job.groups| then StepSearch(job, s, t) else s)
    else if pc.LoopTest? || pc.QuietTest? then StepMove(job, s, t)
    else StepPrint(s, t)
  }

  predicate Claiming(pc: Pc) {
    pc.FirstClaim? || pc.NextClaim?
  }

  predicate Searching(pc: Pc) {
    pc.SearchBegin? || pc.SearchEnd? || pc.SetStatus? || pc.SetFound?
  }

  /** Holding a claim on a group whose search has not begun. */
  predicate BeforeSearch(pc: Pc) {
    pc.LoopTest? || pc.SearchBegin? || pc.PrintTest? || pc.PrintOut? || pc.PrintMark? || pc.PrintAdvance?
  }

  predicate Unfinished(pc: Pc) {
    BeforeSearch(pc) || pc.SearchEnd? || pc.SetStatus?
  }

  predicate AfterStatus(pc: Pc) {
    pc.SetFound? || pc.QuietTest? || pc.NextClaim?
  }

  predicate Printing(pc: Pc) {
    pc.PrintOut? || pc.PrintMark? || pc.PrintAdvance? || Finalising(pc)
  }

  predicate Finalising(pc: Pc) {
    pc.FinalOut? || pc.FinalMark? || pc.FinalAdvance?
  }

  /** The text of the first k groups, in order. */
  function InOrder(groups: seq<Group>, k: nat): (r: string)
    requires k <= |groups|
  {
    if k == 0 then "" else InOrder(groups, k - 1) + groups[k - 1].output
  }

  // ------------------------------------------------------------------ the invariant

  ghost predicate Claims(s: State) {
    && (forall t :: 0 <= t < |s.threads| && !s.threads[t].pc.FirstClaim? ==> s.threads[t].fileIdx < s.nextToGrep)
    && (forall t, u :: 0 <= t < u < |s.threads| && !s.threads[t].pc.FirstClaim? && !s.threads[u].pc.FirstClaim? ==>
          s.threads[t].fileIdx != s.threads[u].fileIdx)
  }

  ghost predicate ThreadOk(job: Job, s: State, t: nat)
    requires Shape(job, s) && t < |s.threads|
  {
    var th := s.threads[t];
    var g := th.fileIdx;
    && (BeforeSearch(th.pc) && g < |job.groups| ==> s.searches[g] == 0 && s.status[g] == Pending)
    && (th.pc.SearchEnd? || th.pc.SetStatus? ==> g < |job.groups| && s.searches[g] == 1 && s.status[g] == Pending)
    && (th.pc.SetStatus? ==> s.results[g] == job.groups[g].output)
    && (AfterStatus(th.pc) ==> g < |job.groups| && s.status[g] != Pending)
    && (th.pc.SearchBegin? ==> g < |job.groups|)
    && (th.pc.FinalTest? || Finalising(th.pc) ==> g >= |job.groups|)
    && (t > 0 && th.pc.Done? ==> g >= |job.groups| || (job.quiet && s.found))
    && (t > 0 ==> !th.pc.PrintTest? && !th.pc.FinalTest? && !Printing(th.pc))
  }

  /** Some thread holds g and has not yet marked it complete. */
  ghost predicate HeldUnfinished(s: State, g: nat) {
    exists t :: 0 <= t < |s.threads| && s.threads[t].fileIdx == g && Unfinished(s.threads[t].pc)
  }

  /** Some thread is about to record that group g matched. */
  ghost predicate Reporting(s: State, g: nat) {
    exists t :: 0 <= t < |s.threads| && s.threads[t].fileIdx == g && s.threads[t].pc.SetFound?
  }

  ghost predicate GroupOk(job: Job, s: State, g: nat)
    requires Shape(job, s) && g < |job.groups|
  {
    && (g >= s.nextToGrep ==> s.searches[g] == 0 && s.status[g] == Pending)
    && (s.status[g] == Pending && g < s.nextToGrep ==> HeldUnfinished(s, g))
    && (s.status[g] != Pending ==> s.searches[g] == 1 && s.results[g] == job.groups[g].output)
    && (s.status[g] != Pending && job.groups[g].matches > 0 ==> s.found || Reporting(s, g))
    && s.searches[g] <= 1
  }

  ghost predicate SomeMatched(job: Job, s: State)
    requires Shape(job, s)
  {
    exists g :: 0 <= g < |job.groups| && s.searches[g] == 1 && job.groups[g].matches > 0
  }

  /** What the main thread has printed and marked, by its place in the print loops. */
  ghost predicate PrintOk(job: Job, s: State)
    requires Shape(job, s)
  {
    var main, p := s.threads[0].pc, s.nextToPrint;
    && p <= |job.groups|
    && (Printing(main) ==> p < |job.groups|)
    && (main.PrintOut? || main.PrintMark? || main.FinalOut? || main.FinalMark? ==> s.status[p] == GrepComplete)
    && s.printed == InOrder(job.groups, if Printing(main) && !main.PrintOut? && !main.FinalOut? then p + 1 else p)
    && (forall g :: 0 <= g < |job.groups| ==>
          (s.status[g] == PrintComplete <==> g < p || (g == p && (main.PrintAdvance? || main.FinalAdvance?))))
    && (main.Done? ==> p == |job.groups| || (job.quiet && s.found))
  }

  /** Threads whose last claim was past the end. */
  function Past(threads: seq<Thread>, n: nat, k: nat): (r: nat)
    requires k <= |threads|
    ensures r <= k
  {
    if k == 0 then 0
    else Past(threads, n, k - 1) + if !threads[k - 1].pc.FirstClaim? && threads[k - 1].fileIdx >= n then 1 else 0
  }

  ghost predicate Inv(job: Job, s: State) {
    && Shape(job, s)
    && Claims(s)
    && (forall t :: 0 <= t < |s.threads| ==> ThreadOk(job, s, t))
    && (forall g :: 0 <= g < |job.groups| ==> GroupOk(job, s, g))
    && (s.found ==> SomeMatched(job, s))
    && PrintOk(job, s)
    && s.nextToGrep <= |job.groups| + Past(s.threads, |job.groups|, |s.threads|)
  }

  lemma {:induction false} PastInit(job: Job, k: nat)
    requires k <= job.workers + 1
    ensures Past(Init(job).threads, |job.groups|, k) == 0
  {
    if k > 0 { PastInit(job, k - 1); }
  }

  lemma {:induction false} InitInv(job: Job)
    ensures Inv(job, Init(job))
  {
    PastInit(job, job.workers + 1);
  }

  /** Changing thread t changes the count by what that thread contributes. */
  lemma {:induction false} PastUpdate(threads: seq<Thread>, t: nat, th: Thread, n: nat, k: nat)
    requires t < |threads| && k <= |threads|
    ensures Past(threads[t := th], n, k) == Past(threads, n, k)
              + (if t >= k then 0 else
                 (if !th.pc.FirstClaim? && th.fileIdx >= n then 1 else 0)
                 - (if !threads[t].pc.FirstClaim? && threads[t].fileIdx >= n then 1 else 0))
  {
    if k > 0 { PastUpdate(threads, t, th, n, k - 1); }
  }

  /** r differs from s, among the threads, at most in thread t. */
  ghost predicate OnlyThread(s: State, r: State, t: nat) {
    t < |s.threads| == |r.threads| && r.threads == s.threads[t := r.threads[t]]
  }

  /** A held group stays held while its holder only moves between unfinished places. */
  lemma {:induction false} HeldKept(s: State, r: State, t: nat, g: nat)
    requires OnlyThread(s, r, t) && HeldUnfinished(s, g)
    requires s.threads[t].fileIdx == g && Unfinished(s.threads[t].pc) ==>
               r.threads[t].fileIdx == g && Unfinished(r.threads[t].pc)
    ensures HeldUnfinished(r, g)
  {
    var u :| 0 <= u < |s.threads| && s.threads[u].fileIdx == g && Unfinished(s.threads[u].pc);
    assert r.threads[u].fileIdx == g && Unfinished(r.threads[u].pc);
  }

  lemma {:induction false} ReportingKept(s: State, r: State, t: nat, g: nat)
    requires OnlyThread(s, r, t) && Reporting(s, g)
    requires s.threads[t].fileIdx != g || !s.threads[t].pc.SetFound?
    ensures Reporting(r, g)
  {
    var u :| 0 <= u < |s.threads| && s.threads[u].fileIdx == g && s.threads[u].pc.SetFound?;
    assert r.threads[u].fileIdx == g && r.threads[u].pc.SetFound?;
  }

  /** r keeps every thread's claim. */
  ghost predicate SameClaims(s: State, r: State, t: nat) {
    && OnlyThread(s, r, t)
    && r.threads[t].fileIdx == s.threads[t].fileIdx && r.threads[t].pc.FirstClaim? == s.threads[t].pc.FirstClaim?
    && r.nextToGrep == s.nextToGrep
  }

  lemma {:induction false} ClaimsKept(s: State, r: State, t: nat, n: nat)
    requires Claims(s) && SameClaims(s, r, t)
    ensures Claims(r)
    ensures Past(r.threads, n, |r.threads|) == Past(s.threads, n, |s.threads|)
  {
    PastUpdate(s.threads, t, r.threads[t], n, |s.threads|);
    forall u, v | 0 <= u < v < |r.threads| && !r.threads[u].pc.FirstClaim? && !r.threads[v].pc.FirstClaim?
      ensures r.threads[u].fileIdx != r.threads[v].fileIdx
    {
      assert !s.threads[u].pc.FirstClaim? && !s.threads[v].pc.FirstClaim?;
    }
  }

  /** No shared variable but the claim counter differs. */
  ghost predicate SameShared(s: State, r: State) {
    && r.status == s.status && r.results == s.results && r.searches == s.searches && r.found == s.found
    && r.printed == s.printed && r.nextToPrint == s.nextToPrint
  }

  // ------------------------------------------------------------------ claiming

  lemma {:induction false} ClaimClaims(job: Job, s: State, t: nat, pc: Pc)
    requires Inv(job, s) && t < |s.threads| && Claiming(s.threads[t].pc) && !pc.FirstClaim?
    ensures var r, n := Claim(s, t, pc), |job.groups|;
            Claims(r) && r.nextToGrep <= n + Past(r.threads, n, |r.threads|)
  {
    PastUpdate(s.threads, t, Thread(pc, s.nextToGrep), |job.groups|, |s.threads|);
    assert ThreadOk(job, s, t);
  }

  lemma {:induction false} ClaimGroups(job: Job, s: State, t: nat, pc: Pc, g: nat)
    requires Shape(job, s) && t < |s.threads| && Claiming(s.threads[t].pc) && Unfinished(pc)
    requires g < |job.groups| && GroupOk(job, s, g)
    ensures GroupOk(job, Claim(s, t, pc), g)
  {
    var r := Claim(s, t, pc);
    assert r.threads[t].fileIdx == s.nextToGrep && Unfinished(r.threads[t].pc);
    if HeldUnfinished(s, g) { HeldKept(s, r, t, g); }
    if Reporting(s, g) { ReportingKept(s, r, t, g); }
  }

  lemma {:induction false} ClaimInv(job: Job, s: State, t: nat, pc: Pc)
    requires Inv(job, s) && t < |s.threads| && Claiming(s.threads[t].pc)
    requires pc == LoopTest || (t == 0 && pc == PrintTest)
    ensures Inv(job, Claim(s, t, pc))
  {
    var r := Claim(s, t, pc);
    ClaimClaims(job, s, t, pc);
    assert OnlyThread(s, r, t) && SameShared(s, r);
    forall g | 0 <= g < |job.groups|
      ensures GroupOk(job, r, g)
    {
      ClaimGroups(job, s, t, pc, g);
    }
    forall u | 0 <= u < |r.threads|
      ensures ThreadOk(job, r, u)
    {
      assert ThreadOk(job, s, u);
      if s.nextToGrep < |job.groups| { assert GroupOk(job, s, s.nextToGrep); }
    }
    assert s.found ==> SomeMatched(job, r);
    assert PrintOk(job, r);
  }

  // ------------------------------------------------------------------ steps that only move the thread

  /** Only thread t's place changes, between places with the same duties or out of the loop. */
  lemma {:induction false} GotoInv(job: Job, s: State, t: nat, pc: Pc)
    requires Inv(job, s) && t < |s.threads|
    requires !s.threads[t].pc.FirstClaim? && !pc.FirstClaim? && !s.threads[t].pc.SetFound?
    requires Unfinished(s.threads[t].pc) && s.threads[t].fileIdx < |job.groups| ==> Unfinished(pc)
    requires ThreadOk(job, Goto(s, t, pc), t)
    requires PrintOk(job, Goto(s, t, pc))
    ensures Inv(job, Goto(s, t, pc))
  {
    var r := Goto(s, t, pc);
    assert SameClaims(s, r, t) && SameShared(s, r);
    ClaimsKept(s, r, t, |job.groups|);
    forall g | 0 <= g < |job.groups|
      ensures GroupOk(job, r, g)
    {
      assert GroupOk(job, s, g);
      if HeldUnfinished(s, g) { HeldKept(s, r, t, g); }
      if Reporting(s, g) { ReportingKept(s, r, t, g); }
    }
    forall u | 0 <= u < |r.threads|
      ensures ThreadOk(job, r, u)
    {
      assert ThreadOk(job, s, u);
    }
    assert s.found ==> SomeMatched(job, r);
  }

  lemma {:induction false} MoveInv(job: Job, s: State, t: nat)
    requires Inv(job, s) && t < |s.threads| && (s.threads[t].pc.LoopTest? || s.threads[t].pc.QuietTest?)
    ensures Inv(job, StepMove(job, s, t))
  {
    assert ThreadOk(job, s, t);
    GotoInv(job, s, t, StepMove(job, s, t).threads[t].pc);
  }

  // ------------------------------------------------------------------ searching

  /** What a search step of thread t may change: the state of its own group, and grepMatchFound. */
  ghost predicate OwnGroup(job: Job, s: State, r: State, t: nat)
    requires Shape(job, s) && t < |s.threads|
  {
    var f := s.threads[t].fileIdx;
    && Shape(job, r) && SameClaims(s, r, t) && f < |job.groups|
    && r.printed == s.printed && r.nextToPrint == s.nextToPrint
    && r.status == s.status[f := r.status[f]] && r.results == s.results[f := r.results[f]]
    && r.searches == s.searches[f := r.searches[f]]
    && (s.found ==> r.found)
    && (r.found && !s.found ==> job.groups[f].matches > 0)
  }

  lemma SearchOwnGroup(job: Job, s: State, t: nat)
    requires Shape(job, s) && t < |s.threads| && Searching(s.threads[t].pc) && s.threads[t].fileIdx < |job.groups|
    ensures OwnGroup(job, s, StepSearch(job, s, t), t)
  {
  }

  lemma SearchSelf(job: Job, s: State, t: nat)
    requires Shape(job, s) && t < |s.threads| && Searching(s.threads[t].pc) && s.threads[t].fileIdx < |job.groups|
    requires ThreadOk(job, s, t)
    ensures OwnGroup(job, s, StepSearch(job, s, t), t) && ThreadOk(job, StepSearch(job, s, t), t)
  {
  }

  lemma {:induction false} SearchOwnGroupOk(job: Job, s: State, t: nat)
    requires Shape(job, s) && Claims(s) && t < |s.threads| && Searching(s.threads[t].pc)
    requires s.threads[t].fileIdx < |job.groups| && ThreadOk(job, s, t) && GroupOk(job, s, s.threads[t].fileIdx)
    ensures OwnGroup(job, s, StepSearch(job, s, t), t)
    ensures GroupOk(job, StepSearch(job, s, t), s.threads[t].fileIdx)
    ensures StepSearch(job, s, t).searches[s.threads[t].fileIdx] == 1
  {
    var r := StepSearch(job, s, t);
    assert r.threads[t].fileIdx == s.threads[t].fileIdx;
  }

  lemma {:induction false} OtherGroupOk(job: Job, s: State, r: State, t: nat, g: nat)
    requires Shape(job, s) && t < |s.threads| && OwnGroup(job, s, r, t)
    requires g < |job.groups| && g != s.threads[t].fileIdx && GroupOk(job, s, g)
    ensures GroupOk(job, r, g)
  {
    if HeldUnfinished(s, g) { HeldKept(s, r, t, g); }
    if Reporting(s, g) { ReportingKept(s, r, t, g); }
  }

  lemma {:induction false} OtherThreadOk(job: Job, s: State, r: State, t: nat, u: nat)
    requires Shape(job, s) && Claims(s) && t < |s.threads| && u < |s.threads| && t != u && OwnGroup(job, s, r, t)
    requires !s.threads[t].pc.FirstClaim? && ThreadOk(job, s, u)
    ensures ThreadOk(job, r, u)
  {
    assert r.threads[u] == s.threads[u];
    if !s.threads[u].pc.FirstClaim? {
      assert s.threads[u].fileIdx != s.threads[t].fileIdx;
    }
  }

  /** A group that is being searched is neither printed nor being printed. */
  lemma {:induction false} SearchPrintOk(job: Job, s: State, r: State, t: nat)
    requires Shape(job, s) && PrintOk(job, s) && t < |s.threads| && OwnGroup(job, s, r, t)
    requires s.status[s.threads[t].fileIdx] == Pending || r.status == s.status
    requires r.status[s.threads[t].fileIdx] == PrintComplete ==> r.status == s.status
    requires Searching(s.threads[t].pc) && !Printing(r.threads[t].pc) && !r.threads[t].pc.Done?
    ensures PrintOk(job, r)
  {
    assert t != 0 ==> r.threads[0] == s.threads[0];
  }

  lemma SearchStatus(job: Job, s: State, t: nat)
    requires Shape(job, s) && t < |s.threads| && Searching(s.threads[t].pc) && s.threads[t].fileIdx < |job.groups|
    requires ThreadOk(job, s, t)
    ensures var r, f := StepSearch(job, s, t), s.threads[t].fileIdx;
            && (s.status[f] == Pending || r.status == s.status)
            && (r.status[f] == PrintComplete ==> r.status == s.status)
            && !Printing(r.threads[t].pc) && !r.threads[t].pc.Done?
  {
  }

  lemma {:induction false} SearchInv(job: Job, s: State, t: nat)
    requires Inv(job, s) && t < |s.threads| && Searching(s.threads[t].pc)
    ensures s.threads[t].fileIdx < |job.groups| && Inv(job, StepSearch(job, s, t))
  {
    assert ThreadOk(job, s, t);
    var f := s.threads[t].fileIdx;
    assert GroupOk(job, s, f);
    var r := StepSearch(job, s, t);
    SearchOwnGroupOk(job, s, t);
    ClaimsKept(s, r, t, |job.groups|);
    SearchStatus(job, s, t);
    SearchPrintOk(job, s, r, t);
    SearchFound(job, s, r, t);
    forall g | 0 <= g < |job.groups|
      ensures GroupOk(job, r, g)
    {
      if g != f { OtherGroupOk(job, s, r, t, g); }
    }
    forall u | 0 <= u < |r.threads|
      ensures ThreadOk(job, r, u)
    {
      if u == t { SearchSelf(job, s, t); } else { OtherThreadOk(job, s, r, t, u); }
    }
  }

  lemma {:induction false} SearchFound(job: Job, s: State, r: State, t: nat)
    requires Shape(job, s) && t < |s.threads| && OwnGroup(job, s, r, t) && r.searches[s.threads[t].fileIdx] == 1
    requires s.found ==> SomeMatched(job, s)
    ensures r.found ==> SomeMatched(job, r)
  {
    if s.found {
      var g :| 0 <= g < |job.groups| && s.searches[g] == 1 && job.groups[g].matches > 0;
      assert r.searches[g] == 1;
    } else if r.found {
      assert r.searches[s.threads[t].fileIdx] == 1;
    }
  }

  // ------------------------------------------------------------------ printing

  lemma {:induction false} PrintMove(job: Job, s: State)
    requires Inv(job, s) && (s.threads[0].pc.PrintTest? || s.threads[0].pc.FinalTest? || s.threads[0].pc.Done?)
    ensures Inv(job, StepPrint(s, 0))
  {
    assert ThreadOk(job, s, 0);
    if s.nextToPrint < |job.groups| { assert GroupOk(job, s, s.nextToPrint); }
    if StepPrint(s, 0) != s {
      GotoInv(job, s, 0, StepPrint(s, 0).threads[0].pc);
    }
  }

  /** Printing, marking and advancing touch only the printed text, the printed group's mark and the position. */
  lemma PrintEffect(job: Job, s: State)
    requires Shape(job, s) && PrintOk(job, s) && Printing(s.threads[0].pc)
    ensures var r, p := StepPrint(s, 0), s.nextToPrint;
            && Shape(job, r) && SameClaims(s, r, 0)
            && r.results == s.results && r.searches == s.searches && r.found == s.found
            && (r.status == s.status || (s.status[p] == GrepComplete && r.status == s.status[p := PrintComplete]))
            && (BeforeSearch(s.threads[0].pc) <==> BeforeSearch(r.threads[0].pc))
            && (Unfinished(s.threads[0].pc) <==> Unfinished(r.threads[0].pc))
            && !Searching(r.threads[0].pc) && !AfterStatus(r.threads[0].pc) && !r.threads[0].pc.Done?
            && ((r.threads[0].pc.FinalTest? || Finalising(r.threads[0].pc)) ==> Finalising(s.threads[0].pc))
  {
  }

  lemma PrintPrinted(job: Job, s: State)
    requires Shape(job, s) && PrintOk(job, s) && Printing(s.threads[0].pc) && GroupOk(job, s, s.nextToPrint)
    ensures Shape(job, StepPrint(s, 0)) && PrintOk(job, StepPrint(s, 0))
  {
  }

  lemma {:induction false} PrintInv(job: Job, s: State)
    requires Inv(job, s) && Printing(s.threads[0].pc)
    ensures Inv(job, StepPrint(s, 0))
  {
    var r := StepPrint(s, 0);
    assert GroupOk(job, s, s.nextToPrint);
    PrintEffect(job, s);
    PrintPrinted(job, s);
    PrintRest(job, s, r);
  }

  lemma {:induction false} PrintRest(job: Job, s: State, r: State)
    requires Inv(job, s) && Shape(job, r) && SameClaims(s, r, 0) && PrintOk(job, r) && s.nextToPrint < |job.groups|
    requires r.results == s.results && r.searches == s.searches && r.found == s.found
    requires r.status == s.status
             || (s.status[s.nextToPrint] == GrepComplete && r.status == s.status[s.nextToPrint := PrintComplete])
    requires Printing(s.threads[0].pc) && (BeforeSearch(s.threads[0].pc) <==> BeforeSearch(r.threads[0].pc))
    requires Unfinished(s.threads[0].pc) <==> Unfinished(r.threads[0].pc)
    requires !Searching(r.threads[0].pc) && !AfterStatus(r.threads[0].pc) && !r.threads[0].pc.Done?
    requires r.threads[0].pc.FinalTest? || Finalising(r.threads[0].pc) ==> Finalising(s.threads[0].pc)
    ensures Inv(job, r)
  {
    ClaimsKept(s, r, 0, |job.groups|);
    forall g | 0 <= g < |job.groups|
      ensures GroupOk(job, r, g)
    {
      assert GroupOk(job, s, g);
      if HeldUnfinished(s, g) { HeldKept(s, r, 0, g); }
      if Reporting(s, g) { ReportingKept(s, r, 0, g); }
    }
    forall u | 0 <= u < |r.threads|
      ensures ThreadOk(job, r, u)
    {
      assert ThreadOk(job, s, u);
    }
    assert s.found ==> SomeMatched(job, r);
  }

  lemma {:induction false} StepInv(job: Job, s: State, t: nat)
    requires Inv(job, s) && t < |s.threads|
    ensures Inv(job, Step(job, s, t))
  {
    var pc := s.threads[t].pc;
    assert ThreadOk(job, s, t);
    if Claiming(pc) {
      ClaimInv(job, s, t, if t == 0 && pc.NextClaim? then PrintTest else LoopTest);
    } else if Searching(pc) {
      SearchInv(job, s, t);
    } else if pc.LoopTest? || pc.QuietTest? {
      MoveInv(job, s, t);
    } else if t == 0 {
      if Printing(pc) { PrintInv(job, s); } else { PrintMove(job, s); }
    }
  }

  // ------------------------------------------------------------------ runs

  function Run(job: Job, s: State, schedule: seq<nat>): (r: State)
    requires Shape(job, s) && Schedule(job.workers + 1, schedule)
    ensures Shape(job, r)
    decreases |schedule|
  {
    if schedule == [] then s
    else
      var next := Step(job, s, schedule[0]);
      StepShape(job, s, schedule[0]);
      Run(job, next, schedule[1..])
  }

  lemma {:induction false} StepShape(job: Job, s: State, t: nat)
    requires Shape(job, s) && t < |s.threads|
    ensures Shape(job, Step(job, s, t))
  {
    if Searching(s.threads[t].pc) && s.threads[t].fileIdx < |job.groups| { SearchOwnGroup(job, s, t); }
  }

  /** The invariant holds in every state that any schedule reaches. */
  lemma {:induction false} RunInv(job: Job, s: State, schedule: seq<nat>)
    requires Inv(job, s) && Schedule(job.workers + 1, schedule)
    ensures Inv(job, Run(job, s, schedule))
    decreases |schedule|
  {
    if schedule != [] {
      StepInv(job, s, schedule[0]);
      RunInv(job, Step(job, s, schedule[0]), schedule[1..]);
    }
  }

  /** In every reachable state two threads never hold the same group, no search begins twice, what has been
      printed is the in-order text of whole groups, and the claim counter is at most one claim per thread
      past the end. */
  lemma {:induction false} ReachableSafe(job: Job, schedule: seq<nat>)
    requires Schedule(job.workers + 1, schedule)
    ensures var s := Run(job, Init(job), schedule);
            && (forall t, u ::
                  0 <= t < u <= job.workers && !s.threads[t].pc.FirstClaim? && !s.threads[u].pc.FirstClaim? ==>
                  s.threads[t].fileIdx != s.threads[u].fileIdx)
            && (forall g :: 0 <= g < |job.groups| ==> s.searches[g] <= 1)
            && (exists k :: 0 <= k <= |job.groups| && s.printed == InOrder(job.groups, k)
                            && s.nextToPrint <= k <= s.nextToPrint + 1)
            && s.nextToGrep <= |job.groups| + job.workers + 1
  {
    InitInv(job);
    RunInv(job, Init(job), schedule);
    var s := Run(job, Init(job), schedule);
    forall g | 0 <= g < |job.groups|
      ensures s.searches[g] <= 1
    {
      assert GroupOk(job, s, g);
    }
    var main := s.threads[0].pc;
    var k := if Printing(main) && !main.PrintOut? && !main.FinalOut? then s.nextToPrint + 1 else s.nextToPrint;
    assert s.printed == InOrder(job.groups, k);
  }

  ghost predicate AllDone(s: State) {
    forall t :: 0 <= t < |s.threads| ==> s.threads[t].pc.Done?
  }

  ghost predicate AnyMatch(job: Job) {
    exists g :: 0 <= g < |job.groups| && job.groups[g].matches > 0
  }

  /** The answer is right, and every group was printed once, in order, unless a quiet run found a match. */
  ghost predicate Answered(job: Job, s: State)
    requires Shape(job, s)
  {
    && (s.found <==> AnyMatch(job))
    && (!job.quiet || !s.found ==>
          && s.printed == InOrder(job.groups, |job.groups|)
          && forall g :: 0 <= g < |job.groups| ==> s.searches[g] == 1 && s.status[g] == PrintComplete)
  }

  lemma {:induction false} FinishedIsAnswered(job: Job, s: State)
    requires Inv(job, s) && AllDone(s)
    ensures Answered(job, s)
  {
    assert s.threads[0].pc.Done?;
    if s.found {
      var g :| 0 <= g < |job.groups| && s.searches[g] == 1 && job.groups[g].matches > 0;
    } else {
      forall g | 0 <= g < |job.groups|
        ensures job.groups[g].matches == 0
      {
        assert GroupOk(job, s, g);
        assert s.status[g] == PrintComplete;
      }
    }
    if !job.quiet || !s.found {
      forall g | 0 <= g < |job.groups|
        ensures s.searches[g] == 1 && s.status[g] == PrintComplete
      {
        assert GroupOk(job, s, g);
      }
    }
  }

  /** In every schedule that lets all threads finish, the answer is right in every mode, and outside quiet
      mode every group has been searched exactly once and printed exactly once, in order. */
  lemma {:induction false} FinishedRun(job: Job, schedule: seq<nat>)
    requires Schedule(job.workers + 1, schedule) && AllDone(Run(job, Init(job), schedule))
    ensures Answered(job, Run(job, Init(job), schedule))
  {
    InitInv(job);
    RunInv(job, Init(job), schedule);
    FinishedIsAnswered(job, Run(job, Init(job), schedule));
  }

  // ------------------------------------------------------------------ progress

  function Stage(th: Thread, n: nat): (r: nat) {
    match th.pc
    case FirstClaim | NextClaim => 11
    case QuietTest => 12
    case SetFound => 13
    case SetStatus => 14
    case SearchEnd => 15
    case SearchBegin => 16
    case LoopTest => if th.fileIdx < n then 17 else 6
    case PrintAdvance => if th.fileIdx < n then 18 else 7
    case PrintMark => if th.fileIdx < n then 19 else 8
    case PrintOut => if th.fileIdx < n then 20 else 9
    case PrintTest => if th.fileIdx < n then 21 else 10
    case FinalTest => 5
    case FinalOut => 4
    case FinalMark => 3
    case FinalAdvance => 2
    case Done => 0
  }

  function Stages(threads: seq<Thread>, n: nat, k: nat): (r: nat)
    requires k <= |threads|
  {
    if k == 0 then 0 else Stages(threads, n, k - 1) + Stage(threads[k - 1], n)
  }

  lemma {:induction false} StagesUpdate(threads: seq<Thread>, t: nat, th: Thread, n: nat, k: nat)
    requires t < |threads| && k <= |threads|
    ensures Stages(threads[t := th], n, k) == Stages(threads, n, k)
              + if t >= k then 0 else Stage(th, n) - Stage(threads[t], n)
  {
    if k > 0 { StagesUpdate(threads, t, th, n, k - 1); }
  }

  /** The work left: unclaimed groups, unprinted groups, and what each thread still has to do. */
  function WorkLeft(job: Job, s: State): (r: nat)
    requires Shape(job, s)
  {
    var n := |job.groups|;
    11 * (if s.nextToGrep < n then n - s.nextToGrep else 0) + 5 * (if s.nextToPrint < n then n - s.nextToPrint else 0)
    + Stages(s.threads, n, |s.threads|)
  }

  /** A thread that cannot move is done or is the main thread waiting for a group to be searched. */
  predicate Waiting(s: State, t: nat)
    requires t < |s.threads|
  {
    || s.threads[t].pc.Done?
    || (s.threads[t].pc.FinalTest? && s.nextToPrint < |s.status| && !ReadyToPrint(s))
  }

  /** The stages are spaced so that a claim pays for the work it brings and an advance for the next test. */
  ghost predicate Drops(s: State, r: State, t: nat, n: nat) {
    && OnlyThread(s, r, t)
    && (r.nextToGrep == s.nextToGrep || r.nextToGrep == s.nextToGrep + 1)
    && (r.nextToPrint == s.nextToPrint || (r.nextToPrint == s.nextToPrint + 1 && s.nextToPrint < n))
    && Stage(r.threads[t], n) + (if s.nextToGrep != r.nextToGrep && s.nextToGrep < n then 0 else 11)
         + (if s.nextToPrint != r.nextToPrint then 0 else 5) <= Stage(s.threads[t], n) + 15
  }

  lemma PrintDrops(job: Job, s: State)
    requires Shape(job, s) && PrintOk(job, s) && !Waiting(s, 0)
    requires Printing(s.threads[0].pc) || s.threads[0].pc.PrintTest? || s.threads[0].pc.FinalTest?
    ensures Drops(s, StepPrint(s, 0), 0, |job.groups|)
  {
  }

  lemma SearchDrops(job: Job, s: State, t: nat)
    requires Shape(job, s) && t < |s.threads| && Searching(s.threads[t].pc) && s.threads[t].fileIdx < |job.groups|
    ensures Drops(s, StepSearch(job, s, t), t, |job.groups|)
  {
  }

  lemma {:induction false} StageDrops(job: Job, s: State, t: nat)
    requires Shape(job, s) && t < |s.threads| && ThreadOk(job, s, t) && PrintOk(job, s) && !Waiting(s, t)
    ensures Drops(s, Step(job, s, t), t, |job.groups|)
  {
    var pc := s.threads[t].pc;
    if Searching(pc) {
      SearchDrops(job, s, t);
    } else if !Claiming(pc) && !pc.LoopTest? && !pc.QuietTest? {
      PrintDrops(job, s);
    }
  }

  lemma {:induction false} StepWorks(job: Job, s: State, t: nat)
    requires Shape(job, s) && t < |s.threads| && ThreadOk(job, s, t) && PrintOk(job, s)
    ensures Shape(job, Step(job, s, t))
    ensures if Waiting(s, t) then Step(job, s, t) == s else WorkLeft(job, Step(job, s, t)) < WorkLeft(job, s)
  {
    StepShape(job, s, t);
    if !Waiting(s, t) {
      StageDrops(job, s, t);
      StagesUpdate(s.threads, t, Step(job, s, t).threads[t], |job.groups|, |s.threads|);
    }
  }

  /** The main thread never waits for a group that no other thread is still working on. */
  lemma {:induction false} WaitIsForWorker(job: Job, s: State) returns (t: nat)
    requires Inv(job, s) && s.threads[0].pc.FinalTest? && Waiting(s, 0)
    ensures 0 < t < |s.threads| && s.threads[t].fileIdx == s.nextToPrint && Unfinished(s.threads[t].pc)
    ensures !Waiting(s, t)
  {
    assert ThreadOk(job, s, 0);
    assert GroupOk(job, s, s.nextToPrint);
    assert HeldUnfinished(s, s.nextToPrint);
    t :| 0 <= t < |s.threads| && s.threads[t].fileIdx == s.nextToPrint && Unfinished(s.threads[t].pc);
  }

  /** Until all threads are done, some thread can move. */
  lemma {:induction false} NoDeadlock(job: Job, s: State) returns (t: nat)
    requires Inv(job, s) && !AllDone(s)
    ensures t < |s.threads| && !Waiting(s, t)
  {
    t :| 0 <= t < |s.threads| && !s.threads[t].pc.Done?;
    assert ThreadOk(job, s, t);
    if Waiting(s, t) { t := WaitIsForWorker(job, s); }
  }

  lemma {:induction false} RunWorks(job: Job, s: State, schedule: seq<nat>)
    requires Inv(job, s) && Schedule(job.workers + 1, schedule)
    ensures WorkLeft(job, Run(job, s, schedule)) <= WorkLeft(job, s)
    decreases |schedule|
  {
    if schedule != [] {
      assert ThreadOk(job, s, schedule[0]);
      StepWorks(job, s, schedule[0]);
      StepInv(job, s, schedule[0]);
      RunWorks(job, Step(job, s, schedule[0]), schedule[1..]);
    }
  }

  /** A schedule that gives a movable thread a turn makes progress. */
  lemma {:induction false} TurnWorks(job: Job, s: State, schedule: seq<nat>, t: nat)
    requires Inv(job, s) && Schedule(job.workers + 1, schedule) && t < |s.threads| && !Waiting(s, t) && t in schedule
    ensures WorkLeft(job, Run(job, s, schedule)) < WorkLeft(job, s)
  {
    var u := schedule[0];
    assert ThreadOk(job, s, u);
    StepWorks(job, s, u);
    StepInv(job, s, u);
    if Waiting(s, u) {
      TurnWorks(job, s, schedule[1..], t);
    } else {
      RunWorks(job, Step(job, s, u), schedule[1..]);
    }
  }

  function Rounds(job: Job, s: State, rounds: seq<seq<nat>>): (r: State)
    requires Shape(job, s) && AllRounds(job.workers + 1, rounds)
    ensures Shape(job, r)
    decreases |rounds|
  {
    if rounds == [] then s
    else
      assert Round(job.workers + 1, rounds[0]);
      Rounds(job, Run(job, s, rounds[0]), rounds[1..])
  }

  lemma {:induction false} DoneStays(job: Job, s: State, schedule: seq<nat>)
    requires Shape(job, s) && AllDone(s) && Schedule(job.workers + 1, schedule)
    ensures Run(job, s, schedule) == s
  {
    if schedule != [] {
      assert s.threads[schedule[0]].pc.Done?;
      DoneStays(job, s, schedule[1..]);
    }
  }

  lemma {:induction false} DoneStaysRounds(job: Job, s: State, rounds: seq<seq<nat>>)
    requires Shape(job, s) && AllDone(s) && AllRounds(job.workers + 1, rounds)
    ensures Rounds(job, s, rounds) == s
  {
    if rounds != [] {
      DoneStays(job, s, rounds[0]);
      DoneStaysRounds(job, s, rounds[1..]);
    }
  }

  /** Every fair schedule finishes: after as many rounds as there is work left, all threads are done. */
  lemma {:induction false} FairRunFinishes(job: Job, s: State, rounds: seq<seq<nat>>)
    requires Inv(job, s) && AllRounds(job.workers + 1, rounds) && |rounds| >= WorkLeft(job, s)
    ensures AllDone(Rounds(job, s, rounds))
    decreases |rounds|
  {
    if AllDone(s) {
      DoneStaysRounds(job, s, rounds);
    } else {
      var t := NoDeadlock(job, s);
      assert ThreadOk(job, s, t);
      StepWorks(job, s, t);
      assert Round(job.workers + 1, rounds[0]);
      RunInv(job, s, rounds[0]);
      TurnWorks(job, s, rounds[0], t);
      FairRunFinishes(job, Run(job, s, rounds[0]), rounds[1..]);
    }
  }

  lemma {:induction false} RoundsInv(job: Job, s: State, rounds: seq<seq<nat>>)
    requires Inv(job, s) && AllRounds(job.workers + 1, rounds)
    ensures Inv(job, Rounds(job, s, rounds))
    decreases |rounds|
  {
    if rounds != [] {
      assert Round(job.workers + 1, rounds[0]);
      RunInv(job, s, rounds[0]);
      RoundsInv(job, Run(job, s, rounds[0]), rounds[1..]);
    }
  }

  lemma {:induction false} StagesInit(job: Job, k: nat)
    requires k <= job.workers + 1
    ensures Stages(Init(job).threads, |job.groups|, k) == 11 * k
  {
    if k > 0 { StagesInit(job, k - 1); }
  }

  /** Every fair run of searchAllFiles ends, within a bound linear in groups and threads, with the right answer. */
  lemma {:induction false} SearchAllFiles(job: Job, rounds: seq<seq<nat>>)
    requires AllRounds(job.workers + 1, rounds)
    requires |rounds| >= 16 * |job.groups| + 11 * (job.workers + 1)
    ensures AllDone(Rounds(job, Init(job), rounds)) && Answered(job, Rounds(job, Init(job), rounds))
  {
    InitInv(job);
    StagesInit(job, job.workers + 1);
    FairRunFinishes(job, Init(job), rounds);
    RoundsInv(job, Init(job), rounds);
    FinishedIsAnswered(job, Rounds(job, Init(job), rounds));
  }
}
