/** The grep engine as a whole: the files are grouped, worker threads search the groups, and the main thread prints
    their texts.  What is printed is compared with searching every file by itself, in the order given. */
module GrepSystem {
  import opened GrepBatch
  import opened GrepEmit
  import opened GrepRuns
  import opened GrepScan
  import opened Schedules
  import Groups = GrepGroups
  import Scheduler = GrepScheduler

  // ------------------------------------------------------------------ the files of each group

  function FlatFiles(fileGroups: seq<seq<File>>): (r: seq<File>) {
    if fileGroups == [] then []
    else FlatFiles(fileGroups[..|fileGroups| - 1]) + fileGroups[|fileGroups| - 1]
  }

  lemma {:induction false} PathsSliced(files: seq<File>, m: nat)
    requires m <= |files|
    ensures PathsOf(files[..m]) == PathsOf(files)[..m] && PathsOf(files[m..]) == PathsOf(files)[m..]
  {
  }

  /** The files cut along groups of their paths. */
  function Cut(files: seq<File>, groups: seq<seq<Groups.Path>>): (r: seq<seq<File>>)
    requires Groups.Flatten(groups) == PathsOf(files)
    ensures |r| == |groups| && FlatFiles(r) == files
    ensures forall i :: 0 <= i < |r| ==> PathsOf(r[i]) == groups[i]
    decreases |groups|
  {
    if groups == [] then
      assert |PathsOf(files)| == 0; []
    else
      var n := |groups|;
      var m := |files| - |groups[n - 1]|;
      assert |PathsOf(files)| == |Groups.Flatten(groups[..n - 1])| + |groups[n - 1]|;
      PathsSliced(files, m);
      Cut(files[..m], groups[..n - 1]) + [files[m..]]
  }

  lemma {:induction false} InFlat(fileGroups: seq<seq<File>>, i: nat, j: nat)
    requires i < |fileGroups| && j < |fileGroups[i]|
    ensures fileGroups[i][j] in FlatFiles(fileGroups)
  {
    if i < |fileGroups| - 1 { InFlat(fileGroups[..|fileGroups| - 1], i, j); }
  }

  lemma {:induction false} AllGroups(files: seq<File>, groups: seq<seq<Groups.Path>>, r: seq<seq<File>>, batchSize: nat)
    requires Groups.AllSized(PathsOf(files)) && batchSize < Groups.SIZE_MODULUS / 2 && |r| == |groups|
    requires FlatFiles(r) == files && Groups.GroupsOk(groups, PathsOf(files), |files|, batchSize)
    requires forall i :: 0 <= i < |r| ==> PathsOf(r[i]) == groups[i]
    ensures forall i :: 0 <= i < |r| ==> IsGroup(r[i], batchSize)
  {
    forall i | 0 <= i < |r|
      ensures IsGroup(r[i], batchSize)
    {
      assert Groups.GroupOk(groups, i, batchSize);
      if |r[i]| == 1 {
        InFlat(r, i, 0);
        var k :| 0 <= k < |files| && files[k] == r[i][0];
        assert PathsOf(files)[k] in PathsOf(files) && PathsOf(r[i])[0] == PathsOf(files)[k];
        assert Groups.Space(PathsOf(r[i]), 1) == Groups.Space(PathsOf(r[i]), 0) + |r[i][0].contents| + 1;
      }
    }
  }

  /** The groups that formFileGroups makes of the files. */
  function FileGroups(files: seq<File>, batchSize: nat): (r: seq<seq<File>>)
    requires Groups.AllSized(PathsOf(files)) && batchSize < Groups.SIZE_MODULUS / 2
    ensures FlatFiles(r) == files && forall i :: 0 <= i < |r| ==> IsGroup(r[i], batchSize)
  {
    var paths := PathsOf(files);
    var groups := Groups.Group(paths, |paths|, batchSize).groups;
    Groups.GroupsArePacked(paths, |paths|, batchSize);
    assert Groups.Flatten(groups) == paths;
    var r := Cut(files, groups);
    assert forall i :: 0 <= i < |r| ==> IsGroup(r[i], batchSize) by {
      AllGroups(files, groups, r, batchSize);
    }
    r
  }

  // ------------------------------------------------------------------ the texts of the groups, in order

  /** The engine's job for the groups: searching a group has the effect of doGrep. */
  ghost predicate IsJob(groups: seq<Scheduler.Group>, cfg: Config, fileGroups: seq<seq<File>>, f: string -> bool) {
    && |groups| == |fileGroups|
    && forall i :: 0 <= i < |fileGroups| ==>
         && fileGroups[i] != [] && groups[i].output == GroupOutput(cfg, fileGroups[i], f)
         && groups[i].matches == GroupMatches(cfg, fileGroups[i], f)
  }

  /** A batch of several files, one of which makes a difference. */
  ghost predicate DifferentInBatch(cfg: Config, files: seq<File>, f: string -> bool) {
    |files| > 1 && SomeDifference(cfg, files, f)
  }

  ghost predicate NoneDifferent(cfg: Config, fileGroups: seq<seq<File>>, f: string -> bool) {
    forall i :: 0 <= i < |fileGroups| ==> !DifferentInBatch(cfg, fileGroups[i], f)
  }

  lemma {:induction false} SameSingles(cfg: Config, a: seq<Doc>, b: seq<Doc>, k: nat)
    requires k <= |a| && k <= |b| && a[..k] == b[..k]
    ensures SingleTexts(cfg, a, k) == SingleTexts(cfg, b, k) && SingleMatched(cfg, a, k) == SingleMatched(cfg, b, k)
  {
    if k > 0 {
      assert a[k - 1] == a[..k][k - 1] && b[k - 1] == b[..k][k - 1];
      assert a[..k - 1] == a[..k][..k - 1] && b[..k - 1] == b[..k][..k - 1];
      SameSingles(cfg, a, b, k - 1);
    }
  }

  lemma {:induction false} SinglesConcat(cfg: Config, a: seq<Doc>, b: seq<Doc>, k: nat)
    requires k <= |b|
    ensures SingleTexts(cfg, a + b, |a| + k) == SingleTexts(cfg, a, |a|) + SingleTexts(cfg, b, k)
    ensures SingleMatched(cfg, a + b, |a| + k) == SingleMatched(cfg, a, |a|) + SingleMatched(cfg, b, k)
  {
    if k == 0 {
      assert (a + b)[..|a|] == a[..|a|];
      SameSingles(cfg, a + b, a, |a|);
    } else {
      SinglesConcat(cfg, a, b, k - 1);
      assert (a + b)[|a| + k - 1] == b[k - 1];
      Assoc(SingleTexts(cfg, a, |a|), SingleTexts(cfg, b, k - 1), Single(cfg, b[k - 1]).out);
    }
  }

  lemma {:induction false} DocsConcat(a: seq<File>, b: seq<File>, f: string -> bool)
    ensures DocsOf(a + b, f) == DocsOf(a, f) + DocsOf(b, f)
  {
  }

  /** How many lines of the files match, each file searched by itself. */
  function MatchedLines(cfg: Config, files: seq<File>, f: string -> bool): (r: nat) {
    SingleMatched(cfg, DocsOf(files, f), |files|)
  }

  lemma {:induction false} FilesConcat(cfg: Config, a: seq<File>, b: seq<File>, f: string -> bool)
    ensures SingleOuts(cfg, a + b, f) == SingleOuts(cfg, a, f) + SingleOuts(cfg, b, f)
    ensures MatchedLines(cfg, a + b, f) == MatchedLines(cfg, a, f) + MatchedLines(cfg, b, f)
  {
    DocsConcat(a, b, f);
    SinglesConcat(cfg, DocsOf(a, f), DocsOf(b, f), |b|);
  }

  /** The single searches of each group's files, and which groups keep to them. */
  function GroupSingles(cfg: Config, fileGroups: seq<seq<File>>, f: string -> bool): (r: seq<string>)
    ensures |r| == |fileGroups|
  {
    seq(|fileGroups|, i requires 0 <= i < |fileGroups| => SingleOuts(cfg, fileGroups[i], f))
  }

  function GroupTexts(groups: seq<Scheduler.Group>): (r: seq<string>)
    ensures |r| == |groups|
  {
    seq(|groups|, i requires 0 <= i < |groups| => groups[i].output)
  }

  lemma {:induction false} InOrderTexts(groups: seq<Scheduler.Group>, k: nat)
    requires k <= |groups|
    ensures Scheduler.InOrder(groups, k) == BufferText(GroupTexts(groups), k)
  {
    if k > 0 { InOrderTexts(groups, k - 1); }
  }

  lemma {:induction false} FlatNext(fileGroups: seq<seq<File>>, k: nat)
    requires k < |fileGroups|
    ensures FlatFiles(fileGroups[..k + 1]) == FlatFiles(fileGroups[..k]) + fileGroups[k]
  {
    assert fileGroups[..k + 1][..k] == fileGroups[..k];
  }

  lemma {:induction false} FlatSingles(cfg: Config, fileGroups: seq<seq<File>>, f: string -> bool, k: nat)
    requires k <= |fileGroups|
    ensures SingleOuts(cfg, FlatFiles(fileGroups[..k]), f) == BufferText(GroupSingles(cfg, fileGroups, f), k)
  {
    if k > 0 {
      FlatSingles(cfg, fileGroups, f, k - 1);
      FlatNext(fileGroups, k - 1);
      FilesConcat(cfg, FlatFiles(fileGroups[..k - 1]), fileGroups[k - 1], f);
    }
  }

  function GroupCounts(cfg: Config, fileGroups: seq<seq<File>>, f: string -> bool): (r: seq<nat>)
    ensures |r| == |fileGroups|
  {
    seq(|fileGroups|, i requires 0 <= i < |fileGroups| => MatchedLines(cfg, fileGroups[i], f))
  }

  function Total(counts: seq<nat>, k: nat): (r: nat)
    requires k <= |counts|
  {
    if k == 0 then 0 else Total(counts, k - 1) + counts[k - 1]
  }

  lemma {:induction false} TotalPositive(counts: seq<nat>, k: nat)
    requires k <= |counts|
    ensures Total(counts, k) > 0 <==> exists i :: 0 <= i < k && counts[i] > 0
  {
    if k > 0 { TotalPositive(counts, k - 1); }
  }

  lemma {:induction false} FlatMatches(cfg: Config, fileGroups: seq<seq<File>>, f: string -> bool, k: nat,
                                       counts: seq<nat>)
    requires k <= |fileGroups| && counts == GroupCounts(cfg, fileGroups, f)
    ensures MatchedLines(cfg, FlatFiles(fileGroups[..k]), f) == Total(counts, k)
  {
    if k > 0 {
      var front, last := FlatFiles(fileGroups[..k - 1]), fileGroups[k - 1];
      FlatMatches(cfg, fileGroups, f, k - 1, counts);
      FlatNext(fileGroups, k - 1);
      FilesConcat(cfg, front, last, f);
      assert counts[k - 1] == MatchedLines(cfg, last, f);
    }
  }

  /** When each text is compared with its counterpart, so are the texts joined up. */
  ghost predicate AllCompared(a: seq<string>, b: seq<string>, same: seq<bool>) {
    |a| == |b| == |same| && forall i :: 0 <= i < |a| ==> Compared(a[i], b[i], same[i])
  }

  lemma ComparedConcat(a: string, b: string, same: bool, c: string, d: string, same2: bool)
    requires Compared(a, b, same) && Compared(c, d, same2)
    ensures Compared(a + c, b + d, same && same2)
  {
  }

  ghost predicate AllTrue(same: seq<bool>, k: nat)
    requires k <= |same|
  {
    forall i :: 0 <= i < k ==> same[i]
  }

  lemma {:induction false} JoinedCompared(a: seq<string>, b: seq<string>, same: seq<bool>, k: nat)
    requires AllCompared(a, b, same) && k <= |a|
    ensures Compared(BufferText(a, k), BufferText(b, k), AllTrue(same, k))
  {
    if k > 0 {
      JoinedCompared(a, b, same, k - 1);
      assert Compared(a[k - 1], b[k - 1], same[k - 1]);
      ComparedConcat(BufferText(a, k - 1), BufferText(b, k - 1), AllTrue(same, k - 1), a[k - 1], b[k - 1], same[k - 1]);
      assert AllTrue(same, k) == (AllTrue(same, k - 1) && same[k - 1]);
    }
  }

  ghost function KeptGroups(cfg: Config, fileGroups: seq<seq<File>>, f: string -> bool): (r: seq<bool>)
    ensures |r| == |fileGroups|
  {
    seq(|fileGroups|, i requires 0 <= i < |fileGroups| => !DifferentInBatch(cfg, fileGroups[i], f))
  }

  lemma {:induction false} GroupKept(cfg: Config, files: seq<File>, batchSize: nat, f: string -> bool,
                                     group: Scheduler.Group)
    requires IsGroup(files, batchSize)
    requires group.output == GroupOutput(cfg, files, f) && group.matches == GroupMatches(cfg, files, f)
    ensures Compared(group.output, SingleOuts(cfg, files, f), !DifferentInBatch(cfg, files, f))
    ensures group.matches == MatchedLines(cfg, files, f)
  {
    GroupCompared(cfg, files, batchSize, f);
  }

  lemma {:induction false} GroupsKept(cfg: Config, fileGroups: seq<seq<File>>, batchSize: nat, f: string -> bool,
                                      groups: seq<Scheduler.Group>)
    requires IsJob(groups, cfg, fileGroups, f)
    requires forall i :: 0 <= i < |fileGroups| ==> IsGroup(fileGroups[i], batchSize)
    ensures AllCompared(GroupTexts(groups), GroupSingles(cfg, fileGroups, f), KeptGroups(cfg, fileGroups, f))
    ensures forall i :: 0 <= i < |groups| ==> groups[i].matches == GroupCounts(cfg, fileGroups, f)[i]
  {
    forall i | 0 <= i < |groups|
      ensures Compared(GroupTexts(groups)[i], GroupSingles(cfg, fileGroups, f)[i], KeptGroups(cfg, fileGroups, f)[i])
      ensures groups[i].matches == GroupCounts(cfg, fileGroups, f)[i]
    {
      GroupKept(cfg, fileGroups[i], batchSize, f, groups[i]);
    }
  }

  /** The groups' texts in order, against the single searches of all their files in order. */
  lemma {:induction false} GroupsCompared(cfg: Config, fileGroups: seq<seq<File>>, f: string -> bool,
                                          groups: seq<Scheduler.Group>, files: seq<File>, kept: seq<bool>)
    requires AllCompared(GroupTexts(groups), GroupSingles(cfg, fileGroups, f), kept) && files == FlatFiles(fileGroups)
    ensures Compared(Scheduler.InOrder(groups, |groups|), SingleOuts(cfg, files, f), AllTrue(kept, |kept|))
  {
    var n := |fileGroups|;
    InOrderTexts(groups, n);
    assert fileGroups[..n] == fileGroups;
    FlatSingles(cfg, fileGroups, f, n);
    JoinedCompared(GroupTexts(groups), GroupSingles(cfg, fileGroups, f), kept, n);
  }

  lemma {:induction false} MatchesCompared(cfg: Config, fileGroups: seq<seq<File>>, f: string -> bool,
                                           groups: seq<Scheduler.Group>, files: seq<File>, counts: seq<nat>)
    requires |groups| == |counts| && counts == GroupCounts(cfg, fileGroups, f) && files == FlatFiles(fileGroups)
    requires forall i :: 0 <= i < |groups| ==> groups[i].matches == counts[i]
    ensures MatchedLines(cfg, files, f) > 0 <==> exists i :: 0 <= i < |groups| && groups[i].matches > 0
  {
    var n := |fileGroups|;
    assert fileGroups[..n] == fileGroups;
    FlatMatches(cfg, fileGroups, f, n, counts);
    TotalPositive(counts, n);
  }

  lemma {:induction false} KeptMeans(cfg: Config, fileGroups: seq<seq<File>>, f: string -> bool)
    ensures NoneDifferent(cfg, fileGroups, f) == AllTrue(KeptGroups(cfg, fileGroups, f), |fileGroups|)
  {
    forall i | 0 <= i < |fileGroups|
      ensures KeptGroups(cfg, fileGroups, f)[i] <==> !DifferentInBatch(cfg, fileGroups[i], f)
    {
    }
  }

  // ------------------------------------------------------------------ the whole engine

  /** Every fair run of the engine over files of known sizes ends.  It reports a match exactly when searching the
      files one by one finds one.  Unless a quiet run has found a match, it has printed what the searches one by one
      print, in the order of the files, exactly when no batch of several files has a file that makes a difference, and
      otherwise more. */
  lemma {:induction false} GrepPrints(cfg: Config, files: seq<File>, batchSize: nat, f: string -> bool,
                                      job: Scheduler.Job, rounds: seq<seq<nat>>)
    requires Groups.AllSized(PathsOf(files)) && batchSize < Groups.SIZE_MODULUS / 2
    requires IsJob(job.groups, cfg, FileGroups(files, batchSize), f)
    requires AllRounds(job.workers + 1, rounds)
    requires |rounds| >= 16 * |job.groups| + 11 * (job.workers + 1)
    ensures var s := Scheduler.Rounds(job, Scheduler.Init(job), rounds);
            var fileGroups := FileGroups(files, batchSize);
      && Scheduler.AllDone(s)
      && (s.found <==> MatchedLines(cfg, files, f) > 0)
      && (!job.quiet || !s.found ==>
            Compared(s.printed, SingleOuts(cfg, files, f), NoneDifferent(cfg, fileGroups, f)))
  {
    var fileGroups := FileGroups(files, batchSize);
    Scheduler.SearchAllFiles(job, rounds);
    GroupsKept(cfg, fileGroups, batchSize, f, job.groups);
    GroupsCompared(cfg, fileGroups, f, job.groups, files, KeptGroups(cfg, fileGroups, f));
    MatchesCompared(cfg, fileGroups, f, job.groups, files, GroupCounts(cfg, fileGroups, f));
    KeptMeans(cfg, fileGroups, f);
  }
}
