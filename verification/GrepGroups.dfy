/** formFileGroups: consecutive small files are grouped so that each group fits the batch buffer. */
module GrepGroups {

  const MAX_FILES_PER_GROUP := 32
  const SIZE_MODULUS := 0x1_0000_0000_0000_0000

  /** A path whose size is known, or whose size could not be determined. */
  datatype Path = Sized(name: string, size: nat) | Failed(name: string)

  /** file_size reports an error as the largest 64-bit value. */
  function FileSize(p: Path): (r: nat) {
    if p.Sized? then p.size else SIZE_MODULUS - 1
  }

  function Wrap(x: nat): (r: nat) {
    x % SIZE_MODULUS
  }

  /** The groups so far, and the total size of the last one, or zero when the next path starts a new one. */
  datatype Grouping = Grouping(groups: seq<seq<Path>>, groupTotalSize: nat)

  function GroupStep(g: Grouping, p: Path, maxBatchSize: nat): (r: Grouping)
    requires g.groupTotalSize > 0 ==> g.groups != []
  {
    var s := FileSize(p);
    var n := |g.groups|;
    if s > 0 && Wrap(Wrap(s + 1) + g.groupTotalSize) < maxBatchSize then
      var s1 := Wrap(s + 1);
      if g.groupTotalSize == 0 then Grouping(g.groups + [[p]], s1)
      else
        var last := g.groups[n - 1] + [p];
        Grouping(g.groups[..n - 1] + [last], if |last| == MAX_FILES_PER_GROUP then 0 else Wrap(g.groupTotalSize + s1))
    else Grouping(g.groups + [[p]], 0)
  }

  /** The grouping of the first k paths. */
  function Group(paths: seq<Path>, k: nat, maxBatchSize: nat): (r: Grouping)
    requires k <= |paths|
    ensures k > 0 ==> r.groups != []
    ensures r.groupTotalSize > 0 ==> r.groups != []
  {
    if k == 0 then Grouping([], 0) else GroupStep(Group(paths, k - 1, maxBatchSize), paths[k - 1], maxBatchSize)
  }

  method FormFileGroups(paths: seq<Path>, maxBatchSize: nat) returns (groups: seq<seq<Path>>)
    ensures groups == Group(paths, |paths|, maxBatchSize).groups
  {
    groups := [];
    var groupTotalSize := 0;
    for i := 0 to |paths|
      invariant Grouping(groups, groupTotalSize) == Group(paths, i, maxBatchSize)
    {
      var p, s := paths[i], FileSize(paths[i]);
      ghost var next := GroupStep(Grouping(groups, groupTotalSize), p, maxBatchSize);
      if s > 0 && Wrap(Wrap(s + 1) + groupTotalSize) < maxBatchSize {
        s := Wrap(s + 1);
        if groupTotalSize == 0 {
          groups := groups + [[p]];
          groupTotalSize := s;
        } else {
          var last := groups[|groups| - 1] + [p];
          groups := groups[..|groups| - 1] + [last];
          groupTotalSize := Wrap(groupTotalSize + s);
          if |last| == MAX_FILES_PER_GROUP {
            groupTotalSize := 0;
          }
        }
      } else {
        groups := groups + [[p]];
        groupTotalSize := 0;
      }
      assert Grouping(groups, groupTotalSize) == next;
    }
  }

  // ------------------------------------------------------------------ what the groups are

  function Flatten(groups: seq<seq<Path>>): (r: seq<Path>) {
    if groups == [] then [] else Flatten(groups[..|groups| - 1]) + groups[|groups| - 1]
  }

  /** The buffer space a group needs: every file and one byte more. */
  function Space(group: seq<Path>, k: nat): (r: nat)
    requires k <= |group|
  {
    if k == 0 then 0 else Space(group, k - 1) + FileSize(group[k - 1]) + 1
  }

  /** File offsets are signed, so sizes stay below half the modulus. */
  ghost predicate AllSized(paths: seq<Path>) {
    forall p :: p in paths ==> p.Sized? && p.size + 1 < SIZE_MODULUS / 2
  }

  /** A group that is searched as a batch fits the buffer and has no empty file. */
  ghost predicate Fits(group: seq<Path>, maxBatchSize: nat) {
    && 0 < |group| <= 32
    && (|group| > 1 ==> Space(group, |group|) < maxBatchSize && forall p :: p in group ==> FileSize(p) > 0)
  }

  // ------------------------------------------------------------------ when a group is shut

  /** What the group before place i had gathered when the file at place i came: zero if that group was shut. */
  function OpenTotal(groups: seq<seq<Path>>, i: nat, maxBatchSize: nat): (r: nat)
    requires i <= |groups|
    decreases i, 0
  {
    if i == 0 || Shut(groups, i - 1, maxBatchSize) then 0 else Space(groups[i - 1], |groups[i - 1]|)
  }

  /** The first file of group i is kept alone: it is empty, or it does not fit with what was gathered before it. */
  predicate KeptAlone(groups: seq<seq<Path>>, i: nat, maxBatchSize: nat)
    requires i < |groups|
    decreases i, 1
  {
    groups[i] != [] &&
    (FileSize(groups[i][0]) == 0 || OpenTotal(groups, i, maxBatchSize) + FileSize(groups[i][0]) + 1 >= maxBatchSize)
  }

  /** Nothing is added to group i any more: it is full, or its file is kept alone. */
  predicate Shut(groups: seq<seq<Path>>, i: nat, maxBatchSize: nat)
    requires i < |groups|
    decreases i, 2
  {
    |groups[i]| == 32 || (|groups[i]| == 1 && KeptAlone(groups, i, maxBatchSize))
  }

  /** The first file of group i was turned away by a group that was open then. */
  predicate TurnedAway(groups: seq<seq<Path>>, i: nat, maxBatchSize: nat)
    requires i < |groups|
  {
    && groups[i] != [] && OpenTotal(groups, i, maxBatchSize) > 0
    && OpenTotal(groups, i, maxBatchSize) + FileSize(groups[i][0]) + 1 >= maxBatchSize
  }

  /** An open group has ended because the next file is empty or does not fit. */
  ghost predicate EndsRightly(groups: seq<seq<Path>>, i: nat, maxBatchSize: nat)
    requires 0 < i < |groups|
  {
    groups[i] != [] &&
    (Shut(groups, i - 1, maxBatchSize) || FileSize(groups[i][0]) == 0
      || Space(groups[i - 1], |groups[i - 1]|) + FileSize(groups[i][0]) + 1 >= maxBatchSize)
  }

  /** A group with several files fits and does not start with a file that is kept alone. */
  ghost predicate GroupOk(groups: seq<seq<Path>>, i: nat, maxBatchSize: nat)
    requires i < |groups|
  {
    && Fits(groups[i], maxBatchSize)
    && (|groups[i]| > 1 ==> !KeptAlone(groups, i, maxBatchSize))
    && (i > 0 ==> EndsRightly(groups, i, maxBatchSize))
  }

  ghost predicate GroupsOk(groups: seq<seq<Path>>, paths: seq<Path>, k: nat, maxBatchSize: nat)
    requires k <= |paths|
  {
    Flatten(groups) == paths[..k] && forall i :: 0 <= i < |groups| ==> GroupOk(groups, i, maxBatchSize)
  }

  // ------------------------------------------------------------------ adding a path

  lemma {:induction false} SpaceAppend(group: seq<Path>, p: Path, k: nat)
    requires k <= |group|
    ensures Space(group + [p], k) == Space(group, k)
  {
    if k > 0 { SpaceAppend(group, p, k - 1); }
  }

  lemma {:induction false} FlattenNew(groups: seq<seq<Path>>, group: seq<Path>)
    ensures Flatten(groups + [group]) == Flatten(groups) + group
  {
    assert (groups + [group])[..|groups|] == groups;
  }

  /** Whether a group is shut depends on the groups up to it only. */
  lemma {:induction false} ShutPrefix(groups: seq<seq<Path>>, r: seq<seq<Path>>, i: nat, maxBatchSize: nat)
    requires i <= |groups| && i <= |r| && groups[..i] == r[..i]
    ensures OpenTotal(groups, i, maxBatchSize) == OpenTotal(r, i, maxBatchSize)
  {
    if i > 0 {
      assert groups[i - 1] == groups[..i][i - 1] && r[i - 1] == r[..i][i - 1];
      assert groups[..i - 1] == groups[..i][..i - 1] && r[..i - 1] == r[..i][..i - 1];
      ShutPrefix(groups, r, i - 1, maxBatchSize);
      assert KeptAlone(groups, i - 1, maxBatchSize) == KeptAlone(r, i - 1, maxBatchSize);
      assert Shut(groups, i - 1, maxBatchSize) == Shut(r, i - 1, maxBatchSize);
    }
  }

  lemma {:induction false} SamePrefix(groups: seq<seq<Path>>, r: seq<seq<Path>>, i: nat, maxBatchSize: nat)
    requires i < |groups| && i < |r| && groups[..i + 1] == r[..i + 1]
    ensures groups[i] == r[i] && groups[..i] == r[..i]
    ensures KeptAlone(groups, i, maxBatchSize) == KeptAlone(r, i, maxBatchSize)
    ensures Shut(groups, i, maxBatchSize) == Shut(r, i, maxBatchSize)
  {
    assert groups[i] == groups[..i + 1][i] && r[i] == r[..i + 1][i];
    assert groups[..i] == groups[..i + 1][..i] && r[..i] == r[..i + 1][..i];
    ShutPrefix(groups, r, i, maxBatchSize);
  }

  lemma {:induction false} GroupPrefix(groups: seq<seq<Path>>, r: seq<seq<Path>>, i: nat, maxBatchSize: nat)
    requires i < |groups| && i < |r| && groups[..i + 1] == r[..i + 1]
    ensures GroupOk(groups, i, maxBatchSize) == GroupOk(r, i, maxBatchSize)
  {
    SamePrefix(groups, r, i, maxBatchSize);
    if i > 0 { SamePrefix(groups, r, i - 1, maxBatchSize); }
  }

  /** The two things that can happen to a path. */
  function Started(groups: seq<seq<Path>>, p: Path): (r: seq<seq<Path>>) {
    groups + [[p]]
  }

  function Joined(groups: seq<seq<Path>>, p: Path): (r: seq<seq<Path>>)
    requires groups != []
    ensures |r| == |groups|
  {
    groups[..|groups| - 1] + [groups[|groups| - 1] + [p]]
  }

  /** The path joins exactly when the last group is open and it fits. */
  predicate Joins(groups: seq<seq<Path>>, p: Path, maxBatchSize: nat) {
    && OpenTotal(groups, |groups|, maxBatchSize) > 0 && FileSize(p) > 0
    && OpenTotal(groups, |groups|, maxBatchSize) + FileSize(p) + 1 < maxBatchSize
  }

  lemma {:induction false} OldGroupsOk(groups: seq<seq<Path>>, r: seq<seq<Path>>, n: nat, maxBatchSize: nat)
    requires n <= |groups| && n <= |r| && groups[..n] == r[..n]
    requires forall i :: 0 <= i < n ==> GroupOk(groups, i, maxBatchSize)
    ensures forall i :: 0 <= i < n ==> GroupOk(r, i, maxBatchSize)
  {
    forall i | 0 <= i < n
      ensures GroupOk(r, i, maxBatchSize)
    {
      assert groups[..i + 1] == groups[..n][..i + 1] && r[..i + 1] == r[..n][..i + 1];
      GroupPrefix(groups, r, i, maxBatchSize);
    }
  }

  lemma {:induction false} StartedOk(groups: seq<seq<Path>>, paths: seq<Path>, k: nat, maxBatchSize: nat)
    requires k < |paths| && GroupsOk(groups, paths, k, maxBatchSize) && !Joins(groups, paths[k], maxBatchSize)
    ensures GroupsOk(Started(groups, paths[k]), paths, k + 1, maxBatchSize)
  {
    var r, n := Started(groups, paths[k]), |groups|;
    FlattenNew(groups, [paths[k]]);
    assert paths[..k + 1] == paths[..k] + [paths[k]];
    assert r[..n] == groups[..n];
    OldGroupsOk(groups, r, n, maxBatchSize);
    if n > 0 {
      assert GroupOk(groups, n - 1, maxBatchSize);
      SamePrefix(groups, r, n - 1, maxBatchSize);
      SpacePositive(groups[n - 1]);
      assert EndsRightly(r, n, maxBatchSize);
    }
    assert r[n] == [paths[k]] && GroupOk(r, n, maxBatchSize);
  }

  lemma {:induction false} SpacePositive(group: seq<Path>)
    ensures group != [] ==> Space(group, |group|) > 0
  {
  }

  /** What is known of an open group. */
  lemma {:induction false} OpenGroup(groups: seq<seq<Path>>, maxBatchSize: nat)
    requires groups != [] && GroupOk(groups, |groups| - 1, maxBatchSize) && !Shut(groups, |groups| - 1, maxBatchSize)
    ensures var last := groups[|groups| - 1];
      && 0 < |last| < MAX_FILES_PER_GROUP && 0 < Space(last, |last|) < maxBatchSize
      && !KeptAlone(groups, |groups| - 1, maxBatchSize) && forall p :: p in last ==> FileSize(p) > 0
  {
    var last := groups[|groups| - 1];
    assert Space(last, |last|) == Space(last, |last| - 1) + FileSize(last[|last| - 1]) + 1;
    if |last| == 1 { assert Space(last, 1) == FileSize(last[0]) + 1; }
  }

  lemma {:induction false} JoinedOk(groups: seq<seq<Path>>, paths: seq<Path>, k: nat, maxBatchSize: nat)
    requires k < |paths| && GroupsOk(groups, paths, k, maxBatchSize) && Joins(groups, paths[k], maxBatchSize)
    ensures GroupsOk(Joined(groups, paths[k]), paths, k + 1, maxBatchSize)
    ensures var last := groups[|groups| - 1] + [paths[k]];
      Space(last, |last|) == OpenTotal(groups, |groups|, maxBatchSize) + FileSize(paths[k]) + 1
  {
    var r, n, p := Joined(groups, paths[k]), |groups|, paths[k];
    OpenGroup(groups, maxBatchSize);
    JoinedFlatten(groups, paths, k);
    assert r[..n - 1] == groups[..n - 1];
    OldGroupsOk(groups, r, n - 1, maxBatchSize);
    JoinedLast(groups, p, maxBatchSize);
    assert |r| == n && GroupOk(r, n - 1, maxBatchSize);
  }

  lemma {:induction false} JoinedFlatten(groups: seq<seq<Path>>, paths: seq<Path>, k: nat)
    requires k < |paths| && groups != [] && Flatten(groups) == paths[..k]
    ensures Flatten(Joined(groups, paths[k])) == paths[..k + 1]
  {
    var n, p := |groups|, paths[k];
    var front, last := Flatten(groups[..n - 1]), groups[n - 1];
    FlattenNew(groups[..n - 1], last + [p]);
    assert front + (last + [p]) == (front + last) + [p];
    assert paths[..k + 1] == paths[..k] + [p];
  }

  lemma {:induction false} JoinedLast(groups: seq<seq<Path>>, p: Path, maxBatchSize: nat)
    requires groups != [] && GroupOk(groups, |groups| - 1, maxBatchSize) && Joins(groups, p, maxBatchSize)
    ensures GroupOk(Joined(groups, p), |groups| - 1, maxBatchSize)
    ensures var last := groups[|groups| - 1] + [p];
      Space(last, |last|) == OpenTotal(groups, |groups|, maxBatchSize) + FileSize(p) + 1
  {
    var r, n, last := Joined(groups, p), |groups|, groups[|groups| - 1];
    OpenGroup(groups, maxBatchSize);
    SpaceAppend(last, p, |last|);
    assert r[..n - 1] == groups[..n - 1] && r[n - 1] == last + [p] && r[n - 1][0] == last[0];
    ShutPrefix(groups, r, n - 1, maxBatchSize);
    assert KeptAlone(r, n - 1, maxBatchSize) == KeptAlone(groups, n - 1, maxBatchSize);
    if n > 1 {
      assert r[..n - 2 + 1] == groups[..n - 2 + 1];
      SamePrefix(groups, r, n - 2, maxBatchSize);
      assert EndsRightly(groups, n - 1, maxBatchSize) && EndsRightly(r, n - 1, maxBatchSize);
    }
    assert Fits(r[n - 1], maxBatchSize);
  }

  /** One round of the loop when nothing wraps. */
  lemma {:induction false} StepShape(g: Grouping, p: Path, maxBatchSize: nat)
    requires maxBatchSize < SIZE_MODULUS / 2 && g.groupTotalSize < SIZE_MODULUS / 2
    requires p.Sized? && p.size + 1 < SIZE_MODULUS / 2 && (g.groupTotalSize > 0 ==> g.groups != [])
    ensures var total, s := g.groupTotalSize, FileSize(p);
      GroupStep(g, p, maxBatchSize) ==
        if total > 0 && s > 0 && total + s + 1 < maxBatchSize then
          Grouping(Joined(g.groups, p),
                   if |g.groups[|g.groups| - 1]| + 1 == MAX_FILES_PER_GROUP then 0 else total + s + 1)
        else Grouping(Started(g.groups, p), if s > 0 && total + s + 1 < maxBatchSize then s + 1 else 0)
  {
    assert Wrap(p.size + 1) == p.size + 1 && Wrap(p.size + 1 + g.groupTotalSize) == p.size + 1 + g.groupTotalSize;
  }

  lemma {:induction false} StartedTotal(groups: seq<seq<Path>>, p: Path, maxBatchSize: nat)
    ensures var total, s, r := OpenTotal(groups, |groups|, maxBatchSize), FileSize(p), Started(groups, p);
      OpenTotal(r, |r|, maxBatchSize) == if s > 0 && total + s + 1 < maxBatchSize then s + 1 else 0
  {
    var r, n := Started(groups, p), |groups|;
    assert r[..n] == groups[..n] && r[n] == [p];
    ShutPrefix(groups, r, n, maxBatchSize);
    assert Space([p], 1) == Space([p], 0) + FileSize(p) + 1;
    assert KeptAlone(r, n, maxBatchSize)
        == (FileSize(p) == 0 || OpenTotal(r, n, maxBatchSize) + FileSize(p) + 1 >= maxBatchSize);
  }

  lemma {:induction false} JoinedTotal(groups: seq<seq<Path>>, p: Path, maxBatchSize: nat)
    requires groups != [] && GroupOk(groups, |groups| - 1, maxBatchSize) && Joins(groups, p, maxBatchSize)
    ensures var total, s, r := OpenTotal(groups, |groups|, maxBatchSize), FileSize(p), Joined(groups, p);
      OpenTotal(r, |r|, maxBatchSize) == if |groups[|groups| - 1]| + 1 == MAX_FILES_PER_GROUP then 0 else total + s + 1
  {
    OpenGroup(groups, maxBatchSize);
    JoinedLast(groups, p, maxBatchSize);
  }

  /** It joins or starts, and records what the open group has gathered. */
  lemma {:induction false} StepIs(g: Grouping, paths: seq<Path>, k: nat, maxBatchSize: nat)
    requires k < |paths| && GroupsOk(g.groups, paths, k, maxBatchSize) && maxBatchSize < SIZE_MODULUS / 2
    requires g.groupTotalSize == OpenTotal(g.groups, |g.groups|, maxBatchSize)
    requires paths[k].Sized? && paths[k].size + 1 < SIZE_MODULUS / 2
    ensures g.groupTotalSize > 0 ==> g.groups != []
    ensures var p, r := paths[k], GroupStep(g, paths[k], maxBatchSize);
      && r.groups == (if Joins(g.groups, p, maxBatchSize) then Joined(g.groups, p) else Started(g.groups, p))
      && GroupsOk(r.groups, paths, k + 1, maxBatchSize)
      && r.groupTotalSize == OpenTotal(r.groups, |r.groups|, maxBatchSize)
  {
    if g.groupTotalSize > 0 { OpenGroup(g.groups, maxBatchSize); }
    StepShape(g, paths[k], maxBatchSize);
    if Joins(g.groups, paths[k], maxBatchSize) {
      JoinedOk(g.groups, paths, k, maxBatchSize);
      JoinedTotal(g.groups, paths[k], maxBatchSize);
    } else {
      StartedOk(g.groups, paths, k, maxBatchSize);
      StartedTotal(g.groups, paths[k], maxBatchSize);
    }
  }

  /** For paths that have all been sized: the groups are the paths in order, every batch fits the buffer, no batch has
      more than 32 files, an open group ends only before a file that is empty or does not fit, and the recorded total
      is that of the open group. */
  lemma {:induction false} GroupsArePacked(paths: seq<Path>, k: nat, maxBatchSize: nat)
    requires k <= |paths| && AllSized(paths) && maxBatchSize < SIZE_MODULUS / 2
    ensures var g := Group(paths, k, maxBatchSize);
      GroupsOk(g.groups, paths, k, maxBatchSize) && g.groupTotalSize == OpenTotal(g.groups, |g.groups|, maxBatchSize)
  {
    if k > 0 {
      GroupsArePacked(paths, k - 1, maxBatchSize);
      StepIs(Group(paths, k - 1, maxBatchSize), paths, k - 1, maxBatchSize);
    }
  }

  // ------------------------------------------------------------------ nothing else is packed

  /** The groups without the last path. */
  function Without(groups: seq<seq<Path>>): (r: seq<seq<Path>>)
    requires groups != [] && groups[|groups| - 1] != []
  {
    var n, last := |groups|, groups[|groups| - 1];
    if |last| == 1 then groups[..n - 1] else groups[..n - 1] + [last[..|last| - 1]]
  }

  lemma {:induction false} SpacePrefix(group: seq<Path>, n: nat, k: nat)
    requires k <= n <= |group|
    ensures Space(group[..n], k) == Space(group, k)
  {
    if k > 0 { SpacePrefix(group, n, k - 1); }
  }

  lemma {:induction false} WithoutFits(group: seq<Path>, maxBatchSize: nat)
    requires Fits(group, maxBatchSize) && |group| > 1
    ensures Fits(group[..|group| - 1], maxBatchSize)
    ensures Space(group, |group|) == Space(group[..|group| - 1], |group| - 1) + FileSize(group[|group| - 1]) + 1
  {
    SpacePrefix(group, |group| - 1, |group| - 1);
  }

  lemma {:induction false} WithoutFlatten(groups: seq<seq<Path>>, paths: seq<Path>, k: nat)
    requires 0 < k <= |paths| && groups != [] && groups[|groups| - 1] != [] && Flatten(groups) == paths[..k]
    ensures Flatten(Without(groups)) == paths[..k - 1]
    ensures groups[|groups| - 1][|groups[|groups| - 1]| - 1] == paths[k - 1]
  {
    var n, last := |groups|, groups[|groups| - 1];
    var init := last[..|last| - 1];
    FlattenNew(groups[..n - 1], init);
    assert last == init + [last[|last| - 1]];
    var front := Flatten(groups[..n - 1]) + init;
    assert paths[..k] == front + [last[|last| - 1]];
    assert front == paths[..k][..k - 1];
    if |last| == 1 { assert Flatten(groups[..n - 1]) == front; }
  }

  /** Putting the last path back. */
  lemma {:induction false} WithoutBack(groups: seq<seq<Path>>)
    requires groups != [] && groups[|groups| - 1] != []
    ensures var last := groups[|groups| - 1]; var p := last[|last| - 1];
      if |last| == 1 then groups == Started(Without(groups), p)
      else |Without(groups)| == |groups| && groups == Joined(Without(groups), p)
  {
    var n, last := |groups|, groups[|groups| - 1];
    assert last == last[..|last| - 1] + [last[|last| - 1]];
    assert groups == groups[..n - 1] + [last];
  }

  /** A path that is alone in the last group did not join the group before. */
  lemma {:induction false} AloneStarted(groups: seq<seq<Path>>, maxBatchSize: nat)
    requires groups != [] && GroupOk(groups, |groups| - 1, maxBatchSize) && |groups[|groups| - 1]| == 1
    ensures !Joins(Without(groups), groups[|groups| - 1][0], maxBatchSize)
  {
    var n, r := |groups|, Without(groups);
    assert r[..n - 1] == groups[..n - 1];
    ShutPrefix(groups, r, n - 1, maxBatchSize);
    if n > 1 { assert EndsRightly(groups, n - 1, maxBatchSize); }
  }

  /** Taking away a path that has others before it leaves the last group as it was, but for that path. */
  lemma {:induction false} OthersKept(groups: seq<seq<Path>>, r: seq<seq<Path>>, maxBatchSize: nat)
    requires groups != [] && GroupOk(groups, |groups| - 1, maxBatchSize) && |groups[|groups| - 1]| > 1
    requires r == Without(groups)
    ensures |r| == |groups| && r[|groups| - 1] == groups[|groups| - 1][..|groups[|groups| - 1]| - 1]
    ensures !KeptAlone(r, |groups| - 1, maxBatchSize)
    ensures |groups| > 1 ==> EndsRightly(r, |groups| - 1, maxBatchSize)
  {
    var n, last := |groups|, groups[|groups| - 1];
    assert r[..n - 1] == groups[..n - 1] && r[n - 1] == last[..|last| - 1] && r[n - 1][0] == last[0];
    ShutPrefix(groups, r, n - 1, maxBatchSize);
    assert KeptAlone(r, n - 1, maxBatchSize) == KeptAlone(groups, n - 1, maxBatchSize);
    if n > 1 {
      assert r[..n - 2 + 1] == groups[..n - 2 + 1];
      SamePrefix(groups, r, n - 2, maxBatchSize);
      assert EndsRightly(groups, n - 1, maxBatchSize) && EndsRightly(r, n - 1, maxBatchSize);
    }
  }

  /** A path that has others before it in the last group joined them. */
  lemma {:induction false} OthersJoined(groups: seq<seq<Path>>, maxBatchSize: nat)
    requires groups != [] && GroupOk(groups, |groups| - 1, maxBatchSize) && |groups[|groups| - 1]| > 1
    ensures var last, r := groups[|groups| - 1], Without(groups);
      Joins(r, last[|last| - 1], maxBatchSize) && GroupOk(r, |groups| - 1, maxBatchSize)
  {
    var n, last, r := |groups|, groups[|groups| - 1], Without(groups);
    OthersKept(groups, r, maxBatchSize);
    WithoutFits(last, maxBatchSize);
    assert !Shut(r, n - 1, maxBatchSize) && OpenTotal(r, n, maxBatchSize) == Space(r[n - 1], |last| - 1);
    SpacePositive(r[n - 1]);
    assert last[|last| - 1] in last;
  }

  lemma {:induction false} WithoutOk(groups: seq<seq<Path>>, paths: seq<Path>, k: nat, maxBatchSize: nat)
    requires 0 < k <= |paths| && groups != [] && GroupsOk(groups, paths, k, maxBatchSize)
    ensures groups[|groups| - 1] != [] && GroupsOk(Without(groups), paths, k - 1, maxBatchSize)
    ensures groups == if Joins(Without(groups), paths[k - 1], maxBatchSize) then Joined(Without(groups), paths[k - 1])
                      else Started(Without(groups), paths[k - 1])
  {
    var n := |groups|;
    assert GroupOk(groups, n - 1, maxBatchSize);
    var r := Without(groups);
    WithoutFlatten(groups, paths, k);
    WithoutBack(groups);
    if |groups[n - 1]| == 1 { AloneStarted(groups, maxBatchSize); } else { OthersJoined(groups, maxBatchSize); }
    assert r[..n - 1] == groups[..n - 1];
    OldGroupsOk(groups, r, n - 1, maxBatchSize);
  }

  lemma {:induction false} PackedAreGroups(groups: seq<seq<Path>>, paths: seq<Path>, k: nat, maxBatchSize: nat)
    requires k <= |paths| && AllSized(paths) && maxBatchSize < SIZE_MODULUS / 2
    requires GroupsOk(groups, paths, k, maxBatchSize)
    ensures groups == Group(paths, k, maxBatchSize).groups
    decreases k
  {
    NoEmptyGroups(groups, maxBatchSize);
    if k > 0 {
      assert |paths[..k]| == k;
      WithoutOk(groups, paths, k, maxBatchSize);
      PackedAreGroups(Without(groups), paths, k - 1, maxBatchSize);
      GroupsArePacked(paths, k - 1, maxBatchSize);
      StepIs(Group(paths, k - 1, maxBatchSize), paths, k - 1, maxBatchSize);
    }
  }

  lemma {:induction false} NoEmptyGroups(groups: seq<seq<Path>>, maxBatchSize: nat)
    requires forall i :: 0 <= i < |groups| ==> GroupOk(groups, i, maxBatchSize)
    ensures groups == [] <==> Flatten(groups) == []
  {
    if groups != [] { assert GroupOk(groups, |groups| - 1, maxBatchSize); }
  }

  /** No other grouping of the paths is packed in this sense, so the conditions say exactly what the loop computes. */
  lemma {:induction false} PackedIsUnique(groups: seq<seq<Path>>, paths: seq<Path>, k: nat, maxBatchSize: nat)
    requires k <= |paths| && AllSized(paths) && maxBatchSize < SIZE_MODULUS / 2
    ensures GroupsOk(groups, paths, k, maxBatchSize) <==> groups == Group(paths, k, maxBatchSize).groups
  {
    GroupsArePacked(paths, k, maxBatchSize);
    if GroupsOk(groups, paths, k, maxBatchSize) { PackedAreGroups(groups, paths, k, maxBatchSize); }
  }

  // ------------------------------------------------------------------ groups that end early

  lemma {:induction false} PairFits(p: Path, q: Path, maxBatchSize: nat)
    ensures Fits([p, q], maxBatchSize) <==>
              FileSize(p) > 0 && FileSize(q) > 0 && FileSize(p) + FileSize(q) + 2 < maxBatchSize
  {
    assert p in [p, q] && q in [p, q];
    assert Space([p, q], 2) == Space([p, q], 1) + FileSize(q) + 1;
    assert Space([p, q], 1) == Space([p, q], 0) + FileSize(p) + 1;
  }

  /** A file that would fit with the one file of the last group starts a new group all the same exactly when that one
      file was itself turned away by a group that was open then. */
  lemma {:induction false} EndsEarlyExactly(paths: seq<Path>, k: nat, maxBatchSize: nat)
    requires k < |paths| && AllSized(paths) && maxBatchSize < SIZE_MODULUS / 2
    requires var groups := Group(paths, k, maxBatchSize).groups;
      && groups != [] && |groups[|groups| - 1]| == 1
      && Fits([groups[|groups| - 1][0], paths[k]], maxBatchSize)
    ensures var groups, after := Group(paths, k, maxBatchSize).groups, Group(paths, k + 1, maxBatchSize).groups;
      after == Started(groups, paths[k]) <==> TurnedAway(groups, |groups| - 1, maxBatchSize)
  {
    var g := Group(paths, k, maxBatchSize);
    var n := |g.groups|;
    var p, q := g.groups[n - 1][0], paths[k];
    GroupsArePacked(paths, k, maxBatchSize);
    StepIs(g, paths, k, maxBatchSize);
    PairFits(p, q, maxBatchSize);
    assert Space(g.groups[n - 1], 1) == Space(g.groups[n - 1], 0) + FileSize(p) + 1;
    assert KeptAlone(g.groups, n - 1, maxBatchSize) == TurnedAway(g.groups, n - 1, maxBatchSize);
    assert Joins(g.groups, q, maxBatchSize) ==> |Joined(g.groups, q)| != |Started(g.groups, q)|;
  }

  /** Any group that could have taken the file after it is such a group of one file that was turned away. */
  lemma {:induction false} EndsEarlyOnlyAlone(paths: seq<Path>, k: nat, maxBatchSize: nat, i: nat)
    requires k <= |paths| && AllSized(paths) && maxBatchSize < SIZE_MODULUS / 2
    requires 0 < i < |Group(paths, k, maxBatchSize).groups|
    ensures var groups := Group(paths, k, maxBatchSize).groups;
      groups[i] != [] &&
      (Fits(groups[i - 1] + [groups[i][0]], maxBatchSize) ==>
         |groups[i - 1]| == 1 && TurnedAway(groups, i - 1, maxBatchSize))
  {
    var groups := Group(paths, k, maxBatchSize).groups;
    GroupsArePacked(paths, k, maxBatchSize);
    assert GroupOk(groups, i, maxBatchSize) && GroupOk(groups, i - 1, maxBatchSize);
    var group, q := groups[i - 1], groups[i][0];
    if Fits(group + [q], maxBatchSize) {
      SpaceAppend(group, q, |group|);
      assert q in group + [q] && Space(group + [q], |group| + 1) == Space(group, |group|) + FileSize(q) + 1;
      assert Shut(groups, i - 1, maxBatchSize) && |group| == 1;
      assert group + [q] == [group[0], q];
      PairFits(group[0], q, maxBatchSize);
      assert groups[i - 1][0] == group[0] && KeptAlone(groups, i - 1, maxBatchSize);
      assert OpenTotal(groups, i - 1, maxBatchSize) > 0;
      assert TurnedAway(groups, i - 1, maxBatchSize);
    }
  }

  /** So it happens: 60 bytes, then 50, then 10, for batches below 100. */
  lemma {:induction false} EndsEarlyExample()
    ensures var p, q, r := Sized("a", 60), Sized("b", 50), Sized("c", 10);
      Group([p, q, r], 3, 100).groups == [[p], [q], [r]] && Fits([q, r], 100)
  {
    var p, q, r := Sized("a", 60), Sized("b", 50), Sized("c", 10);
    var paths := [p, q, r];
    assert Group(paths, 0, 100) == Grouping([], 0);
    assert Group(paths, 1, 100) == Grouping([[p]], 61);
    assert Group(paths, 2, 100) == Grouping([[p], [q]], 0);
    assert Group(paths, 3, 100) == Grouping([[p], [q], [r]], 11);
    assert Space([q, r], 2) == Space([q, r], 1) + 11 && Space([q, r], 1) == 51;
  }

  // ------------------------------------------------------------------ paths that could not be sized

  lemma {:induction false} TotalBelow(paths: seq<Path>, k: nat, maxBatchSize: nat)
    requires k <= |paths|
    ensures var total := Group(paths, k, maxBatchSize).groupTotalSize; total == 0 || total < maxBatchSize
  {
    if k > 0 { TotalBelow(paths, k - 1, maxBatchSize); }
  }

  /** After any paths, sized or not, a path whose size could not be determined counts as size zero modulo 2^64: it
      joins an open group, and gets a group of its own exactly when no group is open. */
  lemma {:induction false} FailedPath(paths: seq<Path>, k: nat, maxBatchSize: nat)
    requires k < |paths| && paths[k].Failed? && maxBatchSize < SIZE_MODULUS
    ensures var g, r := Group(paths, k, maxBatchSize), Group(paths, k + 1, maxBatchSize);
            if g.groupTotalSize == 0 then r == Grouping(Started(g.groups, paths[k]), 0)
            else r.groups == Joined(g.groups, paths[k])
  {
    TotalBelow(paths, k, maxBatchSize);
  }

  /** So it is not always kept apart. */
  lemma {:induction false} FailedPathJoins()
    ensures Group([Sized("a", 5), Failed("b"), Failed("c")], 3, 100).groups
         == [[Sized("a", 5), Failed("b"), Failed("c")]]
  {
    var p, q, r := Sized("a", 5), Failed("b"), Failed("c");
    var paths := [p, q, r];
    assert Group(paths, 0, 100) == Grouping([], 0);
    assert Group(paths, 1, 100) == Grouping([[p]], 6);
    FailedPath(paths, 1, 100);
    assert [p] + [q] == [p, q];
    assert Group(paths, 2, 100) == Grouping([[p, q]], 6);
    FailedPath(paths, 2, 100);
    assert [p, q] + [r] == [p, q, r];
  }
}
