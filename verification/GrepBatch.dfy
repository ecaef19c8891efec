/** EmitMatchesEngine::doGrep: a group of small files is copied into one buffer, scanned once, and the matches
    are attributed back to the files.  The output is compared with that of searching each file by itself. */
module GrepBatch {
  import opened GrepEmit
  import opened GrepLines
  import opened GrepReport
  import opened GrepRuns
  import opened GrepScan
  import Groups = GrepGroups

  datatype File = File(name: string, contents: string)

  // ------------------------------------------------------------------ files as lines with verdicts

  function DocOf(file: File, f: string -> bool): (r: Doc) {
    Doc(file.name, HitsOf(Lines(file.contents), f))
  }

  function DocsOf(files: seq<File>, f: string -> bool): (r: seq<Doc>)
    ensures |r| == |files|
  {
    seq(|files|, i requires 0 <= i < |files| => DocOf(files[i], f))
  }

  lemma {:induction false} HitsFixLast(ls: seq<string>, f: string -> bool)
    requires ls != [] && !EndsLine(ls[|ls| - 1])
    ensures HitsOf(FixLast(ls), f) == FixHits(HitsOf(ls, f))
  {
    var last := ls[|ls| - 1];
    assert Body(last + "\n") == last && Body(last) == last;
  }

  /** The lines of a file in the batch buffer. */
  lemma {:induction false} HitsFixed(s: string, f: string -> bool)
    ensures HitsOf(Lines(Fixed(s)), f) == FixHits(HitsOf(Lines(s), f))
    ensures |Lines(Fixed(s))| == |Lines(s)|
  {
    if s != "" && !EndsLine(s) {
      LinesFixed(s);
      HitsFixLast(Lines(s), f);
    } else if s != "" {
      LinesEnd(s, |Lines(s)| - 1);
      EndedSame(HitsOf(Lines(s), f));
    } else {
      EndedSame(HitsOf(Lines(s), f));
    }
  }

  lemma {:induction false} HitsWellCut(s: string, f: string -> bool)
    ensures WellCut(HitsOf(Lines(s), f))
  {
    forall i | 0 <= i < |Lines(s)| - 1
      ensures EndsLine(Lines(s)[i])
    {
      LinesEnd(s, i);
    }
  }

  lemma {:induction false} FewLines(s: string, i: nat)
    requires i <= |s|
    ensures |LinesFrom(s, i)| <= |s| - i
    decreases |s| - i
  {
    if i < |s| { FewLines(s, LineEnd(s, i)); }
  }

  // ------------------------------------------------------------------ loading the buffer

  /** The files as they stand in the buffer. */
  function FixedTexts(files: seq<File>): (r: seq<string>)
    ensures |r| == |files|
  {
    seq(|files|, i requires 0 <= i < |files| => Fixed(files[i].contents))
  }

  /** The files as formFileGroups sees them. */
  function PathsOf(files: seq<File>): (r: seq<Groups.Path>)
    ensures |r| == |files|
  {
    seq(|files|, i requires 0 <= i < |files| => Groups.Sized(files[i].name, |files[i].contents|))
  }

  ghost predicate FitsBuffer(files: seq<File>, batchSize: nat) {
    && Groups.Space(PathsOf(files), |files|) < batchSize
    && forall i :: 0 <= i < |files| ==> files[i].contents != ""
  }

  lemma {:induction false} BufferShort(files: seq<File>, texts: seq<string>, k: nat)
    requires k <= |files| && texts == FixedTexts(files)
    ensures |BufferText(texts, k)| <= Groups.Space(PathsOf(files), k)
  {
    if k > 0 { BufferShort(files, texts, k - 1); }
  }

  lemma {:induction false} SpaceMonotone(files: seq<File>, k: nat, n: nat)
    requires k <= n <= |files|
    ensures Groups.Space(PathsOf(files), k) <= Groups.Space(PathsOf(files), n)
  {
    if k < n { SpaceMonotone(files, k, n - 1); }
  }

  /** Copy one file into the buffer and add the line feed it lacks. */
  method LoadFile(buffer: array<char>, base: nat, contents: string) returns (next: nat)
    requires contents != "" && base + |contents| < buffer.Length
    modifies buffer
    ensures next == base + |Fixed(contents)| <= buffer.Length
    ensures buffer[..next] == old(buffer[..base]) + Fixed(contents)
  {
    for i := 0 to |contents|
      invariant buffer[..base] == old(buffer[..base])
      invariant forall k :: 0 <= k < i ==> buffer[base + k] == contents[k]
    {
      buffer[base + i] := contents[i];
    }
    next := base + |contents|;
    assert buffer[base..next] == contents;
    if buffer[next - 1] != '\n' {
      buffer[next] := '\n';
      next := next + 1;
      assert buffer[base..next] == contents + "\n";
    }
    assert buffer[..next] == buffer[..base] + buffer[base..next];
  }

  lemma {:induction false} Room(files: seq<File>, texts: seq<string>, k: nat, batchSize: nat)
    requires k < |files| && FitsBuffer(files, batchSize) && texts == FixedTexts(files)
    ensures |BufferText(texts, k)| + |files[k].contents| < batchSize
    ensures BufferText(texts, k + 1) == BufferText(texts, k) + Fixed(files[k].contents)
  {
    BufferShort(files, texts, k);
    SpaceMonotone(files, k + 1, |files|);
  }

  /** The loading loop.  When the files fit the buffer, as formFileGroups provides, no write leaves the buffer and
      the overflow break is never taken. */
  method LoadBatch(files: seq<File>, batchSize: nat) returns (text: string, starts: seq<nat>, examined: nat)
    requires FitsBuffer(files, batchSize)
    ensures examined == |files| && Loaded(FixedTexts(files), |files|, text, starts)
  {
    ghost var texts := FixedTexts(files);
    var buffer := new char[batchSize];
    var cumulativeSize: nat := 0;
    starts, examined := [], 0;
    while examined < |files|
      invariant examined <= |files| && cumulativeSize <= batchSize
      invariant Loaded(texts, examined, buffer[..cumulativeSize], starts)
      decreases |files| - examined
    {
      var contents := files[examined].contents;
      Room(files, texts, examined, batchSize);
      examined := examined + 1;
      if cumulativeSize + |contents| > batchSize {
        break;
      }
      starts := starts + [cumulativeSize];
      cumulativeSize := LoadFile(buffer, cumulativeSize, contents);
    }
    text := buffer[..cumulativeSize];
  }

  // ------------------------------------------------------------------ the buffer seen by the scan

  lemma {:induction false} FixedBreaks(s: string)
    requires s != ""
    ensures CountBreaks(Fixed(s), |Fixed(s)|) == |Lines(s)|
  {
    LinesAreBreaks(Fixed(s), 0);
    if !EndsLine(s) { LinesFixed(s); }
  }

  lemma {:induction false} FilesSameCounts(files: seq<File>, f: string -> bool)
    requires forall i :: 0 <= i < |files| ==> files[i].contents != ""
    ensures SameCounts(FixedTexts(files), FixDocs(DocsOf(files, f)))
  {
    forall i | 0 <= i < |files| - 1
      ensures CountBreaks(FixedTexts(files)[i], |FixedTexts(files)[i]|) == |FixDocs(DocsOf(files, f))[i].hits|
    {
      FixedBreaks(files[i].contents);
    }
  }

  // ------------------------------------------------------------------ searching

  lemma {:induction false} OnlyFile(cfg: Config, docs: seq<Doc>)
    requires |docs| == 1
    ensures Finalize(BatchAfter(cfg, docs, 1)) == Single(cfg, docs[0])
  {
    assert Names(docs) == [docs[0].name];
    assert BatchAfter(cfg, docs, 1) == BatchFile(cfg, BatchAfter(cfg, docs, 0), docs, 0);
  }

  /** A file searched by itself. */
  method DoGrepSingle(cfg: Config, file: File, f: string -> bool, stride: nat) returns (out: string, count: nat)
    requires stride > 0
    ensures out == Single(cfg, DocOf(file, f)).out && count == Single(cfg, DocOf(file, f)).lineCount
    ensures ReportsAlone(cfg, file.name, file.contents, f, out)
    ensures count == MatchingLines(Lines(file.contents), f, |Lines(file.contents)|)
  {
    SingleReports(cfg, file.name, file.contents, f);
    if file.contents == "" {
      return "", 0;
    }
    var em := new EmitMatch(cfg, [file.name]);
    ghost var texts, docs := [file.contents], [DocOf(file, f)];
    assert BufferText(texts, 1) == BufferText(texts, 0) + texts[0];
    assert Names(docs) == [file.name];
    ScanBatch(em, file.contents, [0], f, stride, texts, docs);
    OnlyFile(cfg, docs);
    em.FinalizeMatch();
    out, count := em.mResultStr, em.mLineCount;
  }

  lemma {:induction false} FixedDoc(files: seq<File>, f: string -> bool, j: nat)
    requires j < |files|
    ensures FixDocs(DocsOf(files, f))[j] == Doc(files[j].name, HitsOf(Lines(Fixed(files[j].contents)), f))
  {
    HitsFixed(files[j].contents, f);
  }

  lemma {:induction false} FilesCutInto(files: seq<File>, f: string -> bool)
    requires forall i :: 0 <= i < |files| ==> files[i].contents != ""
    ensures CutInto(FixedTexts(files), FixDocs(DocsOf(files, f)), f)
  {
    FilesSameCounts(files, f);
    forall i | 0 <= i < |files|
      ensures HitsOf(Lines(FixedTexts(files)[i]), f) == FixDocs(DocsOf(files, f))[i].hits
    {
      FixedDoc(files, f, i);
    }
  }

  lemma {:induction false} BatchNames(files: seq<File>, f: string -> bool, names: seq<string>)
    requires |names| == |files| && forall i :: 0 <= i < |files| ==> names[i] == files[i].name
    ensures names == Names(FixDocs(DocsOf(files, f)))
  {
  }

  /** A batch searched in one run. */
  method DoGrepBatch(cfg: Config, files: seq<File>, batchSize: nat, f: string -> bool, stride: nat)
      returns (out: string, count: nat)
    requires stride > 0 && files != [] && FitsBuffer(files, batchSize)
    ensures var batch := Batch(cfg, FixDocs(DocsOf(files, f)));
            out == batch.out && count == batch.lineCount
  {
    var text, starts, examined := LoadBatch(files, batchSize);
    var names := seq(|files|, i requires 0 <= i < |files| => files[i].name);
    var em := new EmitMatch(cfg, names);
    BatchNames(files, f, names);
    FilesCutInto(files, f);
    ScanBatch(em, text, starts, f, stride, FixedTexts(files), FixDocs(DocsOf(files, f)));
    em.FinalizeMatch();
    out, count := em.mResultStr, em.mLineCount;
  }

  // ------------------------------------------------------------------ groups

  /** The single searches of the files, one after the other. */
  function SingleOuts(cfg: Config, files: seq<File>, f: string -> bool): (r: string) {
    SingleTexts(cfg, DocsOf(files, f), |files|)
  }

  /** A file of the group is matched in its last line, which has no line feed and ends like one that has; or it comes
      later in the group, is shown from its second line on, and context groups are separated. */
  ghost predicate SomeDifference(cfg: Config, files: seq<File>, f: string -> bool) {
    exists i :: 0 <= i < |files| && DiffersInBatch(cfg, files, f, i)
  }

  ghost predicate DiffersInBatch(cfg: Config, files: seq<File>, f: string -> bool, i: nat)
    requires i < |files|
  {
    var hits := DocOf(files[i], f).hits;
    HiddenEnd(hits, cfg.signedChar) || (cfg.contextGroups && i > 0 && SecondFirst(hits))
  }

  lemma {:induction false} LinesBefore(files: seq<File>, f: string -> bool, j: nat)
    requires j <= |files| && forall i :: 0 <= i < |files| ==> files[i].contents != ""
    ensures Base(DocsOf(files, f), j) > 0 <==> j > 0
  {
    if j > 0 { LinesBefore(files, f, j - 1); }
  }

  lemma {:induction false} DifferenceMeans(cfg: Config, files: seq<File>, f: string -> bool, docs: seq<Doc>)
    requires docs == DocsOf(files, f) && forall i :: 0 <= i < |files| ==> files[i].contents != ""
    ensures NoDifference(cfg, docs, |docs|) <==> !SomeDifference(cfg, files, f)
  {
    forall i | 0 <= i < |files|
      ensures DiffersInBatch(cfg, files, f, i)
         <==> ExtraSeparator(cfg, docs, i) || HiddenEnd(docs[i].hits, cfg.signedChar)
    {
      LinesBefore(files, f, i);
    }
  }

  lemma {:induction false} FewBatchLines(files: seq<File>, f: string -> bool, j: nat)
    requires j <= |files|
    ensures Base(DocsOf(files, f), j) <= Groups.Space(PathsOf(files), j)
  {
    if j > 0 {
      FewBatchLines(files, f, j - 1);
      FewLines(files[j - 1].contents, 0);
    }
  }

  lemma {:induction false} GroupFilesOk(cfg: Config, files: seq<File>, f: string -> bool)
    requires files != [] && Groups.Space(PathsOf(files), |files|) <= NO_LINE
    ensures FilesOk(cfg, DocsOf(files, f))
  {
    FewBatchLines(files, f, |files|);
    forall i | 0 <= i < |files|
      ensures WellCut(DocsOf(files, f)[i].hits)
    {
      HitsWellCut(files[i].contents, f);
    }
  }

  /** What the search of a group emits, and how many lines it has matched. */
  function GroupOutput(cfg: Config, files: seq<File>, f: string -> bool): (r: string)
    requires files != []
  {
    if |files| == 1 then Single(cfg, DocOf(files[0], f)).out else Batch(cfg, FixDocs(DocsOf(files, f))).out
  }

  function GroupMatches(cfg: Config, files: seq<File>, f: string -> bool): (r: nat)
    requires files != []
  {
    if |files| == 1 then Single(cfg, DocOf(files[0], f)).lineCount else Batch(cfg, FixDocs(DocsOf(files, f))).lineCount
  }

  /** A group that formFileGroups has made. */
  ghost predicate IsGroup(files: seq<File>, batchSize: nat) {
    && Groups.Fits(PathsOf(files), batchSize) && batchSize <= NO_LINE
    && (|files| == 1 ==> Groups.Space(PathsOf(files), 1) <= NO_LINE)
  }

  lemma {:induction false} GroupNotEmpty(files: seq<File>, batchSize: nat)
    requires IsGroup(files, batchSize) && |files| > 1
    ensures FitsBuffer(files, batchSize)
  {
    forall i | 0 <= i < |files|
      ensures files[i].contents != ""
    {
      assert PathsOf(files)[i] in PathsOf(files);
    }
  }

  lemma {:induction false} OnlySingle(cfg: Config, files: seq<File>, f: string -> bool)
    requires |files| == 1
    ensures SingleOuts(cfg, files, f) == GroupOutput(cfg, files, f)
    ensures SingleMatched(cfg, DocsOf(files, f), 1) == GroupMatches(cfg, files, f)
  {
    var docs := DocsOf(files, f);
    assert docs[0] == DocOf(files[0], f);
    assert SingleTexts(cfg, docs, 1) == SingleTexts(cfg, docs, 0) + Single(cfg, docs[0]).out;
  }

  /** A group is searched with the output of the single searches in order, unless it holds several files and
      some file makes a difference; then there is more output.  The matches are the same in any case. */
  lemma {:induction false} GroupCompared(cfg: Config, files: seq<File>, batchSize: nat, f: string -> bool)
    requires IsGroup(files, batchSize)
    ensures Compared(GroupOutput(cfg, files, f), SingleOuts(cfg, files, f),
                     |files| == 1 || !SomeDifference(cfg, files, f))
    ensures GroupMatches(cfg, files, f) == SingleMatched(cfg, DocsOf(files, f), |files|)
  {
    if |files| == 1 {
      OnlySingle(cfg, files, f);
    } else {
      GroupNotEmpty(files, batchSize);
      GroupFilesOk(cfg, files, f);
      BatchCompared(cfg, DocsOf(files, f));
      DifferenceMeans(cfg, files, f, DocsOf(files, f));
    }
  }

  // ------------------------------------------------------------------ what the output says

  ghost predicate ReportsFile(cfg: Config, files: seq<File>, f: string -> bool, k: nat, before: string, piece: string,
                              out: string)
    requires 0 < k <= |files|
  {
    var s := Fixed(files[k - 1].contents);
    Reports(cfg, files[k - 1].name, s, f, |Lines(s)|, k > 1, piece) && out == before + piece
  }

  /** The reports of the first k files as they stand in the buffer, one after the other. */
  ghost predicate ReportsBatch(cfg: Config, files: seq<File>, f: string -> bool, k: nat, out: string)
    requires k <= |files|
  {
    if k == 0 then out == ""
    else exists before: string, piece: string ::
      ReportsFile(cfg, files, f, k, before, piece, out) && ReportsBatch(cfg, files, f, k - 1, before)
  }

  /** The output of a group: a file searched by itself, or the reports of the files of a batch. */
  ghost predicate ReportsGroup(cfg: Config, files: seq<File>, f: string -> bool, out: string)
    requires files != []
  {
    if |files| == 1 then ReportsAlone(cfg, files[0].name, files[0].contents, f, out)
    else ReportsBatch(cfg, files, f, |files|, out)
  }

  /** How many lines of the first k files match. */
  function MatchingTotal(files: seq<File>, f: string -> bool, k: nat): nat
    requires k <= |files|
  {
    if k == 0 then 0
    else
      var lines := Lines(files[k - 1].contents);
      MatchingTotal(files, f, k - 1) + MatchingLines(lines, f, |lines|)
  }

  lemma {:induction false} FileMatching(cfg: Config, file: File, f: string -> bool, doc: Doc)
    requires doc == DocOf(file, f)
    ensures Single(cfg, doc).lineCount == MatchingLines(Lines(file.contents), f, |Lines(file.contents)|)
  {
    SingleReports(cfg, file.name, file.contents, f);
  }

  lemma {:induction false} SinglesMatching(cfg: Config, files: seq<File>, f: string -> bool, docs: seq<Doc>, k: nat)
    requires k <= |files| && docs == DocsOf(files, f)
    ensures SingleMatched(cfg, docs, k) == MatchingTotal(files, f, k)
  {
    if k > 0 {
      SinglesMatching(cfg, files, f, docs, k - 1);
      FileMatching(cfg, files[k - 1], f, docs[k - 1]);
    }
  }

  lemma {:induction false} BatchNext(cfg: Config, files: seq<File>, f: string -> bool, k: nat, before: string,
                                     piece: string, hits: seq<Hit>)
    requires 0 < k <= |files| && ReportsBatch(cfg, files, f, k - 1, before)
    requires hits == HitsOf(Lines(Fixed(files[k - 1].contents)), f)
    requires piece == Piece(cfg, files[k - 1].name, hits, |hits|, k > 1)
    ensures ReportsBatch(cfg, files, f, k, before + piece)
  {
    PieceReports(cfg, files[k - 1].name, Fixed(files[k - 1].contents), f, |hits|, k > 1, hits, piece);
    assert ReportsFile(cfg, files, f, k, before, piece, before + piece);
  }

  lemma {:induction false} BatchReported(cfg: Config, files: seq<File>, f: string -> bool, docs: seq<Doc>, k: nat,
                                         out: string)
    requires k <= |files| && docs == FixDocs(DocsOf(files, f)) && out == BatchText(cfg, docs, k)
    requires forall i :: 0 <= i < |files| ==> files[i].contents != ""
    ensures ReportsBatch(cfg, files, f, k, out)
  {
    if k > 0 {
      var before := BatchText(cfg, docs, k - 1);
      FixedDoc(files, f, k - 1);
      LinesBefore(files, f, k - 1);
      FixDocsBase(DocsOf(files, f), k - 1);
      BatchReported(cfg, files, f, docs, k - 1, before);
      BatchNext(cfg, files, f, k, before, FullPiece(cfg, docs[k - 1], k > 1), docs[k - 1].hits);
    }
  }

  /** What the search of a group emits, read against the contents of its files. */
  lemma {:induction false} GroupReported(cfg: Config, files: seq<File>, batchSize: nat, f: string -> bool)
    requires IsGroup(files, batchSize)
    ensures ReportsGroup(cfg, files, f, GroupOutput(cfg, files, f))
    ensures GroupMatches(cfg, files, f) == MatchingTotal(files, f, |files|)
  {
    GroupCompared(cfg, files, batchSize, f);
    SinglesMatching(cfg, files, f, DocsOf(files, f), |files|);
    if |files| == 1 {
      SingleReports(cfg, files[0].name, files[0].contents, f);
    } else {
      GroupNotEmpty(files, batchSize);
      GroupFilesOk(cfg, files, f);
      var docs := FixDocs(DocsOf(files, f));
      BatchOutIs(cfg, DocsOf(files, f));
      BatchReported(cfg, files, f, docs, |files|, BatchText(cfg, docs, |files|));
    }
  }

  /** EmitMatchesEngine::doGrep on a group that formFileGroups has made: the output is that of the single
      searches in order, unless some file of a batch makes a difference. */
  method DoGrep(cfg: Config, files: seq<File>, batchSize: nat, f: string -> bool, stride: nat)
      returns (out: string, count: nat)
    requires stride > 0 && IsGroup(files, batchSize)
    ensures out == GroupOutput(cfg, files, f) && count == GroupMatches(cfg, files, f)
    ensures ReportsGroup(cfg, files, f, out) && count == MatchingTotal(files, f, |files|)
    ensures count == SingleMatched(cfg, DocsOf(files, f), |files|)
    ensures out == SingleOuts(cfg, files, f) <==> |files| == 1 || !SomeDifference(cfg, files, f)
  {
    GroupCompared(cfg, files, batchSize, f);
    GroupReported(cfg, files, batchSize, f);
    if |files| == 1 {
      out, count := DoGrepSingle(cfg, files[0], f, stride);
    } else {
      GroupNotEmpty(files, batchSize);
      out, count := DoGrepBatch(cfg, files, batchSize, f, stride);
    }
  }

  /** A matched vertical tab at the end of a file is enough to make a difference. */
  lemma {:induction false} HiddenEndExample(f: string -> bool, signedChar: bool)
    requires f(['\U{000B}'])
    ensures HiddenEnd(HitsOf(Lines(['\U{000B}']), f), signedChar)
  {
    var s := ['\U{000B}'];
    assert LineEnd(s, 0) == 1 && s[0..1] == s;
    assert Lines(s) == [s];
    assert !EndsLine(s) && Body(s) == s;
    assert HitsOf(Lines(s), f) == [Hit(s, true)];
  }
}
