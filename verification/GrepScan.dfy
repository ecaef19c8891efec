/** ScanBatchKernel: one pass over the batch buffer, stride by stride, reports the matched lines and the start line of
    every file.  Whatever the stride, the match writer ends up as if the files had been scanned one after the other.

    The bit streams of matches and line breaks are taken by what they mark: the lines of the buffer, each with its
    verdict. */
module GrepScan {
  import opened GrepEmit
  import opened GrepLines
  import opened GrepRuns

  function HitsOf(lines: seq<string>, f: string -> bool): (r: seq<Hit>)
    ensures |r| == |lines|
  {
    seq(|lines|, i requires 0 <= i < |lines| => Hit(lines[i], f(Body(lines[i]))))
  }

  // ------------------------------------------------------------------ the buffer

  /** The text of the first k files in the buffer. */
  function BufferText(texts: seq<string>, k: nat): (r: string)
    requires k <= |texts|
  {
    if k == 0 then "" else BufferText(texts, k - 1) + texts[k - 1]
  }

  ghost predicate Loaded(texts: seq<string>, k: nat, text: string, starts: seq<nat>)
    requires k <= |texts|
  {
    text == BufferText(texts, k) && |starts| == k && forall i :: 0 <= i < k ==> starts[i] == |BufferText(texts, i)|
  }

  lemma {:induction false} TextFrom(texts: seq<string>, j: nat, k: nat)
    requires j <= k <= |texts|
    ensures |BufferText(texts, j)| <= |BufferText(texts, k)|
    ensures BufferText(texts, k)[..|BufferText(texts, j)|] == BufferText(texts, j)
  {
    if j < k { TextFrom(texts, j, k - 1); }
  }

  /** The part of the buffer between two file starts is the file. */
  lemma {:induction false} FileSlice(texts: seq<string>, j: nat)
    requires j < |texts|
    ensures |BufferText(texts, j)| <= |BufferText(texts, j + 1)| <= |BufferText(texts, |texts|)|
    ensures BufferText(texts, |texts|)[|BufferText(texts, j)|..|BufferText(texts, j + 1)|] == texts[j]
  {
    var text, a, b := BufferText(texts, |texts|), BufferText(texts, j), BufferText(texts, j + 1);
    TextFrom(texts, j + 1, |texts|);
    assert b == a + texts[j];
    assert text[|a|..|b|] == text[..|b|][|a|..];
  }

  /** Every text but the last has as many line breaks as the document has lines. */
  ghost predicate SameCounts(texts: seq<string>, docs: seq<Doc>) {
    |texts| == |docs| && forall i :: 0 <= i < |texts| - 1 ==> CountBreaks(texts[i], |texts[i]|) == |docs[i].hits|
  }

  /** The line breaks before a file in the buffer are the lines of the files before it. */
  lemma {:induction false} BreaksAreBase(texts: seq<string>, docs: seq<Doc>, j: nat)
    requires SameCounts(texts, docs) && j < |texts|
    ensures CountBreaks(BufferText(texts, j), |BufferText(texts, j)|) == Base(docs, j)
  {
    if j > 0 {
      BreaksAreBase(texts, docs, j - 1);
      BreaksConcat(BufferText(texts, j - 1), texts[j - 1], |texts[j - 1]|);
    }
  }

  lemma {:induction false} BreaksInBuffer(texts: seq<string>, docs: seq<Doc>, j: nat)
    requires SameCounts(texts, docs) && j < |texts|
    ensures |BufferText(texts, j)| <= |BufferText(texts, |texts|)|
    ensures CountBreaks(BufferText(texts, |texts|), |BufferText(texts, j)|) == Base(docs, j)
  {
    var a, text := BufferText(texts, j), BufferText(texts, |texts|);
    TextFrom(texts, j, |texts|);
    assert text == a + text[|a|..];
    BreaksPrefix(a, text[|a|..], |a|);
    BreaksAreBase(texts, docs, j);
  }

  /** The documents of a batch are what its texts are cut into. */
  ghost predicate CutInto(texts: seq<string>, docs: seq<Doc>, f: string -> bool) {
    SameCounts(texts, docs) && forall i :: 0 <= i < |texts| ==> HitsOf(Lines(texts[i]), f) == docs[i].hits
  }

  // ------------------------------------------------------------------ the lines of the buffer

  /** The lines of the first k files, with their verdicts. */
  function AllHits(docs: seq<Doc>, k: nat): (r: seq<Hit>)
    requires k <= |docs|
    ensures |r| == Base(docs, k)
  {
    if k == 0 then [] else AllHits(docs, k - 1) + docs[k - 1].hits
  }

  lemma {:induction false} HitsConcat(a: seq<string>, b: seq<string>, f: string -> bool)
    ensures HitsOf(a + b, f) == HitsOf(a, f) + HitsOf(b, f)
  {
  }

  /** No file in the buffer is empty, and every file but perhaps the last ends a line. */
  ghost predicate Filled(texts: seq<string>) {
    forall i :: 0 <= i < |texts| ==> texts[i] != "" && (i < |texts| - 1 ==> EndsLine(texts[i]))
  }

  lemma {:induction false} BufferEnds(texts: seq<string>, k: nat)
    requires Filled(texts) && k < |texts|
    ensures BufferText(texts, k) == "" || EndsLine(BufferText(texts, k))
  {
  }

  /** The lines of the buffer are the lines of the files, one file after the other. */
  lemma {:induction false} LinesOfBuffer(texts: seq<string>, docs: seq<Doc>, f: string -> bool, k: nat)
    requires CutInto(texts, docs, f) && Filled(texts) && k <= |texts|
    ensures HitsOf(Lines(BufferText(texts, k)), f) == AllHits(docs, k)
  {
    if k > 0 {
      LinesOfBuffer(texts, docs, f, k - 1);
      BufferEnds(texts, k - 1);
      LinesConcat(BufferText(texts, k - 1), texts[k - 1]);
      HitsConcat(Lines(BufferText(texts, k - 1)), Lines(texts[k - 1]), f);
    }
  }

  lemma {:induction false} AllHitsAt(docs: seq<Doc>, k: nat, b: nat, i: nat)
    requires b < k <= |docs| && Base(docs, b) <= i < Base(docs, b + 1)
    ensures i < |AllHits(docs, k)| && AllHits(docs, k)[i] == docs[b].hits[i - Base(docs, b)]
  {
    BaseMonotone(docs, b + 1, k);
    if b < k - 1 {
      BaseMonotone(docs, b + 1, k - 1);
      AllHitsAt(docs, k - 1, b, i);
    }
  }

  /** Where line i starts. */
  function LineStart(lines: seq<string>, i: nat): (r: nat)
    requires i <= |lines|
  {
    if i == 0 then 0 else LineStart(lines, i - 1) + |lines[i - 1]|
  }

  lemma {:induction false} StartOfRest(s: string, i: nat, lines: seq<string>)
    requires i <= |s| && lines == LinesFrom(s, i)
    ensures LineStart(lines, |lines|) == |s| - i && forall l :: 0 <= l < |lines| ==> lines[l] != ""
    decreases |s| - i
  {
    if i < |s| {
      var rest := LinesFrom(s, LineEnd(s, i));
      StartOfRest(s, LineEnd(s, i), rest);
      StartAfter(lines[0], rest, |rest|);
    }
  }

  lemma {:induction false} StartAfter(line: string, rest: seq<string>, k: nat)
    requires k <= |rest|
    ensures LineStart([line] + rest, k + 1) == |line| + LineStart(rest, k)
  {
    if k > 0 { StartAfter(line, rest, k - 1); }
  }

  lemma {:induction false} StartPrefix(a: seq<string>, b: seq<string>, k: nat)
    requires k <= |a|
    ensures LineStart(a + b, k) == LineStart(a, k)
  {
    if k > 0 { StartPrefix(a, b, k - 1); }
  }

  lemma {:induction false} StartGrows(lines: seq<string>, i: nat, j: nat)
    requires i < j <= |lines| && forall l :: 0 <= l < |lines| ==> lines[l] != ""
    ensures LineStart(lines, i) < LineStart(lines, j)
  {
    if i < j - 1 { StartGrows(lines, i, j - 1); }
  }

  /** A batch ready to be scanned: what is in the buffer, and which lines are to be reported. */
  ghost predicate Ready(texts: seq<string>, docs: seq<Doc>, text: string, starts: seq<nat>, f: string -> bool) {
    && docs != [] && CutInto(texts, docs, f) && Filled(texts) && Loaded(texts, |texts|, text, starts)
  }

  /** File b starts with its first line, and nowhere else. */
  lemma {:induction false} FileStartsAt(texts: seq<string>, docs: seq<Doc>, text: string, starts: seq<nat>,
                                        f: string -> bool, b: nat)
    requires Ready(texts, docs, text, starts, f) && b <= |docs|
    ensures |Lines(text)| == Base(docs, |docs|) && Base(docs, b) <= |Lines(text)|
    ensures LineStart(Lines(text), Base(docs, b)) == |BufferText(texts, b)|
  {
    var a := BufferText(texts, b);
    var lines := Lines(a);
    TextFrom(texts, b, |texts|);
    assert text == a + text[|a|..];
    if b < |texts| {
      BufferEnds(texts, b);
      LinesConcat(a, text[|a|..]);
    } else {
      assert text == a && Lines(text[|a|..]) == [];
    }
    LinesOfBuffer(texts, docs, f, b);
    LinesOfBuffer(texts, docs, f, |texts|);
    assert |lines| == |HitsOf(lines, f)| && |Lines(text)| == |HitsOf(Lines(text), f)|;
    StartOfRest(a, 0, lines);
    StartPrefix(lines, Lines(text[|a|..]), |lines|);
  }

  /** A line starts at or after the start of file b exactly when it is not a line of an earlier file. */
  lemma {:induction false} PastStart(texts: seq<string>, docs: seq<Doc>, text: string, starts: seq<nat>,
                                     f: string -> bool, b: nat, i: nat)
    requires Ready(texts, docs, text, starts, f) && b <= |docs| && i <= |Lines(text)|
    ensures Base(docs, b) <= |Lines(text)| == Base(docs, |docs|)
    ensures LineStart(Lines(text), i) >= |BufferText(texts, b)| <==> i >= Base(docs, b)
  {
    var lines := Lines(text);
    FileStartsAt(texts, docs, text, starts, f, b);
    StartOfRest(text, 0, lines);
    if i < Base(docs, b) {
      StartGrows(lines, i, Base(docs, b));
    } else if i > Base(docs, b) {
      StartGrows(lines, Base(docs, b), i);
    }
  }

  // ------------------------------------------------------------------ what the match writer has been told

  /** The match writer when the scan is in file b and has seen the first i lines of the buffer. */
  function AfterLines(cfg: Config, docs: seq<Doc>, b: nat, i: nat): (r: Emit)
    requires b < |docs| && Base(docs, b) <= i
    ensures r.Valid() && r.fileNames == Names(docs)
  {
    var k := i - Base(docs, b);
    var hits := docs[b].hits;
    EmitLines(cfg, BatchAfter(cfg, docs, b), hits, Base(docs, b), if k < |hits| then k else |hits|)
  }

  ghost predicate NoMatch(hits: seq<Hit>, from: nat, to: nat)
    requires to <= |hits|
  {
    forall l :: from <= l < to ==> !hits[l].matched
  }

  lemma {:induction false} QuietLines(cfg: Config, e: Emit, hits: seq<Hit>, base: nat, k: nat)
    requires e.Valid() && k <= |hits| && NoMatch(hits, 0, k)
    ensures EmitLines(cfg, e, hits, base, k) == e
  {
    if k > 0 { QuietLines(cfg, e, hits, base, k - 1); }
  }

  /** Where the scan is: in file b, with i lines seen; lines of later files that have been seen do not match. */
  ghost predicate At(docs: seq<Doc>, b: nat, i: nat) {
    && b < |docs| && Base(docs, b) <= i <= Base(docs, |docs|)
    && NoMatch(AllHits(docs, |docs|), Base(docs, b + 1), i)
  }

  lemma {:induction false} LineUnmatched(cfg: Config, docs: seq<Doc>, b: nat, i: nat)
    requires At(docs, b, i) && i < Base(docs, |docs|) && !AllHits(docs, |docs|)[i].matched
    ensures At(docs, b, i + 1) && AfterLines(cfg, docs, b, i + 1) == AfterLines(cfg, docs, b, i)
  {
    if i < Base(docs, b + 1) { AllHitsAt(docs, |docs|, b, i); }
  }

  lemma {:induction false} MatchedNext(cfg: Config, e: Emit, hits: seq<Hit>, base: nat, k: nat)
    requires e.Valid() && k < |hits| && hits[k].matched
    ensures EmitLines(cfg, e, hits, base, k + 1)
         == Accumulate(cfg, EmitLines(cfg, e, hits, base, k), base + k, hits[k].line)
  {
  }

  lemma {:induction false} LineInFileAt(docs: seq<Doc>, b: nat, i: nat)
    requires At(docs, b, i) && i < Base(docs, b + 1) <= Base(docs, |docs|)
    ensures At(docs, b, i + 1)
  {
  }

  lemma {:induction false} AfterLinesIs(cfg: Config, docs: seq<Doc>, b: nat, i: nat, before: Emit, base: nat)
    requires b < |docs| && base == Base(docs, b) <= i <= base + |docs[b].hits| && before == BatchAfter(cfg, docs, b)
    ensures AfterLines(cfg, docs, b, i) == EmitLines(cfg, before, docs[b].hits, base, i - base)
  {
  }

  lemma {:induction false} LineMatched(cfg: Config, docs: seq<Doc>, b: nat, i: nat, e: Emit, hit: Hit, base: nat)
    requires b < |docs| && base == Base(docs, b) <= i < Base(docs, b + 1) <= Base(docs, |docs|)
    requires hit == AllHits(docs, |docs|)[i] && hit.matched
    requires e == AfterLines(cfg, docs, b, i)
    ensures AfterLines(cfg, docs, b, i + 1) == Accumulate(cfg, e, i, hit.line)
  {
    AllHitsAt(docs, |docs|, b, i);
    var before := BatchAfter(cfg, docs, b);
    AfterLinesIs(cfg, docs, b, i, before, base);
    AfterLinesIs(cfg, docs, b, i + 1, before, base);
    MatchedNext(cfg, before, docs[b].hits, base, i - base);
  }

  /** Passing to the next file once all lines of file b have been seen. */
  lemma {:induction false} NextFile(cfg: Config, docs: seq<Doc>, b: nat, i: nat)
    requires At(docs, b, i) && b + 1 < |docs| && Base(docs, b + 1) <= i
    ensures At(docs, b + 1, i)
    ensures AfterLines(cfg, docs, b + 1, i) == SetBatchLine(AfterLines(cfg, docs, b, i), b, Base(docs, b + 1))
  {
    var all, hits := AllHits(docs, |docs|), docs[b + 1].hits;
    var k := if i - Base(docs, b + 1) < |hits| then i - Base(docs, b + 1) else |hits|;
    forall l | 0 <= l < k
      ensures !hits[l].matched
    {
      AllHitsAt(docs, |docs|, b + 1, Base(docs, b + 1) + l);
    }
    QuietLines(cfg, BatchAfter(cfg, docs, b + 1), hits, Base(docs, b + 1), k);
    assert BatchAfter(cfg, docs, b + 1) == BatchFile(cfg, BatchAfter(cfg, docs, b), docs, b);
  }

  lemma {:induction false} AllSeen(cfg: Config, docs: seq<Doc>, b: nat)
    requires docs != [] && b == |docs| - 1
    ensures AfterLines(cfg, docs, b, Base(docs, |docs|)) == BatchAfter(cfg, docs, |docs|)
  {
  }

  // ------------------------------------------------------------------ the scan

  ghost predicate Scanned(em: EmitMatch, docs: seq<Doc>, b: nat, i: nat)
    reads em
  {
    At(docs, b, i) && em.Valid() && em.Value() == AfterLines(em.cfg, docs, b, i)
  }

  /** The line breaks before a file are the lines of the files before it. */
  ghost predicate StartLines(text: string, starts: seq<nat>, docs: seq<Doc>) {
    |starts| == |docs| &&
    forall b :: 0 <= b < |docs| ==> starts[b] < |text| && CountBreaks(text, starts[b]) == Base(docs, b)
  }

  /** Of the files that start at the position or before it, all earlier lines are among the first i. */
  ghost predicate SeenBefore(starts: seq<nat>, docs: seq<Doc>, position: nat, i: nat) {
    |starts| == |docs| && forall b :: 0 <= b < |docs| && starts[b] <= position ==> Base(docs, b) <= i
  }

  /** Tell the match writer that the lines of the next file follow. */
  method NextInBatch(em: EmitMatch, text: string, starts: seq<nat>, b: nat, ghost docs: seq<Doc>, ghost i: nat)
    requires Scanned(em, docs, b, i) && b + 1 < |starts| && Base(docs, b + 1) <= i
    requires StartLines(text, starts, docs)
    modifies em
    ensures Scanned(em, docs, b + 1, i)
  {
    NextFile(em.cfg, docs, b, i);
    em.SetBatchLineNumber(b, CountBreaks(text, starts[b + 1]));
  }

  /** Pass to the file that holds the position, or to the last one. */
  method PassFiles(em: EmitMatch, text: string, starts: seq<nat>, b0: nat, position: nat, ghost docs: seq<Doc>,
                   ghost i: nat) returns (b: nat)
    requires StartLines(text, starts, docs) && SeenBefore(starts, docs, position, i) && Scanned(em, docs, b0, i)
    modifies em
    ensures Scanned(em, docs, b, i) && (b + 1 < |starts| ==> position < starts[b + 1])
  {
    b := b0;
    while b + 1 < |starts| && position >= starts[b + 1]
      invariant Scanned(em, docs, b, i)
      decreases |starts| - b
    {
      NextInBatch(em, text, starts, b, docs, i);
      b := b + 1;
    }
  }

  /** What the scan finds in the buffer: the lines of all files with their verdicts, and where the files start. */
  ghost predicate Layout(text: string, lines: seq<string>, starts: seq<nat>, docs: seq<Doc>, f: string -> bool) {
    && docs != [] && StartLines(text, starts, docs)
    && |lines| == Base(docs, |docs|) && LineStart(lines, |lines|) == |text|
    && (forall i :: 0 <= i < |lines| ==> AllHits(docs, |docs|)[i] == Hit(lines[i], f(Body(lines[i]))))
    && forall b :: 0 <= b < |docs| ==> FileStart(lines, starts, docs, b)
  }

  /** File b starts with its first line; later lines start later, and earlier ones earlier. */
  ghost predicate FileStart(lines: seq<string>, starts: seq<nat>, docs: seq<Doc>, b: nat)
    requires b < |docs| == |starts|
  {
    && Base(docs, b) <= |lines| && LineStart(lines, Base(docs, b)) == starts[b]
    && forall i :: 0 <= i <= |lines| ==> (LineStart(lines, i) >= starts[b] <==> i >= Base(docs, b))
  }

  lemma {:induction false} BufferGrows(texts: seq<string>, b: nat, k: nat)
    requires Filled(texts) && b < k <= |texts|
    ensures |BufferText(texts, b)| < |BufferText(texts, k)|
  {
    assert texts[k - 1] != "";
    if b < k - 1 { BufferGrows(texts, b, k - 1); }
  }

  lemma {:induction false} StartsKnown(texts: seq<string>, docs: seq<Doc>, text: string, starts: seq<nat>,
                                       f: string -> bool)
    requires Ready(texts, docs, text, starts, f)
    ensures StartLines(text, starts, docs)
  {
    forall b | 0 <= b < |docs|
      ensures starts[b] < |text| && CountBreaks(text, starts[b]) == Base(docs, b)
    {
      BreaksInBuffer(texts, docs, b);
      BufferGrows(texts, b, |texts|);
    }
  }

  /** A batch ready to be scanned is laid out so. */
  lemma {:induction false} ReadyLayout(texts: seq<string>, docs: seq<Doc>, text: string, starts: seq<nat>,
                                       f: string -> bool)
    requires Ready(texts, docs, text, starts, f)
    ensures Layout(text, Lines(text), starts, docs, f)
  {
    var lines := Lines(text);
    StartsKnown(texts, docs, text, starts, f);
    LinesOfBuffer(texts, docs, f, |texts|);
    FileStartsAt(texts, docs, text, starts, f, |docs|);
    StartOfRest(text, 0, lines);
    forall i | 0 <= i < |lines|
      ensures AllHits(docs, |docs|)[i] == Hit(lines[i], f(Body(lines[i])))
    {
      assert HitsOf(lines, f)[i] == Hit(lines[i], f(Body(lines[i])));
    }
    forall b | 0 <= b < |docs|
      ensures FileStart(lines, starts, docs, b)
    {
      FileStartsAt(texts, docs, text, starts, f, b);
      forall i | 0 <= i <= |lines|
        ensures LineStart(lines, i) >= starts[b] <==> i >= Base(docs, b)
      {
        PastStart(texts, docs, text, starts, f, b, i);
      }
    }
  }

  lemma {:induction false} LineSeen(text: string, lines: seq<string>, starts: seq<nat>, docs: seq<Doc>,
                                    f: string -> bool, i: nat)
    requires Layout(text, lines, starts, docs, f) && i <= |lines|
    ensures SeenBefore(starts, docs, LineStart(lines, i), i)
  {
    forall b | 0 <= b < |docs| && starts[b] <= LineStart(lines, i)
      ensures Base(docs, b) <= i
    {
      assert FileStart(lines, starts, docs, b);
    }
  }

  /** When no file after b starts at or before a line, the line is not one of a later file. */
  lemma {:induction false} LineInFile(text: string, lines: seq<string>, starts: seq<nat>, docs: seq<Doc>,
                                      f: string -> bool, b: nat, i: nat)
    requires Layout(text, lines, starts, docs, f) && i < |lines| && b < |docs|
    requires b + 1 < |starts| ==> LineStart(lines, i) < starts[b + 1]
    ensures i < Base(docs, b + 1) <= Base(docs, |docs|)
  {
    BaseMonotone(docs, b + 1, |docs|);
    if b + 1 < |docs| { assert FileStart(lines, starts, docs, b + 1); }
  }

  /** One line: if it matches, pass to its file and report it. */
  method ScanLine(em: EmitMatch, text: string, starts: seq<nat>, b0: nat, f: string -> bool, lines: seq<string>, i: nat,
                  lineStart: nat, ghost docs: seq<Doc>) returns (b: nat, nextStart: nat)
    requires Layout(text, lines, starts, docs, f) && Scanned(em, docs, b0, i)
    requires i < |lines| && lineStart == LineStart(lines, i)
    modifies em
    ensures Scanned(em, docs, b, i + 1) && nextStart == LineStart(lines, i + 1)
  {
    b, nextStart := b0, lineStart + |lines[i]|;
    if f(Body(lines[i])) {
      LineSeen(text, lines, starts, docs, f, i);
      b := PassFiles(em, text, starts, b, lineStart, docs, i);
      LineInFile(text, lines, starts, docs, f, b, i);
      LineInFileAt(docs, b, i);
      LineMatched(em.cfg, docs, b, i, em.Value(), AllHits(docs, |docs|)[i], Base(docs, b));
      em.AccumulateMatch(i, lines[i]);
    } else {
      LineUnmatched(em.cfg, docs, b, i);
    }
  }

  /** The matches whose lines end within the stride, in order. */
  method ScanMatches(em: EmitMatch, text: string, starts: seq<nat>, b0: nat, f: string -> bool, lines: seq<string>,
                     i0: nat, lineStart0: nat, strideLimit: nat, ghost docs: seq<Doc>)
      returns (b: nat, i: nat, lineStart: nat)
    requires Layout(text, lines, starts, docs, f) && Scanned(em, docs, b0, i0)
    requires i0 <= |lines| && lineStart0 == LineStart(lines, i0)
    modifies em
    ensures Scanned(em, docs, b, i) && i <= |lines| && lineStart == LineStart(lines, i)
    ensures i < |lines| ==> lineStart + |lines[i]| > strideLimit
  {
    b, i, lineStart := b0, i0, lineStart0;
    while i < |lines| && lineStart + |lines[i]| <= strideLimit
      invariant i <= |lines| && lineStart == LineStart(lines, i)
      invariant Scanned(em, docs, b, i)
      decreases |lines| - i
    {
      b, lineStart := ScanLine(em, text, starts, b, f, lines, i, lineStart, docs);
      i := i + 1;
    }
  }

  /** The first i lines are those that end within the first `limit` positions. */
  ghost predicate SeenTo(lines: seq<string>, i: nat, limit: nat) {
    i <= |lines| && (i < |lines| ==> LineStart(lines, i + 1) > limit)
  }

  /** When a file starts within the stride, all lines before it have been seen. */
  lemma {:induction false} StrideSeen(text: string, lines: seq<string>, starts: seq<nat>, docs: seq<Doc>,
                                      f: string -> bool, i: nat, limit: nat)
    requires Layout(text, lines, starts, docs, f) && SeenTo(lines, i, limit) && limit > 0
    ensures SeenBefore(starts, docs, limit - 1, i)
  {
    forall b | 0 <= b < |docs| && starts[b] <= limit - 1
      ensures Base(docs, b) <= i
    {
      assert FileStart(lines, starts, docs, b);
    }
  }

  lemma {:induction false} StartMonotone(lines: seq<string>, i: nat, j: nat)
    requires i <= j <= |lines|
    ensures LineStart(lines, i) <= LineStart(lines, j)
  {
    if i < j { StartMonotone(lines, i, j - 1); }
  }

  /** At the end of the buffer the scan is in the last file and has seen all lines. */
  lemma {:induction false} BufferDone(text: string, lines: seq<string>, starts: seq<nat>, docs: seq<Doc>,
                                      f: string -> bool, b: nat, i: nat)
    requires Layout(text, lines, starts, docs, f) && At(docs, b, i) && SeenTo(lines, i, |text|)
    requires b + 1 < |starts| ==> |text| <= starts[b + 1]
    ensures b == |docs| - 1 && i == Base(docs, |docs|)
  {
    if i < |lines| { StartMonotone(lines, i + 1, |lines|); }
  }

  /** One stride: first the matches that end in it, then the files that do. */
  method ScanStride(em: EmitMatch, text: string, starts: seq<nat>, b0: nat, f: string -> bool, lines: seq<string>,
                    i0: nat, lineStart0: nat, strideLimit: nat, ghost docs: seq<Doc>)
      returns (b: nat, i: nat, lineStart: nat)
    requires Layout(text, lines, starts, docs, f) && Scanned(em, docs, b0, i0) && strideLimit > 0
    requires i0 <= |lines| && lineStart0 == LineStart(lines, i0)
    modifies em
    ensures Scanned(em, docs, b, i) && SeenTo(lines, i, strideLimit) && lineStart == LineStart(lines, i)
    ensures b + 1 < |starts| ==> strideLimit <= starts[b + 1]
  {
    b, i, lineStart := ScanMatches(em, text, starts, b0, f, lines, i0, lineStart0, strideLimit, docs);
    assert SeenTo(lines, i, strideLimit);
    StrideSeen(text, lines, starts, docs, f, i, strideLimit);
    b := PassFiles(em, text, starts, b, strideLimit - 1, docs, i);
  }

  /** ScanBatchKernel::generateMultiBlockLogic.  Whatever the stride, the match writer is left as if the files had been
      scanned one after the other. */
  method ScanBatch(em: EmitMatch, text: string, starts: seq<nat>, f: string -> bool, stride: nat,
                   ghost texts: seq<string>, ghost docs: seq<Doc>)
    requires Ready(texts, docs, text, starts, f) && stride > 0
    requires em.Valid() && em.Value() == Start(em.cfg, Names(docs))
    modifies em
    ensures em.Valid() && em.Value() == BatchAfter(em.cfg, docs, |docs|)
  {
    ReadyLayout(texts, docs, text, starts, f);
    ScanLines(em, text, starts, f, stride, Lines(text), docs);
  }

  method ScanLines(em: EmitMatch, text: string, starts: seq<nat>, f: string -> bool, stride: nat, lines: seq<string>,
                   ghost docs: seq<Doc>)
    requires Layout(text, lines, starts, docs, f) && stride > 0
    requires em.Valid() && em.Value() == Start(em.cfg, Names(docs))
    modifies em
    ensures em.Valid() && em.Value() == BatchAfter(em.cfg, docs, |docs|)
  {
    var stridePos: nat, b: nat, i: nat, lineStart: nat := 0, 0, 0, 0;
    while stridePos < |text|
      invariant stridePos <= |text| && i <= |lines| && lineStart == LineStart(lines, i)
      invariant stridePos > 0 ==> SeenTo(lines, i, stridePos) && (b + 1 < |starts| ==> stridePos <= starts[b + 1])
      invariant Scanned(em, docs, b, i)
    {
      var strideLimit := if stridePos + stride < |text| then stridePos + stride else |text|;
      b, i, lineStart := ScanStride(em, text, starts, b, f, lines, i, lineStart, strideLimit, docs);
      stridePos := strideLimit;
    }
    assert starts[0] < |text|;
    BufferDone(text, lines, starts, docs, f, b, i);
    AllSeen(em.cfg, docs, b);
  }
}
