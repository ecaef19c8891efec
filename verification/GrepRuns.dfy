/** The text that one run over a batch of files emits, against the runs over the single files.

    A file is given by its lines, each with the verdict of the matcher; all lines but the last end with a line
    feed. */
module GrepRuns {
  import opened GrepEmit
  import opened GrepLines

  datatype Hit = Hit(line: string, matched: bool)

  // ------------------------------------------------------------------ emitting the lines of a file

  /** The object after line i of a file whose first line has number `base`. */
  function EmitLine(cfg: Config, e: Emit, hits: seq<Hit>, base: nat, i: nat): (r: Emit)
    requires e.Valid() && i < |hits|
    ensures r.Valid() && r.fileNames == e.fileNames
  {
    if hits[i].matched then Accumulate(cfg, e, base + i, hits[i].line) else e
  }

  /** The object after the first k lines. */
  function EmitLines(cfg: Config, e: Emit, hits: seq<Hit>, base: nat, k: nat): (r: Emit)
    requires e.Valid() && k <= |hits|
    ensures r.Valid() && r.fileNames == e.fileNames
  {
    if k == 0 then e else EmitLine(cfg, EmitLines(cfg, e, hits, base, k - 1), hits, base, k - 1)
  }

  /** The last matched line among the first k, or line 0 if there is none. */
  function LastHit(hits: seq<Hit>, k: nat): (r: nat)
    requires k <= |hits|
  {
    if k == 0 then 0 else if hits[k - 1].matched then k - 1 else LastHit(hits, k - 1)
  }

  /** Context groups are separated before line k when the line before it was left out; only the first file lines come
      from gets no separator before its second line. */
  function Separator(cfg: Config, hits: seq<Hit>, k: nat, later: bool): (r: string)
    requires k <= |hits|
  {
    if cfg.contextGroups && k > 0 && !hits[k - 1].matched && (later || k > 1) then "--\n" else ""
  }

  /** What line i of a file looks like, if it is matched. */
  function Shown(cfg: Config, name: string, hits: seq<Hit>, i: nat, later: bool): (r: string)
    requires i < |hits|
  {
    if hits[i].matched then Separator(cfg, hits, i, later) + (Label(cfg, name) + NumberText(cfg, i) + hits[i].line)
    else ""
  }

  /** The text of the matches among the first k lines, numbered from the start of the file. */
  function Piece(cfg: Config, name: string, hits: seq<Hit>, k: nat, later: bool): (r: string)
    requires k <= |hits|
  {
    if k == 0 then "" else Piece(cfg, name, hits, k - 1, later) + Shown(cfg, name, hits, k - 1, later)
  }

  function Matched(hits: seq<Hit>, k: nat): (r: nat)
    requires k <= |hits|
  {
    if k == 0 then 0 else Matched(hits, k - 1) + if hits[k - 1].matched then 1 else 0
  }

  /** Whether the text ends with something like a line terminator after the first k lines. */
  predicate TermAfter(hits: seq<Hit>, k: nat, signedChar: bool)
    requires k <= |hits|
  {
    if k == 0 then true
    else if hits[k - 1].matched then EndsLikeTerminator(hits[k - 1].line, signedChar)
    else TermAfter(hits, k - 1, signedChar)
  }

  /** The object is ready for, or in the middle of, file j, whose first line has number `base`. */
  ghost predicate AtFile(cfg: Config, e: Emit, j: nat, base: nat) {
    && e.Valid() && e.currentFile <= j < |e.fileNames|
    && e.prefix == Label(cfg, e.fileNames[e.currentFile])
    && (forall i :: e.currentFile < i <= j ==> e.startLines[i] <= base)
    && (if j == 0 then base == 0 else e.startLines[j] == base)
    && (j + 1 < |e.fileNames| ==> e.startLines[j + 1] == NO_LINE)
  }

  lemma {:induction false} CatchUpIs(startLines: seq<nat>, cur: nat, j: nat, lineNum: nat)
    requires cur <= j < |startLines| && (forall i :: cur < i <= j ==> startLines[i] <= lineNum)
    requires j + 1 < |startLines| ==> startLines[j + 1] > lineNum
    ensures CatchUp(startLines, cur, lineNum) == j
    decreases j - cur
  {
    if cur < j { CatchUpIs(startLines, cur + 1, j, lineNum); }
  }

  lemma Assoc(a: string, b: string, c: string)
    ensures (a + b) + c == a + (b + c) && a + "" == a
  {
  }

  lemma JoinTexts(out: string, sep: string, tag: string, number: string, line: string)
    ensures out + sep + tag + number + line == out + (sep + (tag + number + line))
  {
  }

  lemma RelativeLine(startLines: seq<nat>, j: nat, base: nat, i: nat)
    requires j < |startLines| && (j == 0 || i < NO_LINE) && if j == 0 then base == 0 else startLines[j] == base
    ensures (if j > 0 then (base + i - startLines[j]) % SIZE_MODULUS else base + i) == i
  {
  }

  lemma {:induction false} AccumulateAt(cfg: Config, e: Emit, lineNum: nat, line: string, cur: nat, prefix: string,
                                        rel: nat, sep: string)
    requires e.Valid() && cur == CatchUp(e.startLines, e.currentFile, lineNum)
    requires prefix == if cur > e.currentFile then Label(cfg, e.fileNames[cur]) else e.prefix
    requires rel == if cur > 0 then (lineNum - e.startLines[cur]) % SIZE_MODULUS else lineNum
    requires sep == if cfg.contextGroups && lineNum > e.lineNum + 1 && rel > 0 then "--\n" else ""
    ensures Accumulate(cfg, e, lineNum, line)
         == Emit(e.fileNames, e.startLines, cur, e.lineCount + 1, lineNum, EndsLikeTerminator(line, cfg.signedChar),
                 prefix, e.out + (sep + (prefix + NumberText(cfg, rel) + line)))
  {
    JoinTexts(e.out, sep, prefix, NumberText(cfg, rel), line);
  }

  /** Line i of file j is written with the label of file j and the number i + 1. */
  lemma {:induction false} AccumulateIs(cfg: Config, e: Emit, j: nat, base: nat, i: nat, line: string, sep: string)
    requires AtFile(cfg, e, j, base) && (|e.fileNames| == 1 || base + i < NO_LINE)
    requires sep == if cfg.contextGroups && base + i > e.lineNum + 1 && i > 0 then "--\n" else ""
    ensures Accumulate(cfg, e, base + i, line)
         == Emit(e.fileNames, e.startLines, j, e.lineCount + 1, base + i, EndsLikeTerminator(line, cfg.signedChar),
                 Label(cfg, e.fileNames[j]),
                 e.out + (sep + (Label(cfg, e.fileNames[j]) + NumberText(cfg, i) + line)))
  {
    CatchUpIs(e.startLines, e.currentFile, j, base + i);
    RelativeLine(e.startLines, j, base, i);
    AccumulateAt(cfg, e, base + i, line, j, Label(cfg, e.fileNames[j]), i, sep);
  }

  /** The last line shown lies before the file, if there is any line before it. */
  predicate LineBefore(lineNum: nat, base: nat) {
    if base == 0 then lineNum == 0 else lineNum < base
  }

  /** The last line shown, after k lines of a file. */
  function LineAfter(lineNum: nat, base: nat, hits: seq<Hit>, k: nat): (r: nat)
    requires k <= |hits|
  {
    if Matched(hits, k) == 0 then lineNum else base + LastHit(hits, k)
  }

  lemma {:induction false} NothingHit(hits: seq<Hit>, k: nat)
    requires k <= |hits|
    ensures Matched(hits, k) == 0 ==> LastHit(hits, k) == 0
    ensures Matched(hits, k) > 0 ==> LastHit(hits, k) < k
  {
    if k > 0 { NothingHit(hits, k - 1); }
  }

  /** The separator depends on what was shown of the file, and on whether lines come before it. */
  lemma {:induction false} SeparatorIs(cfg: Config, lineNum: nat, base: nat, hits: seq<Hit>, k: nat)
    requires k <= |hits| && LineBefore(lineNum, base)
    ensures Separator(cfg, hits, k, base > 0)
         == if cfg.contextGroups && base + k > LineAfter(lineNum, base, hits, k) + 1 && k > 0 then "--\n" else ""
  {
    if k > 0 { NothingHit(hits, k - 1); }
  }

  ghost predicate EmitState(cfg: Config, e: Emit, r: Emit, j: nat, base: nat, hits: seq<Hit>, k: nat)
    requires k <= |hits| && j < |e.fileNames|
  {
    && r.Valid() && r.startLines == e.startLines && r.fileNames == e.fileNames
    && e.currentFile <= r.currentFile <= j && r.prefix == Label(cfg, r.fileNames[r.currentFile])
    && r.out == e.out + Piece(cfg, e.fileNames[j], hits, k, base > 0)
    && r.terminated == TermAfter(hits, k, cfg.signedChar)
    && r.lineCount == e.lineCount + Matched(hits, k) && r.lineNum == LineAfter(e.lineNum, base, hits, k)
  }

  lemma StillAtFile(cfg: Config, e: Emit, r: Emit, j: nat, base: nat)
    requires AtFile(cfg, e, j, base) && r.Valid() && r.startLines == e.startLines && r.fileNames == e.fileNames
    requires e.currentFile <= r.currentFile <= j && r.prefix == Label(cfg, r.fileNames[r.currentFile])
    ensures AtFile(cfg, r, j, base)
  {
  }

  lemma {:induction false} EmitMatched(cfg: Config, e: Emit, prev: Emit, next: Emit, j: nat, base: nat, hits: seq<Hit>,
                                       k: nat)
    requires k < |hits| && (|e.fileNames| == 1 || base + k < NO_LINE)
    requires AtFile(cfg, e, j, base) && LineBefore(e.lineNum, base)
    requires EmitState(cfg, e, prev, j, base, hits, k) && hits[k].matched
    requires next == Accumulate(cfg, prev, base + k, hits[k].line)
    ensures EmitState(cfg, e, next, j, base, hits, k + 1)
  {
    Assoc(e.out, Piece(cfg, e.fileNames[j], hits, k, base > 0), Shown(cfg, e.fileNames[j], hits, k, base > 0));
    StillAtFile(cfg, e, prev, j, base);
    SeparatorIs(cfg, e.lineNum, base, hits, k);
    AccumulateIs(cfg, prev, j, base, k, hits[k].line, Separator(cfg, hits, k, base > 0));
  }

  lemma {:induction false} EmitSkipped(cfg: Config, e: Emit, prev: Emit, j: nat, base: nat, hits: seq<Hit>, k: nat)
    requires k < |hits| && j < |e.fileNames| && EmitState(cfg, e, prev, j, base, hits, k) && !hits[k].matched
    ensures EmitState(cfg, e, prev, j, base, hits, k + 1)
  {
    Assoc(Piece(cfg, e.fileNames[j], hits, k, base > 0), "", "");
  }

  lemma {:induction false} EmitStep(cfg: Config, e: Emit, prev: Emit, next: Emit, j: nat, base: nat, hits: seq<Hit>,
                                    k: nat)
    requires k < |hits| && (|e.fileNames| == 1 || base + |hits| <= NO_LINE)
    requires AtFile(cfg, e, j, base) && LineBefore(e.lineNum, base)
    requires EmitState(cfg, e, prev, j, base, hits, k) && next == EmitLine(cfg, prev, hits, base, k)
    ensures EmitState(cfg, e, next, j, base, hits, k + 1)
  {
    if hits[k].matched {
      EmitMatched(cfg, e, prev, next, j, base, hits, k);
    } else {
      EmitSkipped(cfg, e, prev, j, base, hits, k);
    }
  }

  lemma {:induction false} EmitNone(cfg: Config, e: Emit, j: nat, base: nat, hits: seq<Hit>)
    requires AtFile(cfg, e, j, base) && e.terminated
    ensures EmitState(cfg, e, e, j, base, hits, 0)
  {
    Assoc(e.out, "", "");
  }

  lemma {:induction false} EmitLinesAre(cfg: Config, e: Emit, r: Emit, j: nat, base: nat, hits: seq<Hit>, k: nat)
    requires AtFile(cfg, e, j, base) && LineBefore(e.lineNum, base) && e.terminated
    requires k <= |hits| && (|e.fileNames| == 1 || base + |hits| <= NO_LINE)
    requires r == EmitLines(cfg, e, hits, base, k)
    ensures EmitState(cfg, e, r, j, base, hits, k)
    decreases k
  {
    if k > 0 {
      var prev := EmitLines(cfg, e, hits, base, k - 1);
      EmitLinesAre(cfg, e, prev, j, base, hits, k - 1);
      EmitStep(cfg, e, prev, r, j, base, hits, k - 1);
    } else {
      EmitNone(cfg, e, j, base, hits);
    }
  }

  // ------------------------------------------------------------------ a run over one file

  datatype Doc = Doc(name: string, hits: seq<Hit>)

  function Single(cfg: Config, doc: Doc): (r: Emit) {
    Finalize(EmitLines(cfg, Start(cfg, [doc.name]), doc.hits, 0, |doc.hits|))
  }

  function FullPiece(cfg: Config, doc: Doc, later: bool): (r: string) {
    Piece(cfg, doc.name, doc.hits, |doc.hits|, later)
  }

  lemma StartAtFile(cfg: Config, name: string)
    ensures AtFile(cfg, Start(cfg, [name]), 0, 0) && LineBefore(Start(cfg, [name]).lineNum, 0)
  {
  }

  lemma {:induction false} SingleIs(cfg: Config, doc: Doc)
    ensures Single(cfg, doc).out
         == FullPiece(cfg, doc, false) + if TermAfter(doc.hits, |doc.hits|, cfg.signedChar) then "" else "\n"
    ensures Single(cfg, doc).lineCount == Matched(doc.hits, |doc.hits|)
  {
    var start := Start(cfg, [doc.name]);
    var e := EmitLines(cfg, start, doc.hits, 0, |doc.hits|);
    StartAtFile(cfg, doc.name);
    EmitLinesAre(cfg, start, e, 0, 0, doc.hits, |doc.hits|);
    NothingBefore(FullPiece(cfg, doc, false), e.out);
    Assoc(e.out, "", "");
  }

  lemma NothingBefore(piece: string, out: string)
    requires out == "" + piece
    ensures out == piece
  {
  }

  // ------------------------------------------------------------------ the last line in a batch

  /** In the batch buffer the last line has been given a line feed. */
  function FixHits(hits: seq<Hit>): (r: seq<Hit>)
    ensures |r| == |hits|
  {
    seq(|hits|, i requires 0 <= i < |hits| =>
      if i == |hits| - 1 && !EndsLine(hits[i].line) then Hit(hits[i].line + "\n", hits[i].matched) else hits[i])
  }

  function FixDoc(doc: Doc): (r: Doc) {
    Doc(doc.name, FixHits(doc.hits))
  }

  /** Only the last line may lack its line feed. */
  ghost predicate WellCut(hits: seq<Hit>) {
    forall i :: 0 <= i < |hits| - 1 ==> EndsLine(hits[i].line)
  }

  ghost predicate AllEnd(hits: seq<Hit>) {
    forall i :: 0 <= i < |hits| ==> EndsLine(hits[i].line)
  }

  lemma FixedEnd(hits: seq<Hit>)
    requires WellCut(hits)
    ensures AllEnd(FixHits(hits))
  {
  }

  /** The last line is matched, has no line feed, and ends with bytes that look like a line terminator. */
  predicate HiddenEnd(hits: seq<Hit>, signedChar: bool) {
    hits != []
    && (var last := hits[|hits| - 1]; last.matched && !EndsLine(last.line) && EndsLikeTerminator(last.line, signedChar))
  }

  /** The last line is matched and ends in VT, FF or CR. */
  predicate MatchedControlEnd(hits: seq<Hit>) {
    && hits != [] && hits[|hits| - 1].matched
    && (var line := hits[|hits| - 1].line; line != "" && 0x0B <= line[|line| - 1] as int <= 0x0D)
  }

  /** That is all where plain char is signed. */
  lemma {:induction false} SignedHiddenEnd(hits: seq<Hit>)
    ensures HiddenEnd(hits, true) <==> MatchedControlEnd(hits)
  {
    if hits != [] { SignedTerminators(hits[|hits| - 1].line); }
  }

  lemma {:induction false} TermAfterLines(hits: seq<Hit>, k: nat, signedChar: bool)
    requires k <= |hits| && forall i :: 0 <= i < k ==> EndsLine(hits[i].line)
    ensures TermAfter(hits, k, signedChar)
  {
    if k > 0 { TermAfterLines(hits, k - 1, signedChar); }
  }

  lemma {:induction false} PieceSame(cfg: Config, name: string, a: seq<Hit>, b: seq<Hit>, k: nat, later: bool)
    requires k <= |a| && k <= |b| && forall i :: 0 <= i < k ==> a[i] == b[i]
    ensures Piece(cfg, name, a, k, later) == Piece(cfg, name, b, k, later)
  {
    if k > 0 {
      PieceSame(cfg, name, a, b, k - 1, later);
      assert Shown(cfg, name, a, k - 1, later) == Shown(cfg, name, b, k - 1, later);
    }
  }

  lemma {:induction false} ShownFixed(before: string, sep: string, head: string, line: string)
    ensures before + (sep + (head + (line + "\n"))) == before + (sep + (head + line)) + "\n"
  {
    assert head + (line + "\n") == (head + line) + "\n";
    assert sep + ((head + line) + "\n") == (sep + (head + line)) + "\n";
  }

  lemma {:induction false} UnterminatedPiece(cfg: Config, name: string, hits: seq<Hit>, fixed: seq<Hit>, n: nat,
                                             later: bool)
    requires |hits| == |fixed| == n + 1 && forall i :: 0 <= i < n ==> fixed[i] == hits[i] && EndsLine(hits[i].line)
    requires fixed[n] == Hit(hits[n].line + "\n", hits[n].matched)
    ensures Piece(cfg, name, fixed, n + 1, later)
         == Piece(cfg, name, hits, n + 1, later) + if hits[n].matched then "\n" else ""
    ensures TermAfter(hits, n + 1, cfg.signedChar)
         == (!hits[n].matched || EndsLikeTerminator(hits[n].line, cfg.signedChar))
  {
    PieceSame(cfg, name, hits, fixed, n, later);
    TermAfterLines(hits, n, cfg.signedChar);
    var before := Piece(cfg, name, hits, n, later);
    if hits[n].matched {
      ShownFixed(before, Separator(cfg, hits, n, later), Label(cfg, name) + NumberText(cfg, n), hits[n].line);
    } else {
      Assoc(before, "", "");
    }
  }

  lemma EndedSame(hits: seq<Hit>)
    requires hits == [] || EndsLine(hits[|hits| - 1].line)
    ensures FixHits(hits) == hits
  {
  }

  lemma EndCases(fixed: string, alone: string, matched: bool, like: bool)
    requires fixed == alone + if matched then "\n" else ""
    ensures fixed == alone + (if !matched || like then "" else "\n") + (if matched && like then "\n" else "")
  {
  }

  /** What the batch emits for a file, against what the run over the file alone emits. */
  lemma {:induction false} PieceAgainstAlone(cfg: Config, doc: Doc, hidden: bool, later: bool)
    requires WellCut(doc.hits) && hidden == HiddenEnd(doc.hits, cfg.signedChar)
    ensures FullPiece(cfg, FixDoc(doc), later)
         == FullPiece(cfg, doc, later) + (if TermAfter(doc.hits, |doc.hits|, cfg.signedChar) then "" else "\n")
            + (if hidden then "\n" else "")
  {
    var hits := doc.hits;
    if hits == [] || EndsLine(hits[|hits| - 1].line) {
      EndedSame(hits);
      TermAfterLines(hits, |hits|, cfg.signedChar);
      Assoc(FullPiece(cfg, doc, later), "", "");
    } else {
      var last := hits[|hits| - 1];
      UnterminatedPiece(cfg, doc.name, hits, FixHits(hits), |hits| - 1, later);
      EndCases(FullPiece(cfg, FixDoc(doc), later), FullPiece(cfg, doc, later), last.matched,
               EndsLikeTerminator(last.line, cfg.signedChar));
    }
  }

  /** The second line is the first that is matched. */
  predicate SecondFirst(hits: seq<Hit>) {
    |hits| > 1 && !hits[0].matched && hits[1].matched
  }

  lemma {:induction false} LaterSecond(cfg: Config, name: string, hits: seq<Hit>)
    requires cfg.contextGroups && SecondFirst(hits)
    ensures Piece(cfg, name, hits, 2, true) == "--\n" + Piece(cfg, name, hits, 2, false)
  {
    var rest := Label(cfg, name) + NumberText(cfg, 1) + hits[1].line;
    assert Piece(cfg, name, hits, 1, true) == "" && Piece(cfg, name, hits, 1, false) == "";
    assert Shown(cfg, name, hits, 1, true) == "--\n" + rest && Shown(cfg, name, hits, 1, false) == "" + rest;
    NothingBefore(rest, "" + rest);
  }

  /** Coming later in a batch makes a difference only before the second line of a file. */
  lemma {:induction false} LaterPiece(cfg: Config, name: string, hits: seq<Hit>, k: nat, sep: string)
    requires k <= |hits| && sep == if cfg.contextGroups && k > 1 && SecondFirst(hits) then "--\n" else ""
    ensures Piece(cfg, name, hits, k, true) == sep + Piece(cfg, name, hits, k, false)
  {
    if k == 2 && sep != "" {
      LaterSecond(cfg, name, hits);
    } else if k > 0 {
      LaterPiece(cfg, name, hits, k - 1, if k > 2 then sep else "");
      LaterShown(cfg, name, hits, k - 1);
      Assoc(sep, Piece(cfg, name, hits, k - 1, false), Shown(cfg, name, hits, k - 1, false));
    }
  }

  lemma LaterShown(cfg: Config, name: string, hits: seq<Hit>, i: nat)
    requires i < |hits| && (i == 1 && cfg.contextGroups ==> !SecondFirst(hits))
    ensures Shown(cfg, name, hits, i, true) == Shown(cfg, name, hits, i, false)
  {
  }

  lemma Combine(sep: string, piece: string, alone: string, ending: string, hidden: string)
    requires piece == (sep + alone) + ending + hidden
    ensures piece == sep + ((alone + ending) + hidden)
  {
  }

  lemma {:induction false} PieceAgainstSingle(cfg: Config, doc: Doc, later: bool, sep: string, hidden: string)
    requires WellCut(doc.hits) && hidden == if HiddenEnd(doc.hits, cfg.signedChar) then "\n" else ""
    requires sep == if cfg.contextGroups && later && SecondFirst(doc.hits) then "--\n" else ""
    ensures FullPiece(cfg, FixDoc(doc), later) == sep + (Single(cfg, doc).out + hidden)
  {
    var alone := FullPiece(cfg, doc, false);
    var ending := if TermAfter(doc.hits, |doc.hits|, cfg.signedChar) then "" else "\n";
    SingleIs(cfg, doc);
    PieceAgainstAlone(cfg, doc, HiddenEnd(doc.hits, cfg.signedChar), later);
    if later { LaterPiece(cfg, doc.name, doc.hits, |doc.hits|, sep); } else { NothingBefore(alone, sep + alone); }
    Combine(sep, FullPiece(cfg, FixDoc(doc), later), alone, ending, hidden);
  }

  lemma {:induction false} FixedCount(hits: seq<Hit>, k: nat)
    requires k <= |hits|
    ensures Matched(FixHits(hits), k) == Matched(hits, k)
  {
    if k > 0 { FixedCount(hits, k - 1); }
  }

  // ------------------------------------------------------------------ a run over a batch

  /** The number of the first line of file j in the batch buffer. */
  function Base(docs: seq<Doc>, j: nat): (r: nat)
    requires j <= |docs|
  {
    if j == 0 then 0 else Base(docs, j - 1) + |docs[j - 1].hits|
  }

  lemma {:induction false} BaseMonotone(docs: seq<Doc>, i: nat, j: nat)
    requires i <= j <= |docs|
    ensures Base(docs, i) <= Base(docs, j)
  {
    if i < j { BaseMonotone(docs, i, j - 1); }
  }

  function Names(docs: seq<Doc>): (r: seq<string>)
    ensures |r| == |docs|
  {
    seq(|docs|, i requires 0 <= i < |docs| => docs[i].name)
  }

  /** Scanning file j, then recording where the next one starts. */
  function BatchFile(cfg: Config, e: Emit, docs: seq<Doc>, j: nat): (r: Emit)
    requires e.Valid() && j < |docs| == |e.fileNames|
    ensures r.Valid() && r.fileNames == e.fileNames
  {
    var scanned := EmitLines(cfg, e, docs[j].hits, Base(docs, j), |docs[j].hits|);
    if j + 1 < |docs| then SetBatchLine(scanned, j, Base(docs, j + 1)) else scanned
  }

  function BatchAfter(cfg: Config, docs: seq<Doc>, j: nat): (r: Emit)
    requires docs != [] && j <= |docs|
    ensures r.Valid() && r.fileNames == Names(docs)
  {
    if j == 0 then Start(cfg, Names(docs)) else BatchFile(cfg, BatchAfter(cfg, docs, j - 1), docs, j - 1)
  }

  function Batch(cfg: Config, docs: seq<Doc>): (r: Emit)
    requires docs != []
  {
    Finalize(BatchAfter(cfg, docs, |docs|))
  }

  /** The texts of the first j files as the batch emits them. */
  function BatchText(cfg: Config, docs: seq<Doc>, j: nat): (r: string)
    requires j <= |docs|
  {
    if j == 0 then "" else BatchText(cfg, docs, j - 1) + FullPiece(cfg, docs[j - 1], Base(docs, j - 1) > 0)
  }

  function BatchMatched(docs: seq<Doc>, j: nat): (r: nat)
    requires j <= |docs|
  {
    if j == 0 then 0 else BatchMatched(docs, j - 1) + Matched(docs[j - 1].hits, |docs[j - 1].hits|)
  }

  /** The start lines recorded when file j is about to be scanned. */
  ghost predicate Recorded(startLines: seq<nat>, docs: seq<Doc>, j: nat) {
    && |startLines| == |docs|
    && (forall i :: 0 < i <= j && i < |docs| ==> startLines[i] == Base(docs, i))
    && (forall i :: j < i < |docs| ==> startLines[i] == NO_LINE)
  }

  ghost predicate BatchState(cfg: Config, e: Emit, docs: seq<Doc>, j: nat)
    requires j <= |docs|
  {
    && e.Valid() && e.fileNames == Names(docs) && Recorded(e.startLines, docs, j)
    && e.terminated && e.currentFile <= j && e.prefix == Label(cfg, e.fileNames[e.currentFile])
    && e.out == BatchText(cfg, docs, j) && e.lineCount == BatchMatched(docs, j)
    && LineBefore(e.lineNum, Base(docs, j))
  }

  lemma {:induction false} StateAtFile(cfg: Config, e: Emit, docs: seq<Doc>, j: nat)
    requires j < |docs| && BatchState(cfg, e, docs, j)
    ensures AtFile(cfg, e, j, Base(docs, j))
  {
    forall i | e.currentFile < i <= j
      ensures e.startLines[i] <= Base(docs, j)
    {
      BaseMonotone(docs, i, j);
    }
  }

  /** The whole batch fits the line counter, and all its lines end with a line feed. */
  ghost predicate BatchOk(cfg: Config, docs: seq<Doc>) {
    && docs != [] && Base(docs, |docs|) <= NO_LINE
    && forall i :: 0 <= i < |docs| ==> AllEnd(docs[i].hits)
  }

  lemma RecordedNext(startLines: seq<nat>, docs: seq<Doc>, j: nat)
    requires Recorded(startLines, docs, j) && j < |docs|
    ensures Recorded(if j + 1 < |docs| then startLines[j + 1 := Base(docs, j + 1)] else startLines, docs, j + 1)
  {
  }

  /** After the lines of file j: recording the start of the next file completes the step. */
  lemma {:induction false} AfterScan(cfg: Config, prev: Emit, scanned: Emit, docs: seq<Doc>, j: nat, hits: seq<Hit>)
    requires j < |docs| && hits == docs[j].hits && BatchState(cfg, prev, docs, j)
    requires EmitState(cfg, prev, scanned, j, Base(docs, j), hits, |hits|) && scanned.terminated
    ensures BatchState(cfg,
                       if j + 1 < |docs| then SetBatchLine(scanned, j, Base(docs, j + 1)) else scanned, docs, j + 1)
  {
    RecordedNext(prev.startLines, docs, j);
    NothingHit(hits, |hits|);
    assert prev.fileNames[j] == docs[j].name;
    BatchTextNext(cfg, docs, j, prev.out, scanned.out);
    Assoc(scanned.out, "", "");
  }

  lemma BatchTextNext(cfg: Config, docs: seq<Doc>, j: nat, before: string, text: string)
    requires j < |docs| && before == BatchText(cfg, docs, j)
    requires text == before + Piece(cfg, docs[j].name, docs[j].hits, |docs[j].hits|, Base(docs, j) > 0)
    ensures text == BatchText(cfg, docs, j + 1)
  {
  }

  lemma {:induction false} LastLineFits(docs: seq<Doc>, j: nat)
    requires j < |docs|
    ensures Base(docs, j) + |docs[j].hits| <= Base(docs, |docs|)
  {
    BaseMonotone(docs, j + 1, |docs|);
  }

  lemma {:induction false} ScannedState(cfg: Config, prev: Emit, scanned: Emit, docs: seq<Doc>, j: nat, hits: seq<Hit>,
                                        base: nat)
    requires BatchOk(cfg, docs) && j < |docs| && hits == docs[j].hits && base == Base(docs, j)
    requires BatchState(cfg, prev, docs, j) && scanned == EmitLines(cfg, prev, hits, base, |hits|)
    ensures EmitState(cfg, prev, scanned, j, base, hits, |hits|)
  {
    StateAtFile(cfg, prev, docs, j);
    LastLineFits(docs, j);
    EmitLinesAre(cfg, prev, scanned, j, base, hits, |hits|);
  }

  lemma {:induction false} BatchStep(cfg: Config, prev: Emit, next: Emit, docs: seq<Doc>, j: nat)
    requires BatchOk(cfg, docs) && j < |docs| && BatchState(cfg, prev, docs, j) && next == BatchFile(cfg, prev, docs, j)
    ensures BatchState(cfg, next, docs, j + 1)
  {
    var hits := docs[j].hits;
    var scanned := EmitLines(cfg, prev, hits, Base(docs, j), |hits|);
    ScannedState(cfg, prev, scanned, docs, j, hits, Base(docs, j));
    TermAfterLines(hits, |hits|, cfg.signedChar);
    AfterScan(cfg, prev, scanned, docs, j, hits);
  }

  lemma StartState(cfg: Config, docs: seq<Doc>)
    requires docs != []
    ensures BatchState(cfg, Start(cfg, Names(docs)), docs, 0)
  {
  }

  lemma {:induction false} BatchStateAfter(cfg: Config, docs: seq<Doc>, j: nat, e: Emit)
    requires BatchOk(cfg, docs) && j <= |docs| && e == BatchAfter(cfg, docs, j)
    ensures BatchState(cfg, e, docs, j)
    decreases j
  {
    if j == 0 {
      StartState(cfg, docs);
    } else {
      var prev := BatchAfter(cfg, docs, j - 1);
      BatchStateAfter(cfg, docs, j - 1, prev);
      assert e == BatchFile(cfg, prev, docs, j - 1);
      BatchStep(cfg, prev, e, docs, j - 1);
    }
  }

  // ------------------------------------------------------------------ the batch against the single files

  function FixDocs(docs: seq<Doc>): (r: seq<Doc>)
    ensures |r| == |docs|
  {
    seq(|docs|, i requires 0 <= i < |docs| => FixDoc(docs[i]))
  }

  /** The single runs, one after the other. */
  function SingleTexts(cfg: Config, docs: seq<Doc>, j: nat): (r: string)
    requires j <= |docs|
  {
    if j == 0 then "" else SingleTexts(cfg, docs, j - 1) + Single(cfg, docs[j - 1]).out
  }

  function SingleMatched(cfg: Config, docs: seq<Doc>, j: nat): (r: nat)
    requires j <= |docs|
  {
    if j == 0 then 0 else SingleMatched(cfg, docs, j - 1) + Single(cfg, docs[j - 1]).lineCount
  }

  ghost predicate NoHiddenEnd(cfg: Config, docs: seq<Doc>, j: nat)
    requires j <= |docs|
  {
    forall i :: 0 <= i < j ==> !HiddenEnd(docs[i].hits, cfg.signedChar)
  }

  /** With context groups, a file that lines come before, and of which the second line is the first shown. */
  predicate ExtraSeparator(cfg: Config, docs: seq<Doc>, i: nat)
    requires i < |docs|
  {
    cfg.contextGroups && Base(docs, i) > 0 && SecondFirst(docs[i].hits)
  }

  ghost predicate NoExtraSeparator(cfg: Config, docs: seq<Doc>, j: nat)
    requires j <= |docs|
  {
    forall i :: 0 <= i < j ==> !ExtraSeparator(cfg, docs, i)
  }

  ghost predicate FilesOk(cfg: Config, docs: seq<Doc>) {
    && docs != [] && Base(docs, |docs|) <= NO_LINE
    && forall i :: 0 <= i < |docs| ==> WellCut(docs[i].hits)
  }

  lemma {:induction false} FixDocsBase(docs: seq<Doc>, j: nat)
    requires j <= |docs|
    ensures Base(FixDocs(docs), j) == Base(docs, j)
  {
    if j > 0 { FixDocsBase(docs, j - 1); }
  }

  lemma {:induction false} FixDocsOk(cfg: Config, docs: seq<Doc>)
    requires FilesOk(cfg, docs)
    ensures BatchOk(cfg, FixDocs(docs))
  {
    FixDocsBase(docs, |docs|);
    forall i | 0 <= i < |docs|
      ensures AllEnd(FixDocs(docs)[i].hits)
    {
      FixedEnd(docs[i].hits);
    }
  }

  /** The batch text is never shorter, and equal exactly when nothing makes a difference. */
  ghost predicate Compared(batch: string, singles: string, same: bool) {
    |batch| >= |singles| && (if same then batch == singles else |batch| > |singles|)
  }

  lemma LongerText(batch: string, singles: string, piece: string, single: string, sep: string, hidden: string,
                   same: bool)
    requires piece == sep + (single + hidden) && Compared(batch, singles, same)
    ensures Compared(batch + piece, singles + single, same && sep == "" && hidden == "")
  {
    if sep == "" && hidden == "" {
      NothingBefore(single + hidden, piece);
      Assoc(single, "", "");
    }
  }

  ghost predicate NoDifference(cfg: Config, docs: seq<Doc>, j: nat)
    requires j <= |docs|
  {
    NoHiddenEnd(cfg, docs, j) && NoExtraSeparator(cfg, docs, j)
  }

  lemma NoDifferenceStep(cfg: Config, docs: seq<Doc>, j: nat)
    requires j < |docs|
    ensures NoDifference(cfg, docs, j + 1)
         == (NoDifference(cfg, docs, j) && !ExtraSeparator(cfg, docs, j) && !HiddenEnd(docs[j].hits, cfg.signedChar))
  {
  }

  lemma {:induction false} TextsStep(cfg: Config, docs: seq<Doc>, j: nat, batch: string, singles: string,
                                     batch': string, singles': string)
    requires FilesOk(cfg, docs) && j < |docs| && Compared(batch, singles, NoDifference(cfg, docs, j))
    requires batch' == batch + FullPiece(cfg, FixDoc(docs[j]), Base(docs, j) > 0)
    requires singles' == singles + Single(cfg, docs[j]).out
    ensures Compared(batch', singles', NoDifference(cfg, docs, j + 1))
  {
    NoDifferenceStep(cfg, docs, j);
    var sep := if ExtraSeparator(cfg, docs, j) then "--\n" else "";
    var hidden := if HiddenEnd(docs[j].hits, cfg.signedChar) then "\n" else "";
    PieceAgainstSingle(cfg, docs[j], Base(docs, j) > 0, sep, hidden);
    LongerText(batch, singles, FullPiece(cfg, FixDoc(docs[j]), Base(docs, j) > 0), Single(cfg, docs[j]).out, sep,
               hidden, NoDifference(cfg, docs, j));
  }

  lemma SingleTextsStep(cfg: Config, docs: seq<Doc>, j: nat)
    requires j < |docs|
    ensures SingleTexts(cfg, docs, j + 1) == SingleTexts(cfg, docs, j) + Single(cfg, docs[j]).out
  {
  }

  lemma {:induction false} BatchTextStep(cfg: Config, docs: seq<Doc>, j: nat)
    requires j < |docs|
    ensures BatchText(cfg, FixDocs(docs), j + 1)
         == BatchText(cfg, FixDocs(docs), j) + FullPiece(cfg, FixDoc(docs[j]), Base(docs, j) > 0)
  {
    FixDocsBase(docs, j);
  }

  lemma {:induction false} TextsCompared(cfg: Config, docs: seq<Doc>, j: nat, batch: string, singles: string)
    requires FilesOk(cfg, docs) && j <= |docs|
    requires batch == BatchText(cfg, FixDocs(docs), j) && singles == SingleTexts(cfg, docs, j)
    ensures Compared(batch, singles, NoDifference(cfg, docs, j))
    decreases j
  {
    if j > 0 {
      var batch', singles' := BatchText(cfg, FixDocs(docs), j - 1), SingleTexts(cfg, docs, j - 1);
      TextsCompared(cfg, docs, j - 1, batch', singles');
      BatchTextStep(cfg, docs, j - 1);
      SingleTextsStep(cfg, docs, j - 1);
      TextsStep(cfg, docs, j - 1, batch', singles', batch, singles);
    }
  }

  lemma {:induction false} CountsCompared(cfg: Config, docs: seq<Doc>, fixed: seq<Doc>, j: nat)
    requires j <= |docs| == |fixed| && forall i :: 0 <= i < |docs| ==> fixed[i] == FixDoc(docs[i])
    ensures BatchMatched(fixed, j) == SingleMatched(cfg, docs, j)
  {
    if j > 0 {
      CountsCompared(cfg, docs, fixed, j - 1);
      FixedCount(docs[j - 1].hits, |docs[j - 1].hits|);
      SingleIs(cfg, docs[j - 1]);
    }
  }

  lemma {:induction false} BatchOutIs(cfg: Config, docs: seq<Doc>)
    requires FilesOk(cfg, docs)
    ensures Batch(cfg, FixDocs(docs)).out == BatchText(cfg, FixDocs(docs), |docs|)
    ensures Batch(cfg, FixDocs(docs)).lineCount == BatchMatched(FixDocs(docs), |docs|)
  {
    FixDocsOk(cfg, docs);
    var e := BatchAfter(cfg, FixDocs(docs), |docs|);
    BatchStateAfter(cfg, FixDocs(docs), |docs|, e);
    Assoc(e.out, "", "");
  }

  lemma {:induction false} BatchCompared(cfg: Config, docs: seq<Doc>)
    requires FilesOk(cfg, docs)
    ensures Compared(Batch(cfg, FixDocs(docs)).out, SingleTexts(cfg, docs, |docs|), NoDifference(cfg, docs, |docs|))
    ensures Batch(cfg, FixDocs(docs)).lineCount == SingleMatched(cfg, docs, |docs|)
  {
    FixDocsOk(cfg, docs);
    BatchStateAfter(cfg, FixDocs(docs), |docs|, BatchAfter(cfg, FixDocs(docs), |docs|));
    TextsCompared(cfg, docs, |docs|, BatchText(cfg, FixDocs(docs), |docs|), SingleTexts(cfg, docs, |docs|));
    CountsCompared(cfg, docs, FixDocs(docs), |docs|);
  }

  /** One run over a batch emits what the runs over the single files emit, in order, with the same labels and
      line numbers, exactly when no file's last line is matched, lacks its line feed, and ends with bytes
      that look like a line terminator, and no file after the first lines is shown from its second line on, with
      context groups separated.  (The batch gives such a last line a line feed, and puts a separator before such a
      second line; the single run does not.)  The number of matches is the same in any case. */
  lemma {:induction false} BatchEqualsSingles(cfg: Config, docs: seq<Doc>)
    requires FilesOk(cfg, docs)
    ensures Batch(cfg, FixDocs(docs)).out == SingleTexts(cfg, docs, |docs|) <==>
      NoHiddenEnd(cfg, docs, |docs|) && NoExtraSeparator(cfg, docs, |docs|)
    ensures Batch(cfg, FixDocs(docs)).lineCount == SingleMatched(cfg, docs, |docs|)
  {
    BatchCompared(cfg, docs);
  }

  /** Where plain char is signed and no context is shown, they differ exactly when the last line of some file is matched
      and ends in VT, FF or CR. */
  lemma {:induction false} SignedBatchEqualsSingles(cfg: Config, docs: seq<Doc>)
    requires FilesOk(cfg, docs) && cfg.signedChar && !cfg.contextGroups
    ensures Batch(cfg, FixDocs(docs)).out != SingleTexts(cfg, docs, |docs|) <==>
      exists i :: 0 <= i < |docs| && MatchedControlEnd(docs[i].hits)
  {
    BatchEqualsSingles(cfg, docs);
    forall i | 0 <= i < |docs|
      ensures HiddenEnd(docs[i].hits, cfg.signedChar) <==> MatchedControlEnd(docs[i].hits)
    {
      SignedHiddenEnd(docs[i].hits);
    }
  }
}
