/** What the emitted text says, read against the contents of the files: before every matched line stand the name of its
    file and, in decimal, one more than the number of line breaks before it. */
module GrepReport {
  import opened Decimals
  import opened GrepEmit
  import opened GrepLines
  import opened GrepRuns
  import opened GrepScan

  // ------------------------------------------------------------------ lines and their places

  lemma {:induction false} LineEndIs(s: string, i: nat)
    requires i < |s|
    ensures forall p :: i <= p < LineEnd(s, i) - 1 ==> s[p] != '\n'
    decreases |s| - i
  {
    if s[i] != '\n' && i + 1 < |s| { LineEndIs(s, i + 1); }
  }

  lemma {:induction false} FirstPlace(s: string, i: nat, lines: seq<string>)
    requires i < |s| && lines == LinesFrom(s, i)
    ensures LineStart(lines, 0) == 0 && i + LineStart(lines, 1) == LineEnd(s, i) && lines[0] == s[i..LineEnd(s, i)]
    ensures |lines| > 1 ==> LineEnd(s, i) < |s|
  {
    assert LineStart(lines, 1) == LineStart(lines, 0) + |lines[0]|;
  }

  /** Line k of the rest stands at line start a and reaches to b. */
  ghost predicate Placed(s: string, lines: seq<string>, k: nat, a: nat, b: nat)
    requires k < |lines|
  {
    a < |s| && b == LineEnd(s, a) && lines[k] == s[a..b] && (k < |lines| - 1 ==> b < |s|)
  }

  /** Line k stands where the lengths of the lines before it say, counted from i. */
  ghost predicate PlacedFrom(s: string, i: nat, lines: seq<string>, k: nat)
    requires k < |lines|
  {
    Placed(s, lines, k, i + LineStart(lines, k), i + LineStart(lines, k + 1))
  }

  lemma {:induction false} PlacedOn(s: string, i: nat, j: nat, line: string, rest: seq<string>, lines: seq<string>,
                                    k: nat)
    requires lines == [line] + rest && i + |line| == j && k < |rest| && PlacedFrom(s, j, rest, k)
    ensures PlacedFrom(s, i, lines, k + 1)
  {
    StartAfter(line, rest, k);
    StartAfter(line, rest, k + 1);
    assert lines[k + 1] == rest[k];
  }

  lemma LinesUnfold(s: string, i: nat)
    requires i < |s|
    ensures LinesFrom(s, i) == [s[i..LineEnd(s, i)]] + LinesFrom(s, LineEnd(s, i))
  {
  }

  lemma {:induction false} LineFromPlace(s: string, i: nat, lines: seq<string>, k: nat)
    requires i <= |s| && lines == LinesFrom(s, i) && k < |lines|
    ensures PlacedFrom(s, i, lines, k)
    decreases |s| - i
  {
    if k == 0 {
      FirstPlace(s, i, lines);
    } else {
      var j := LineEnd(s, i);
      LinesUnfold(s, i);
      LineFromPlace(s, j, LinesFrom(s, j), k - 1);
      PlacedOn(s, i, j, s[i..j], LinesFrom(s, j), lines, k - 1);
    }
  }

  /** Line k of a text: it stands at its place, has no line feed but at its end, and has one there unless it is the
      last. */
  lemma {:induction false} LinePlace(s: string, k: nat)
    requires k < |Lines(s)|
    ensures var a, b := LineStart(Lines(s), k), LineStart(Lines(s), k + 1);
      && a < b <= |s| && Lines(s)[k] == s[a..b] && (forall p :: a <= p < b - 1 ==> s[p] != '\n')
      && (if k < |Lines(s)| - 1 then b < |s| && s[b - 1] == '\n' else b == |s|)
  {
    var lines := Lines(s);
    var a := LineStart(lines, k);
    LineFromPlace(s, 0, lines, k);
    LineEndIs(s, a);
    StartOfRest(s, 0, lines);
  }

  /** What the matcher is given of a line is the line up to its line feed. */
  lemma {:induction false} BodyIs(s: string, k: nat)
    requires k < |Lines(s)|
    ensures var body := Body(Lines(s)[k]);
      (forall p :: 0 <= p < |body| ==> body[p] != '\n') && (Lines(s)[k] == body || Lines(s)[k] == body + "\n")
  {
    LinePlace(s, k);
    var line := Lines(s)[k];
    if EndsLine(line) { assert line == line[..|line| - 1] + "\n"; }
  }

  lemma {:induction false} NoBreaks(s: string, a: nat, b: nat)
    requires a <= b <= |s| && forall p :: a <= p < b ==> s[p] != '\n'
    ensures CountBreaks(s, b) == CountBreaks(s, a)
  {
    if a < b { NoBreaks(s, a, b - 1); }
  }

  /** Before line k stand k line breaks. */
  lemma {:induction false} BreaksBefore(s: string, k: nat)
    requires k < |Lines(s)|
    ensures LineStart(Lines(s), k) <= |s| && CountBreaks(s, LineStart(Lines(s), k)) == k
  {
    if k > 0 {
      var a, b := LineStart(Lines(s), k - 1), LineStart(Lines(s), k);
      BreaksBefore(s, k - 1);
      LinePlace(s, k - 1);
      NoBreaks(s, a, b - 1);
    }
  }

  // ------------------------------------------------------------------ the report of a file

  /** With context shown, a separator stands before line k when the line before it is not shown.  There is none before
      the second line of a file, unless the file comes later in a batch. */
  predicate Apart(cfg: Config, lines: seq<string>, f: string -> bool, k: nat, later: bool)
    requires k <= |lines|
  {
    cfg.contextGroups && k > 0 && !f(Body(lines[k - 1])) && (later || k > 1)
  }

  /** The k-th line, matched, behind what was written before: a separator if one is wanted, the name, one more than the
      line breaks before the line, and the line. */
  ghost predicate ReportsLine(cfg: Config, name: string, s: string, f: string -> bool, k: nat, later: bool,
                              before: string, digits: string, out: string)
    requires 0 < k <= |Lines(s)| && LineStart(Lines(s), k - 1) <= |s|
  {
    var colon := if cfg.initialTab then "\t:" else ":";
    && Numeral(digits, CountBreaks(s, LineStart(Lines(s), k - 1)) + 1)
    && out == before + ((if Apart(cfg, Lines(s), f, k - 1, later) then "--\n" else "")
                        + ((if cfg.showFileNames then name + colon else "")
                           + (if cfg.showLineNumbers then digits + colon else "") + Lines(s)[k - 1]))
  }

  /** The text reports the matched lines among the first k of the file, and nothing else. */
  ghost predicate Reports(cfg: Config, name: string, s: string, f: string -> bool, k: nat, later: bool, out: string)
    requires k <= |Lines(s)|
  {
    if k == 0 then out == ""
    else if !f(Body(Lines(s)[k - 1])) then Reports(cfg, name, s, f, k - 1, later, out)
    else
      LineStart(Lines(s), k - 1) <= |s| &&
      exists before: string, digits: string ::
        ReportsLine(cfg, name, s, f, k, later, before, digits, out) && Reports(cfg, name, s, f, k - 1, later, before)
  }

  lemma LabelIs(cfg: Config, name: string, i: nat, digits: string)
    requires digits == DecimalText(i + 1)
    ensures var colon := if cfg.initialTab then "\t:" else ":";
      Label(cfg, name) + NumberText(cfg, i)
        == (if cfg.showFileNames then name + colon else "") + (if cfg.showLineNumbers then digits + colon else "")
  {
  }

  lemma {:induction false} LineReported(cfg: Config, name: string, s: string, f: string -> bool, k: nat, later: bool,
                                        before: string, sep: string, out: string)
    requires 0 < k <= |Lines(s)| && f(Body(Lines(s)[k - 1])) && Reports(cfg, name, s, f, k - 1, later, before)
    requires sep == if Apart(cfg, Lines(s), f, k - 1, later) then "--\n" else ""
    requires out == before + (sep + (Label(cfg, name) + NumberText(cfg, k - 1) + Lines(s)[k - 1]))
    ensures Reports(cfg, name, s, f, k, later, out)
  {
    BreaksBefore(s, k - 1);
    TextIsNumeral(k);
    var digits := DecimalText(k);
    LabelIs(cfg, name, k - 1, digits);
    assert ReportsLine(cfg, name, s, f, k, later, before, digits, out);
  }

  lemma NothingReported(cfg: Config, name: string, s: string, f: string -> bool, later: bool)
    ensures Reports(cfg, name, s, f, 0, later, "")
  {
  }

  lemma {:induction false} NextReported(cfg: Config, name: string, s: string, f: string -> bool, k: nat, later: bool,
                                        hits: seq<Hit>, before: string, out: string)
    requires 0 < k <= |Lines(s)| && hits == HitsOf(Lines(s), f) && Reports(cfg, name, s, f, k - 1, later, before)
    requires out == before + Shown(cfg, name, hits, k - 1, later)
    ensures Reports(cfg, name, s, f, k, later, out)
  {
    if hits[k - 1].matched {
      LineReported(cfg, name, s, f, k, later, before, Separator(cfg, hits, k - 1, later), out);
    } else {
      Assoc(before, "", "");
    }
  }

  /** The text emitted for a file reports its matched lines. */
  lemma {:induction false} PieceReports(cfg: Config, name: string, s: string, f: string -> bool, k: nat, later: bool,
                                        hits: seq<Hit>, out: string)
    requires k <= |Lines(s)| && hits == HitsOf(Lines(s), f) && out == Piece(cfg, name, hits, k, later)
    ensures Reports(cfg, name, s, f, k, later, out)
    decreases k
  {
    if k == 0 {
      NothingReported(cfg, name, s, f, later);
    } else {
      var before := Piece(cfg, name, hits, k - 1, later);
      PieceReports(cfg, name, s, f, k - 1, later, hits, before);
      NextReported(cfg, name, s, f, k, later, hits, before, out);
    }
  }

  // ------------------------------------------------------------------ a file searched by itself

  /** The last matched line among the first k, or line 0 if there is none. */
  function LastMatch(lines: seq<string>, f: string -> bool, k: nat): nat
    requires k <= |lines|
  {
    if k == 0 then 0 else if f(Body(lines[k - 1])) then k - 1 else LastMatch(lines, f, k - 1)
  }

  function MatchingLines(lines: seq<string>, f: string -> bool, k: nat): nat
    requires k <= |lines|
  {
    if k == 0 then 0 else MatchingLines(lines, f, k - 1) + if f(Body(lines[k - 1])) then 1 else 0
  }

  /** No line has been reported, or the last one that has ends with what counts as a line terminator. */
  predicate Closed(cfg: Config, lines: seq<string>, f: string -> bool, k: nat)
    requires k <= |lines|
  {
    MatchingLines(lines, f, k) == 0 ||
    (LastMatch(lines, f, k) < |lines| && EndsLikeTerminator(lines[LastMatch(lines, f, k)], cfg.signedChar))
  }

  lemma {:induction false} ClosedIs(cfg: Config, lines: seq<string>, f: string -> bool, k: nat, hits: seq<Hit>)
    requires k <= |lines| && hits == HitsOf(lines, f)
    ensures TermAfter(hits, k, cfg.signedChar) == Closed(cfg, lines, f, k)
    ensures Matched(hits, k) == MatchingLines(lines, f, k)
    decreases k
  {
    if k > 0 { ClosedIs(cfg, lines, f, k - 1, hits); }
  }

  /** What a file searched by itself yields: the report of its matched lines, with a line feed at the end if the last
      one does not end with what counts as a line terminator. */
  ghost predicate ReportsAlone(cfg: Config, name: string, s: string, f: string -> bool, out: string) {
    var lines := Lines(s);
    exists report: string ::
      && Reports(cfg, name, s, f, |lines|, false, report)
      && out == report + if Closed(cfg, lines, f, |lines|) then "" else "\n"
  }

  lemma {:induction false} SingleReports(cfg: Config, name: string, s: string, f: string -> bool)
    ensures var e := Single(cfg, Doc(name, HitsOf(Lines(s), f)));
      ReportsAlone(cfg, name, s, f, e.out) && e.lineCount == MatchingLines(Lines(s), f, |Lines(s)|)
  {
    var n, hits := |Lines(s)|, HitsOf(Lines(s), f);
    var report := FullPiece(cfg, Doc(name, hits), false);
    SingleIs(cfg, Doc(name, hits));
    ClosedIs(cfg, Lines(s), f, n, hits);
    PieceReports(cfg, name, s, f, n, false, hits, report);
  }

  // ------------------------------------------------------------------ the separator at the start

  /** Line i is the first that matches. */
  ghost predicate FirstMatched(lines: seq<string>, f: string -> bool, i: nat) {
    i < |lines| && f(Body(lines[i])) && forall l :: 0 <= l < i ==> !f(Body(lines[l]))
  }

  lemma {:induction false} NothingYet(cfg: Config, name: string, s: string, f: string -> bool, i: nat, k: nat,
                                      later: bool, out: string)
    requires FirstMatched(Lines(s), f, i) && k <= i && Reports(cfg, name, s, f, k, later, out)
    ensures out == ""
  {
    if k > 0 { NothingYet(cfg, name, s, f, i, k - 1, later, out); }
  }

  ghost predicate StartsWith(out: string, separated: bool) {
    if separated then |out| >= 3 && out[..3] == "--\n" else out != "" && out[0] != '-'
  }

  lemma StaysSo(before: string, tail: string, separated: bool)
    requires StartsWith(before, separated)
    ensures StartsWith(before + tail, separated)
  {
    if separated { assert (before + tail)[..3] == before[..3]; }
  }

  lemma {:induction false} TailStarts(sep: string, name: string, digits: string, rest: string, separated: bool)
    requires sep == (if separated then "--\n" else "") && name == "" && digits != "" && AllDigits(digits)
    ensures StartsWith(sep + (name + digits + rest), separated)
  {
    if !separated {
      assert sep + (name + digits + rest) == digits + rest;
      assert IsDigit(digits[0]);
    }
  }

  /** The first matched line. */
  lemma {:induction false} FirstStarts(cfg: Config, name: string, s: string, f: string -> bool, i: nat, later: bool,
                                       before: string, digits: string, out: string)
    requires !cfg.showFileNames && cfg.showLineNumbers && FirstMatched(Lines(s), f, i) && before == ""
    requires LineStart(Lines(s), i) <= |s| && ReportsLine(cfg, name, s, f, i + 1, later, before, digits, out)
    ensures StartsWith(out, Apart(cfg, Lines(s), f, i, later))
  {
    var sep := if Apart(cfg, Lines(s), f, i, later) then "--\n" else "";
    var colon := if cfg.initialTab then "\t:" else ":";
    var rest := colon + Lines(s)[i];
    assert "" + (digits + colon) + Lines(s)[i] == "" + digits + rest;
    assert out == sep + ("" + digits + rest);
    TailStarts(sep, "", digits, rest, Apart(cfg, Lines(s), f, i, later));
  }

  /** A further matched line. */
  lemma {:induction false} LaterStarts(cfg: Config, name: string, s: string, f: string -> bool, k: nat, later: bool,
                                       before: string, digits: string, out: string, separated: bool)
    requires 0 < k <= |Lines(s)| && LineStart(Lines(s), k - 1) <= |s| && StartsWith(before, separated)
    requires ReportsLine(cfg, name, s, f, k, later, before, digits, out)
    ensures StartsWith(out, separated)
  {
    var colon := if cfg.initialTab then "\t:" else ":";
    var tail := (if Apart(cfg, Lines(s), f, k - 1, later) then "--\n" else "")
                + ((if cfg.showFileNames then name + colon else "")
                   + (if cfg.showLineNumbers then digits + colon else "") + Lines(s)[k - 1]);
    StaysSo(before, tail, separated);
  }

  lemma {:induction false} FirstReported(cfg: Config, name: string, s: string, f: string -> bool, i: nat, k: nat,
                                         later: bool, out: string)
    requires !cfg.showFileNames && cfg.showLineNumbers && FirstMatched(Lines(s), f, i)
    requires i < k <= |Lines(s)| && Reports(cfg, name, s, f, k, later, out)
    ensures StartsWith(out, Apart(cfg, Lines(s), f, i, later))
  {
    if f(Body(Lines(s)[k - 1])) {
      var before: string, digits: string :|
        ReportsLine(cfg, name, s, f, k, later, before, digits, out) && Reports(cfg, name, s, f, k - 1, later, before);
      if k - 1 == i {
        NothingYet(cfg, name, s, f, i, i, later, before);
        FirstStarts(cfg, name, s, f, i, later, before, digits, out);
      } else {
        FirstReported(cfg, name, s, f, i, k - 1, later, before);
        LaterStarts(cfg, name, s, f, k, later, before, digits, out, Apart(cfg, Lines(s), f, i, later));
      }
    } else {
      FirstReported(cfg, name, s, f, i, k - 1, later, out);
    }
  }

  /** With context shown, the output of a file starts with a separator exactly when the first line shown is not one of
      the first two, although there is nothing before it to separate. */
  lemma {:induction false} SeparatorFirst(cfg: Config, name: string, s: string, f: string -> bool, i: nat)
    requires cfg.contextGroups && !cfg.showFileNames && cfg.showLineNumbers && FirstMatched(Lines(s), f, i)
    ensures var out := Single(cfg, Doc(name, HitsOf(Lines(s), f))).out;
      |out| >= 3 && out[..3] == "--\n" <==> i >= 2
  {
    var n := |Lines(s)|;
    SingleReports(cfg, name, s, f);
    var out := Single(cfg, Doc(name, HitsOf(Lines(s), f))).out;
    var report: string :|
      && Reports(cfg, name, s, f, n, false, report)
      && out == report + if Closed(cfg, Lines(s), f, n) then "" else "\n";
    FirstReported(cfg, name, s, f, i, n, false, report);
    StaysSo(report, if Closed(cfg, Lines(s), f, n) then "" else "\n", Apart(cfg, Lines(s), f, i, false));
    if |out| >= 3 && out[..3] == "--\n" { assert out[0] == out[..3][0]; }
  }
}
