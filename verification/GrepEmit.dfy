/** EmitMatch: writing the matched lines of one file, or of a batch of files scanned as one buffer, with the
    label and line number of the file each line came from. */
module GrepEmit {
  import Decimals

  const NO_LINE := 0xFFFF_FFFF_FFFF_FFFF
  const SIZE_MODULUS := 0x1_0000_0000_0000_0000

  /** The display options, and whether the platform's plain char is signed. */
  datatype Config = Config(showFileNames: bool, showLineNumbers: bool, contextGroups: bool, initialTab: bool,
                           signedChar: bool)

  /** The value of an EmitMatch object; `out` is the text written to its string stream. */
  datatype Emit = Emit(fileNames: seq<string>, startLines: seq<nat>, currentFile: nat, lineCount: nat, lineNum: nat,
                       terminated: bool, prefix: string, out: string)
  {
    ghost predicate Valid() {
      |startLines| == |fileNames| && currentFile < |fileNames|
    }
  }

  // ------------------------------------------------------------------ one matched line

  function Label(cfg: Config, name: string): string {
    if cfg.showFileNames then name + (if cfg.initialTab then "\t:" else ":") else ""
  }

  function NumberText(cfg: Config, line: nat): string {
    if cfg.showLineNumbers then Decimals.DecimalText(line + 1) + (if cfg.initialTab then "\t:" else ":") else ""
  }

  /** The first file after `cur` whose next file does not start at or before the line. */
  function CatchUp(startLines: seq<nat>, cur: nat, lineNum: nat): (r: nat)
    requires cur < |startLines|
    ensures cur <= r < |startLines|
    decreases |startLines| - cur
  {
    if cur + 1 < |startLines| && startLines[cur + 1] <= lineNum then CatchUp(startLines, cur + 1, lineNum) else cur
  }

  /** A char converted to unsigned int. */
  function AsUnsigned(c: char, signedChar: bool): int {
    if signedChar && c as int >= 128 then c as int - 256 + 0x1_0000_0000 else c as int
  }

  /** The test on the last bytes of an emitted line: LF, VT, FF or CR, or NEL, LS or PS in UTF-8. */
  predicate EndsLikeTerminator(line: string, signedChar: bool) {
    var n := |line|;
    if n == 0 then false
    else
      var last := AsUnsigned(line[n - 1], signedChar);
      if 0x0A <= last <= 0x0D then true
      else if last == 0x85 then n >= 2 && AsUnsigned(line[n - 2], signedChar) == 0xC2
      else n >= 3 && AsUnsigned(line[n - 3], signedChar) == 0xE2 && AsUnsigned(line[n - 2], signedChar) == 0x80
           && (last == 0xA8 || last == 0xA9)
  }

  /** Where plain char is signed, bytes from 0x80 become huge numbers, and only LF, VT, FF and CR pass the test. */
  lemma {:induction false} SignedTerminators(line: string)
    ensures EndsLikeTerminator(line, true) <==> line != "" && 0x0A <= line[|line| - 1] as int <= 0x0D
  {
  }

  /** NEL, LS and PS, in UTF-8, pass it exactly where plain char is unsigned. */
  lemma {:induction false} WideTerminators(start: string, signedChar: bool)
    ensures EndsLikeTerminator(start + [0xC2 as char, 0x85 as char], signedChar) == !signedChar
    ensures EndsLikeTerminator(start + [0xE2 as char, 0x80 as char, 0xA8 as char], signedChar) == !signedChar
    ensures EndsLikeTerminator(start + [0xE2 as char, 0x80 as char, 0xA9 as char], signedChar) == !signedChar
  {
  }

  predicate EndsWith(line: string, end: string) {
    |line| >= |end| && line[|line| - |end|..] == end
  }

  lemma EndsWithTwo(line: string, a: char, b: char)
    ensures EndsWith(line, [a, b]) <==> |line| >= 2 && line[|line| - 2] == a && line[|line| - 1] == b
  {
    if |line| >= 2 { assert line[|line| - 2..] == [line[|line| - 2], line[|line| - 1]]; }
  }

  lemma EndsWithThree(line: string, a: char, b: char, c: char)
    ensures EndsWith(line, [a, b, c])
       <==> |line| >= 3 && line[|line| - 3] == a && line[|line| - 2] == b && line[|line| - 1] == c
  {
    var n := |line|;
    if n >= 3 { assert line[n - 3..] == [line[n - 3], line[n - 2], line[n - 1]]; }
  }

  lemma UnsignedEnd(line: string)
    requires line != ""
    ensures var n := |line|;
            var last := line[n - 1];
      EndsLikeTerminator(line, false) <==>
        || 0x0A <= last as int <= 0x0D
        || (last == 0x85 as char && n >= 2 && line[n - 2] == 0xC2 as char)
        || ((last == 0xA8 as char || last == 0xA9 as char)
            && n >= 3 && line[n - 3] == 0xE2 as char && line[n - 2] == 0x80 as char)
  {
  }

  /** Where plain char is unsigned, these and LF, VT, FF and CR are all that passes it. */
  lemma {:induction false} UnsignedTerminators(line: string)
    ensures EndsLikeTerminator(line, false) <==>
      || (line != "" && 0x0A <= line[|line| - 1] as int <= 0x0D)
      || EndsWith(line, [0xC2 as char, 0x85 as char])
      || EndsWith(line, [0xE2 as char, 0x80 as char, 0xA8 as char])
      || EndsWith(line, [0xE2 as char, 0x80 as char, 0xA9 as char])
  {
    if line != "" { UnsignedEnd(line); }
    EndsWithTwo(line, 0xC2 as char, 0x85 as char);
    EndsWithThree(line, 0xE2 as char, 0x80 as char, 0xA8 as char);
    EndsWithThree(line, 0xE2 as char, 0x80 as char, 0xA9 as char);
  }

  function Accumulate(cfg: Config, e: Emit, lineNum: nat, line: string): (r: Emit)
    requires e.Valid()
    ensures r.Valid()
  {
    var cur := CatchUp(e.startLines, e.currentFile, lineNum);
    var prefix := if cur > e.currentFile then Label(cfg, e.fileNames[cur]) else e.prefix;
    var rel := if cur > 0 then (lineNum - e.startLines[cur]) % SIZE_MODULUS else lineNum;
    var group := if cfg.contextGroups && lineNum > e.lineNum + 1 && rel > 0 then "--\n" else "";
    e.(currentFile := cur, prefix := prefix, lineCount := e.lineCount + 1, lineNum := lineNum,
       terminated := EndsLikeTerminator(line, cfg.signedChar),
       out := e.out + group + prefix + NumberText(cfg, rel) + line)
  }

  function SetBatchLine(e: Emit, fileNo: nat, batchLine: nat): (r: Emit)
    requires e.Valid() && fileNo + 1 < |e.fileNames|
    ensures r.Valid()
  {
    e.(startLines := e.startLines[fileNo + 1 := batchLine], terminated := true,
       out := e.out + if e.terminated then "" else "\n")
  }

  function Finalize(e: Emit): (r: Emit)
    requires e.Valid()
    ensures r.Valid()
  {
    e.(out := e.out + if e.terminated then "" else "\n")
  }

  // ------------------------------------------------------------------ the object

  class EmitMatch {
    const cfg: Config
    var mCurrentFile: nat
    var mLineCount: nat
    var mLineNum: nat
    var mTerminated: bool
    var mFileNames: seq<string>
    var mFileStartLineNumbers: seq<nat>
    var mLinePrefix: string
    var mResultStr: string

    ghost function Value(): Emit
      reads this
    {
      Emit(mFileNames, mFileStartLineNumbers, mCurrentFile, mLineCount, mLineNum, mTerminated, mLinePrefix, mResultStr)
    }

    ghost predicate Valid()
      reads this
    {
      Value().Valid()
    }

    /** An object prepared for some files, none of whose start lines is known yet. */
    constructor (cfg: Config, fileNames: seq<string>)
      requires fileNames != []
      ensures this.cfg == cfg && Value() == Start(cfg, fileNames) && Valid()
    {
      this.cfg := cfg;
      mCurrentFile, mLineCount, mLineNum, mTerminated := 0, 0, 0, true;
      mFileNames := fileNames;
      mFileStartLineNumbers := seq(|fileNames|, _ => NO_LINE);
      mLinePrefix := Label(cfg, fileNames[0]);
      mResultStr := "";
    }

    method SetFileLabel(fileLabel: string)
      modifies this`mLinePrefix
      ensures mLinePrefix == Label(cfg, fileLabel)
    {
      if cfg.showFileNames {
        mLinePrefix := fileLabel + if cfg.initialTab then "\t:" else ":";
      } else {
        mLinePrefix := "";
      }
    }

    method SetBatchLineNumber(fileNo: nat, batchLine: nat)
      requires Valid() && fileNo + 1 < |mFileNames|
      modifies this
      ensures Valid() && Value() == SetBatchLine(old(Value()), fileNo, batchLine)
    {
      mFileStartLineNumbers := mFileStartLineNumbers[fileNo + 1 := batchLine];
      if !mTerminated { mResultStr := mResultStr + "\n"; }
      mTerminated := true;
    }

    /** The loop at the head of accumulate_match: move on to the file that holds the line. */
    method MoveToFile(lineNum: nat)
      requires Valid()
      modifies this`mCurrentFile, this`mLinePrefix
      ensures Valid() && mCurrentFile == CatchUp(mFileStartLineNumbers, old(mCurrentFile), lineNum)
      ensures mLinePrefix == if mCurrentFile > old(mCurrentFile) then Label(cfg, mFileNames[mCurrentFile])
                             else old(mLinePrefix)
    {
      ghost var cur := CatchUp(mFileStartLineNumbers, mCurrentFile, lineNum);
      while mCurrentFile + 1 < |mFileNames| && mFileStartLineNumbers[mCurrentFile + 1] <= lineNum
        invariant Valid() && old(mCurrentFile) <= mCurrentFile
        invariant cur == CatchUp(mFileStartLineNumbers, mCurrentFile, lineNum)
        invariant mLinePrefix == if mCurrentFile > old(mCurrentFile) then Label(cfg, mFileNames[mCurrentFile])
                                 else old(mLinePrefix)
        decreases |mFileNames| - mCurrentFile
      {
        mCurrentFile := mCurrentFile + 1;
        SetFileLabel(mFileNames[mCurrentFile]);
      }
    }

    method AccumulateMatch(lineNum: nat, line: string)
      requires Valid()
      modifies this
      ensures Valid() && Value() == Accumulate(cfg, old(Value()), lineNum, line)
    {
      MoveToFile(lineNum);
      var relLineNum :=
        if mCurrentFile > 0 then (lineNum - mFileStartLineNumbers[mCurrentFile]) % SIZE_MODULUS else lineNum;
      var group := if cfg.contextGroups && lineNum > mLineNum + 1 && relLineNum > 0 then "--\n" else "";
      mResultStr := mResultStr + group + mLinePrefix + NumberText(cfg, relLineNum) + line;
      mLineCount := mLineCount + 1;
      mLineNum := lineNum;
      mTerminated := EndsLikeTerminator(line, cfg.signedChar);
    }

    method FinalizeMatch()
      requires Valid()
      modifies this
      ensures Valid() && Value() == Finalize(old(Value()))
    {
      if !mTerminated { mResultStr := mResultStr + "\n"; }
    }
  }

  function Start(cfg: Config, fileNames: seq<string>): (r: Emit)
    requires fileNames != []
    ensures r.Valid()
  {
    Emit(fileNames, seq(|fileNames|, _ => NO_LINE), 0, 0, 0, true, Label(cfg, fileNames[0]), "")
  }
}
