/** CSVparser::generatePabloMethod: finding record separators, field separators and escaped quotes with bit
    streams, against a reader that goes through the text one character at a time, and against a writer.

    A stream has one bit per character.  Each Pablo statement is the plain whole-stream operation. */
module CsvParser {
  import opened BitWords
  import opened Selection

  const LF := '\n'

  // ------------------------------------------------------------------ the stream operations

  /** The 1st, (n+1)-th, (2n+1)-th, ... marked position. */
  function EveryNth(s: Word, n: nat): (r: Word)
    requires n > 0
    ensures |r| == |s|
  {
    seq(|s|, i requires 0 <= i < |s| => s[i] && Rank(s, i) % n == 0)
  }

  /** The next position's bit; nothing past the end. */
  function Lookahead1(s: Word): (r: Word)
    ensures |r| == |s|
  {
    Shr(s, 1)
  }

  function Advance1(s: Word): (r: Word)
    ensures |r| == |s|
  {
    Shl(s, 1)
  }

  /** From each start mark through the end mark after it; the subtraction's borrow carries the span. */
  function InclusiveSpan(start: Word, end: Word): (r: Word)
    requires |start| == |end|
    ensures |r| == |start|
  {
    Or(end, Sub(end, start))
  }

  function CharClass(text: string, c: char): (r: Word)
    ensures |r| == |text|
  {
    seq(|text|, i requires 0 <= i < |text| => text[i] == c)
  }

  // ------------------------------------------------------------------ the program

  datatype Marks = Marks(record: Word, field: Word, quoteEscape: Word)

  function Parse(lf: Word, comma: Word, dquote: Word): (m: Marks)
    requires |lf| == |comma| == |dquote|
    ensures |m.record| == |m.field| == |m.quoteEscape| == |lf|
  {
    var dquoteOdd := EveryNth(dquote, 2);
    var dquoteEven := Xor(dquote, dquoteOdd);
    var quoteEscape := And(dquoteEven, Lookahead1(dquote));
    var escapedQuote := Advance1(quoteEscape);
    var startDquote := Xor(dquoteOdd, escapedQuote);
    var endDquote := Xor(dquoteEven, quoteEscape);
    var quotedData := InclusiveSpan(startDquote, endDquote);
    var unquoted := Not(quotedData);
    var recordMarks := And(lf, unquoted);
    var fieldMarks := Or(And(comma, unquoted), recordMarks);
    Marks(recordMarks, fieldMarks, quoteEscape)
  }

  function ParseText(text: string, quote: char, delim: char): (m: Marks)
    ensures |m.record| == |m.field| == |m.quoteEscape| == |text|
  {
    Parse(CharClass(text, LF), CharClass(text, delim), CharClass(text, quote))
  }

  // ------------------------------------------------------------------ the reader

  /** Section 2 of RFC 4180: outside quotes, inside quotes, or just after a quote inside quotes, which either
      ended the quoted part or is the first half of an escaped quote. */
  datatype Mode = Unquoted | Quoted | AfterQuote

  function Next(mode: Mode, c: char, quote: char): Mode {
    match mode
    case Unquoted => if c == quote then Quoted else Unquoted
    case Quoted => if c == quote then AfterQuote else Quoted
    case AfterQuote => if c == quote then Quoted else Unquoted
  }

  /** The mode before character i, starting in mode m. */
  function ModeFrom(m: Mode, text: string, quote: char, i: nat): Mode
    requires i <= |text|
  {
    if i == 0 then m else Next(ModeFrom(m, text, quote, i - 1), text[i - 1], quote)
  }

  function ModeAt(text: string, quote: char, i: nat): Mode
    requires i <= |text|
  {
    ModeFrom(Unquoted, text, quote, i)
  }

  predicate Separates(text: string, quote: char, i: nat, c: char)
    requires i < |text|
  {
    text[i] == c && !ModeAt(text, quote, i).Quoted?
  }

  // ------------------------------------------------------------------ the program computes what the reader reads

  /** Inside quotes exactly when an odd number of quotes has been passed. */
  lemma {:induction false} QuotedIsOdd(text: string, quote: char, i: nat)
    requires i <= |text|
    ensures ModeAt(text, quote, i).Quoted? <==> Rank(CharClass(text, quote), i) % 2 == 1
    ensures ModeAt(text, quote, i).AfterQuote? <==>
              i > 0 && text[i - 1] == quote && Rank(CharClass(text, quote), i) % 2 == 0
  {
    if i > 0 { QuotedIsOdd(text, quote, i - 1); }
  }

  /** The first half of an escaped quote at i. */
  predicate EscapesAt(text: string, quote: char, i: nat)
    requires i < |text|
  {
    ModeAt(text, quote, i).Quoted? && text[i] == quote && i + 1 < |text| && text[i + 1] == quote
  }

  function Starts(text: string, quote: char): (r: Word)
    ensures |r| == |text|
  {
    var dquote := CharClass(text, quote);
    var odd := EveryNth(dquote, 2);
    Xor(odd, Advance1(And(Xor(dquote, odd), Lookahead1(dquote))))
  }

  function Ends(text: string, quote: char): (r: Word)
    ensures |r| == |text|
  {
    var dquote := CharClass(text, quote);
    var even := Xor(dquote, EveryNth(dquote, 2));
    Xor(even, And(even, Lookahead1(dquote)))
  }

  lemma {:induction false} EscapeMarks(text: string, quote: char, delim: char, i: nat)
    requires i < |text|
    ensures ParseText(text, quote, delim).quoteEscape[i] == EscapesAt(text, quote, i)
  {
    QuotedIsOdd(text, quote, i);
  }

  /** A start mark is a quote met outside quotes that does not complete an escaped quote; an end mark is a
      quote met inside quotes that does not begin one. */
  lemma {:induction false} StartEndMarks(text: string, quote: char, i: nat)
    requires i < |text|
    ensures Starts(text, quote)[i]
         <==> text[i] == quote && !ModeAt(text, quote, i).Quoted? && !(i > 0 && EscapesAt(text, quote, i - 1))
    ensures Ends(text, quote)[i] <==> text[i] == quote && ModeAt(text, quote, i).Quoted? && !EscapesAt(text, quote, i)
  {
    QuotedIsOdd(text, quote, i);
    if i > 0 { QuotedIsOdd(text, quote, i - 1); }
  }

  /** The borrow of the span runs inside quotes and across the middle of escaped quotes. */
  lemma {:induction false} BorrowIsInside(text: string, quote: char, i: nat)
    requires i <= |text|
    ensures Borrow(Ends(text, quote), Starts(text, quote), i)
         <==> ModeAt(text, quote, i).Quoted? || (i > 0 && EscapesAt(text, quote, i - 1))
  {
    if i > 0 {
      BorrowIsInside(text, quote, i - 1);
      StartEndMarks(text, quote, i - 1);
    }
  }

  lemma {:induction false} SpanIsQuoted(text: string, quote: char, i: nat)
    requires i < |text| && text[i] != quote
    ensures InclusiveSpan(Starts(text, quote), Ends(text, quote))[i] == ModeAt(text, quote, i).Quoted?
  {
    BorrowIsInside(text, quote, i);
    StartEndMarks(text, quote, i);
  }

  /** For every text, quoting as it may, the three streams mark exactly what the reader finds. */
  lemma {:induction false} ParseMatchesReader(text: string, quote: char, delim: char)
    requires quote != LF && quote != delim
    ensures forall i :: 0 <= i < |text| ==>
              && ParseText(text, quote, delim).record[i] == Separates(text, quote, i, LF)
              && ParseText(text, quote, delim).field[i]
                 == (Separates(text, quote, i, delim) || Separates(text, quote, i, LF))
              && ParseText(text, quote, delim).quoteEscape[i] == EscapesAt(text, quote, i)
  {
    forall i | 0 <= i < |text|
      ensures ParseText(text, quote, delim).record[i] == Separates(text, quote, i, LF)
      ensures ParseText(text, quote, delim).field[i]
           == (Separates(text, quote, i, delim) || Separates(text, quote, i, LF))
      ensures ParseText(text, quote, delim).quoteEscape[i] == EscapesAt(text, quote, i)
    {
      EscapeMarks(text, quote, delim, i);
      if text[i] != quote { SpanIsQuoted(text, quote, i); }
    }
  }

  // ------------------------------------------------------------------ a writer

  /** A field as it is to be written: as it stands, or enclosed in quotes with its quotes doubled. */
  datatype Field = Bare(text: string) | Enclosed(text: string)

  /** A bare field must not contain a character with a meaning. */
  predicate Writable(f: Field, quote: char, delim: char) {
    f.Bare? ==> quote !in f.text && delim !in f.text && LF !in f.text
  }

  function Doubled(s: string, quote: char): (r: string) {
    if |s| == 0 then "" else
      var n := |s| - 1;
      Doubled(s[..n], quote) + if s[n] == quote then [quote, quote] else [s[n]]
  }

  function WriteField(f: Field, quote: char): (r: string) {
    match f
    case Bare(text) => text
    case Enclosed(text) => [quote] + Doubled(text, quote) + [quote]
  }

  /** Every field is followed by the delimiter, the last one of a record by the line feed. */
  function WriteFields(fields: seq<Field>, quote: char, delim: char, end: char): (r: string) {
    if |fields| == 0 then ""
    else
      var n := |fields| - 1;
      WriteFields(fields[..n], quote, delim, delim) + WriteField(fields[n], quote) + [end]
  }

  function Write(records: seq<seq<Field>>, quote: char, delim: char): (r: string) {
    if |records| == 0 then ""
    else
      var n := |records| - 1;
      Write(records[..n], quote, delim) + WriteFields(records[n], quote, delim, LF)
  }

  /** Where the separators are: `last` marks whether the separator after the last field is wanted. */
  function FieldEnds(fields: seq<Field>, quote: char, inner: bool, last: bool): (r: Word) {
    if |fields| == 0 then []
    else
      var n := |fields| - 1;
      FieldEnds(fields[..n], quote, inner, inner) + Zeros(|WriteField(fields[n], quote)|) + [last]
  }

  function RecordEnds(records: seq<seq<Field>>, quote: char, inner: bool, last: bool): (r: Word) {
    if |records| == 0 then []
    else
      var n := |records| - 1;
      RecordEnds(records[..n], quote, inner, last) + FieldEnds(records[n], quote, inner, last)
  }

  /** The separators c that a reader starting in mode m finds. */
  function ReaderMarks(m: Mode, text: string, quote: char, c: char): (r: Word)
    ensures |r| == |text|
  {
    seq(|text|, i requires 0 <= i < |text| => text[i] == c && !ModeFrom(m, text, quote, i).Quoted?)
  }

  lemma {:induction false} ModeConcat(m: Mode, a: string, b: string, quote: char, i: nat)
    requires i <= |b|
    ensures ModeFrom(m, a + b, quote, |a| + i) == ModeFrom(ModeFrom(m, a, quote, |a|), b, quote, i)
  {
    if i > 0 {
      ModeConcat(m, a, b, quote, i - 1);
      assert (a + b)[|a| + i - 1] == b[i - 1];
    } else {
      ModePrefix(m, a, b, quote, |a|);
    }
  }

  lemma {:induction false} ModePrefix(m: Mode, a: string, b: string, quote: char, i: nat)
    requires i <= |a|
    ensures ModeFrom(m, a + b, quote, i) == ModeFrom(m, a, quote, i)
  {
    if i > 0 { ModePrefix(m, a, b, quote, i - 1); }
  }

  lemma {:induction false} MarksConcat(m: Mode, a: string, b: string, quote: char, c: char)
    ensures ReaderMarks(m, a + b, quote, c)
         == ReaderMarks(m, a, quote, c) + ReaderMarks(ModeFrom(m, a, quote, |a|), b, quote, c)
    ensures ModeFrom(m, a + b, quote, |a + b|) == ModeFrom(ModeFrom(m, a, quote, |a|), b, quote, |b|)
  {
    var all := ReaderMarks(m, a + b, quote, c);
    forall i | 0 <= i < |a|
      ensures all[i] == ReaderMarks(m, a, quote, c)[i]
    {
      ModePrefix(m, a, b, quote, i);
    }
    forall i | 0 <= i < |b|
      ensures all[|a| + i] == ReaderMarks(ModeFrom(m, a, quote, |a|), b, quote, c)[i]
    {
      ModeConcat(m, a, b, quote, i);
    }
    ModeConcat(m, a, b, quote, |b|);
  }

  /** Reading one character. */
  lemma {:induction false} OneChar(m: Mode, ch: char, quote: char, c: char)
    ensures ModeFrom(m, [ch], quote, 1) == Next(m, ch, quote)
    ensures ReaderMarks(m, [ch], quote, c) == [ch == c && !m.Quoted?]
  {
    assert ModeFrom(m, [ch], quote, 0) == m;
  }

  /** Inside quotes, doubled text leads back inside quotes and shows no separator. */
  lemma {:induction false} DoubledIsOpaque(s: string, quote: char, c: char)
    requires c != quote
    ensures var d := Doubled(s, quote);
            ModeFrom(Quoted, d, quote, |d|) == Quoted && ReaderMarks(Quoted, d, quote, c) == Zeros(|d|)
  {
    if |s| > 0 {
      var n := |s| - 1;
      var d := Doubled(s[..n], quote);
      DoubledIsOpaque(s[..n], quote, c);
      if s[n] == quote {
        MarksConcat(Quoted, d, [quote, quote], quote, c);
        assert [quote, quote] == [quote] + [quote];
        MarksConcat(Quoted, [quote], [quote], quote, c);
        OneChar(Quoted, quote, quote, c);
        OneChar(AfterQuote, quote, quote, c);
      } else {
        MarksConcat(Quoted, d, [s[n]], quote, c);
        OneChar(Quoted, s[n], quote, c);
      }
    }
  }

  lemma {:induction false} BareStaysOutside(s: string, quote: char, i: nat)
    requires i <= |s| && quote !in s
    ensures ModeFrom(Unquoted, s, quote, i) == Unquoted
  {
    if i > 0 { BareStaysOutside(s, quote, i - 1); }
  }

  /** A written field shows no separator and ends outside quotes. */
  lemma {:induction false} FieldIsOpaque(f: Field, quote: char, delim: char, c: char)
    requires Writable(f, quote, delim) && quote != c && (c == delim || c == LF)
    ensures var w := WriteField(f, quote);
            !ModeFrom(Unquoted, w, quote, |w|).Quoted? && ReaderMarks(Unquoted, w, quote, c) == Zeros(|w|)
  {
    match f
    case Bare(text) =>
      BareStaysOutside(text, quote, |text|);
    case Enclosed(text) =>
      var d := Doubled(text, quote);
      DoubledIsOpaque(text, quote, c);
      OneChar(Unquoted, quote, quote, c);
      OneChar(Quoted, quote, quote, c);
      MarksConcat(Unquoted, [quote], d, quote, c);
      MarksConcat(Unquoted, [quote] + d, [quote], quote, c);
  }

  /** A separator read outside quotes, after a field that shows none. */
  lemma {:induction false} OneField(w: string, f: string, end: char, marks: Word, quote: char, c: char)
    requires end != quote
    requires ModeFrom(Unquoted, w, quote, |w|) == Unquoted && ReaderMarks(Unquoted, w, quote, c) == marks
    requires !ModeFrom(Unquoted, f, quote, |f|).Quoted? && ReaderMarks(Unquoted, f, quote, c) == Zeros(|f|)
    ensures ModeFrom(Unquoted, w + f + [end], quote, |w + f + [end]|) == Unquoted
    ensures ReaderMarks(Unquoted, w + f + [end], quote, c) == marks + Zeros(|f|) + [end == c]
  {
    MarksConcat(Unquoted, w, f, quote, c);
    MarksConcat(Unquoted, w + f, [end], quote, c);
    OneChar(ModeFrom(Unquoted, f, quote, |f|), end, quote, c);
  }

  lemma {:induction false} FieldsMarks(fields: seq<Field>, quote: char, delim: char, end: char, c: char)
    requires forall f :: f in fields ==> Writable(f, quote, delim)
    requires quote != delim && quote != LF && (c == delim || c == LF) && (end == delim || end == LF)
    ensures var w := WriteFields(fields, quote, delim, end);
            && ModeFrom(Unquoted, w, quote, |w|) == Unquoted
            && ReaderMarks(Unquoted, w, quote, c) == FieldEnds(fields, quote, delim == c, end == c)
    decreases |fields|
  {
    if |fields| > 0 {
      var n := |fields| - 1;
      FieldsMarks(fields[..n], quote, delim, delim, c);
      FieldIsOpaque(fields[n], quote, delim, c);
      OneField(WriteFields(fields[..n], quote, delim, delim), WriteField(fields[n], quote), end,
               FieldEnds(fields[..n], quote, delim == c, delim == c), quote, c);
    }
  }

  ghost predicate AllWritable(records: seq<seq<Field>>, quote: char, delim: char) {
    forall i, f :: 0 <= i < |records| && f in records[i] ==> Writable(f, quote, delim)
  }

  lemma {:induction false} RecordsMarks(records: seq<seq<Field>>, quote: char, delim: char, c: char)
    requires AllWritable(records, quote, delim) && quote != delim && quote != LF && (c == delim || c == LF)
    ensures var w := Write(records, quote, delim);
            && ModeFrom(Unquoted, w, quote, |w|) == Unquoted
            && ReaderMarks(Unquoted, w, quote, c) == RecordEnds(records, quote, delim == c, LF == c)
    decreases |records|
  {
    if |records| > 0 {
      var n := |records| - 1;
      RecordsMarks(records[..n], quote, delim, c);
      FieldsMarks(records[n], quote, delim, LF, c);
      MarksConcat(Unquoted, Write(records[..n], quote, delim), WriteFields(records[n], quote, delim, LF), quote, c);
    }
  }

  lemma {:induction false} EitherFieldEnds(fields: seq<Field>, quote: char, last: bool, last': bool)
    ensures |FieldEnds(fields, quote, true, last)| == |FieldEnds(fields, quote, false, last')|
    ensures Or(FieldEnds(fields, quote, true, last), FieldEnds(fields, quote, false, last'))
         == FieldEnds(fields, quote, true, last || last')
    decreases |fields|
  {
    if |fields| > 0 {
      EitherFieldEnds(fields[..|fields| - 1], quote, true, false);
    }
  }

  lemma {:induction false} EitherRecordEnds(records: seq<seq<Field>>, quote: char)
    ensures |RecordEnds(records, quote, true, false)| == |RecordEnds(records, quote, false, true)|
    ensures Or(RecordEnds(records, quote, true, false), RecordEnds(records, quote, false, true))
         == RecordEnds(records, quote, true, true)
    decreases |records|
  {
    if |records| > 0 {
      EitherRecordEnds(records[..|records| - 1], quote);
      EitherFieldEnds(records[|records| - 1], quote, false, true);
    }
  }

  /** Parsing what was written finds the written separators, whatever characters the enclosed fields contain. */
  lemma {:induction false} ParseWritten(records: seq<seq<Field>>, quote: char, delim: char)
    requires AllWritable(records, quote, delim) && quote != delim && quote != LF && delim != LF
    ensures var marks := ParseText(Write(records, quote, delim), quote, delim);
            && marks.record == RecordEnds(records, quote, false, true)
            && marks.field == RecordEnds(records, quote, true, true)
  {
    var w := Write(records, quote, delim);
    var marks := ParseText(w, quote, delim);
    RecordsMarks(records, quote, delim, delim);
    RecordsMarks(records, quote, delim, LF);
    EitherRecordEnds(records, quote);
    ParseMatchesReader(w, quote, delim);
    assert marks.record == ReaderMarks(Unquoted, w, quote, LF);
    assert marks.field == Or(ReaderMarks(Unquoted, w, quote, delim), ReaderMarks(Unquoted, w, quote, LF));
  }
}
