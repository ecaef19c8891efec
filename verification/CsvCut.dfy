/** csvcut: the separators found by CSVparser, the mask made by SelectMultiField, and the bytes filtered by it.  What
    comes out is the table with the selected columns only. */
module CsvCut {
  import opened BitWords
  import opened Selection
  import opened CsvParser
  import opened CsvColumns

  // ------------------------------------------------------------------ the column numbers

  /** What getColumnArgs makes of the ranges it is given: columns, one of two messages, or the use of a last column when
      there is none. */
  datatype ColumnArgs = Columns(columns: seq<nat>) | TooLarge | OutOfOrder | NoLastColumn

  function RangeOf(lo: nat, hi: nat): (r: seq<nat>)
    ensures |r| == if lo <= hi then hi - lo + 1 else 0
  {
    seq(if lo <= hi then hi - lo + 1 else 0, i requires i >= 0 => lo + i)
  }

  function Joined(ranges: seq<(nat, nat)>, n: nat): (r: seq<nat>)
    requires n <= |ranges|
  {
    if n == 0 then [] else Joined(ranges, n - 1) + RangeOf(ranges[n - 1].0, ranges[n - 1].1)
  }

  /** Range i ends below the number of headers and does not start below the last column before it. */
  predicate Accepted(ranges: seq<(nat, nat)>, headers: nat, i: nat)
    requires i < |ranges|
  {
    && ranges[i].1 < headers
    && (i > 0 ==>
          var before := Joined(ranges, i);
          before != [] && before[|before| - 1] <= ranges[i].0)
  }

  /** All ranges are accepted, or the message is about the first that is not. */
  ghost predicate Answers(r: ColumnArgs, ranges: seq<(nat, nat)>, headers: nat, i: nat)
    requires i <= |ranges|
  {
    && (forall j :: 0 <= j < i ==> Accepted(ranges, headers, j))
    && (r.Columns? ==> i == |ranges| && r.columns == Joined(ranges, i))
    && (r == TooLarge ==> i < |ranges| && ranges[i].1 >= headers)
    && (r == NoLastColumn ==> 0 < i < |ranges| && ranges[i].1 < headers && Joined(ranges, i) == [])
    && (r == OutOfOrder ==>
          && 0 < i < |ranges| && ranges[i].1 < headers
          && Joined(ranges, i) != [] && ranges[i].0 < Joined(ranges, i)[|Joined(ranges, i)| - 1])
  }

  /** The loop that adds the columns of a range. */
  method PushRange(colNos: seq<nat>, lo: nat, hi: nat) returns (r: seq<nat>)
    ensures r == colNos + RangeOf(lo, hi)
  {
    r := colNos;
    var colNo := lo;
    while colNo <= hi
      invariant lo <= colNo && (colNo <= hi || colNo == if lo <= hi then hi + 1 else lo)
      invariant r == colNos + RangeOf(lo, hi)[..colNo - lo]
    {
      r := r + [colNo];
      colNo := colNo + 1;
    }
  }

  /** getColumnArgs for ranges of column numbers. */
  method GetColumnArgs(ranges: seq<(nat, nat)>, headers: nat) returns (r: ColumnArgs)
    ensures ranges == [] ==> r.Columns? && |r.columns| == headers && forall i :: 0 <= i < headers ==> r.columns[i] == i
    ensures ranges != [] ==> exists i: nat :: i <= |ranges| && Answers(r, ranges, headers, i)
  {
    var colNos: seq<nat> := [];
    if ranges == [] {
      for i := 0 to headers
        invariant |colNos| == i && forall j :: 0 <= j < i ==> colNos[j] == j
      {
        colNos := colNos + [i];
      }
      return Columns(colNos);
    }
    for i := 0 to |ranges|
      invariant colNos == Joined(ranges, i)
      invariant forall j :: 0 <= j < i ==> Accepted(ranges, headers, j)
    {
      var (lo, hi) := ranges[i];
      if hi >= headers {
        assert Answers(TooLarge, ranges, headers, i);
        return TooLarge;
      }
      if i > 0 {
        if colNos == [] {
          assert Answers(NoLastColumn, ranges, headers, i);
          return NoLastColumn;
        }
        if lo < colNos[|colNos| - 1] {
          assert Answers(OutOfOrder, ranges, headers, i);
          return OutOfOrder;
        }
      }
      colNos := PushRange(colNos, lo, hi);
    }
    assert Answers(Columns(colNos), ranges, headers, |ranges|);
    return Columns(colNos);
  }

  ghost predicate InOrder(columns: seq<nat>) {
    forall i, j :: 0 <= i < j < |columns| ==> columns[i] <= columns[j]
  }

  /** A range of columns starts where the columns before it end. */
  ghost predicate Repeats(ranges: seq<(nat, nat)>, i: nat)
    requires i < |ranges|
  {
    var before := Joined(ranges, i);
    before != [] && before[|before| - 1] == ranges[i].0 <= ranges[i].1
  }

  lemma {:induction false} JoinedInOrder(ranges: seq<(nat, nat)>, headers: nat, n: nat)
    requires n <= |ranges| && forall i :: 0 <= i < n ==> Accepted(ranges, headers, i)
    ensures InOrder(Joined(ranges, n)) && forall c <- Joined(ranges, n) :: c < headers
    ensures Increasing(Joined(ranges, n)) <==> forall i :: 0 <= i < n ==> !Repeats(ranges, i)
  {
    if n > 0 {
      JoinedInOrder(ranges, headers, n - 1);
      assert Accepted(ranges, headers, n - 1);
      OneMoreRange(Joined(ranges, n - 1), ranges[n - 1].0, ranges[n - 1].1);
      assert Increasing(Joined(ranges, n)) <==> Increasing(Joined(ranges, n - 1)) && !Repeats(ranges, n - 1);
    }
  }

  lemma {:induction false} OneMoreRange(before: seq<nat>, lo: nat, hi: nat)
    requires InOrder(before) && (before != [] ==> before[|before| - 1] <= lo)
    ensures InOrder(before + RangeOf(lo, hi))
    ensures Increasing(before + RangeOf(lo, hi)) <==>
      Increasing(before) && !(before != [] && before[|before| - 1] == lo <= hi)
  {
    var all, n := before + RangeOf(lo, hi), |before|;
    if Increasing(all) {
      forall i, j | 0 <= i < j < n
        ensures before[i] < before[j]
      {
        assert all[i] < all[j];
      }
      if n > 0 && lo <= hi { assert all[n - 1] < all[n]; }
    }
  }

  /** The message asks for a strictly increasing order, but the test lets a range start where the last one ended.  The
      columns selected are those asked for exactly when no range does so. */
  lemma {:induction false} SelectedAsAsked(ranges: seq<(nat, nat)>, headers: nat, columns: seq<nat>)
    requires Answers(Columns(columns), ranges, headers, |ranges|)
    ensures (forall c :: c in Selected(columns) <==> c in columns) <==>
      forall i :: 0 <= i < |ranges| ==> !Repeats(ranges, i)
  {
    JoinedInOrder(ranges, headers, |ranges|);
    SelectedExactly(columns);
  }

  /** Asking for column 1 twice selects columns 1 and 2. */
  method ColumnTwice() returns (r: ColumnArgs)
    ensures r == Columns([1, 1]) && Selected(r.columns) == [1, 2]
  {
    var ranges := [(1, 1), (1, 1)];
    r := GetColumnArgs(ranges, 3);
    assert Joined(ranges, 1) == [1] && Joined(ranges, 2) == [1, 1];
    assert Accepted(ranges, 3, 0) && Accepted(ranges, 3, 1);
    assert Reached([1, 1], 0) == 1 && Reached([1, 1], 1) == 2;
  }

  // ------------------------------------------------------------------ piece by piece

  /** The column of position i of a piece of the file that begins in column c. */
  function ColumnIn(c: nat, field: Word, record: Word, i: nat): (r: nat)
    requires i <= |field| == |record|
  {
    if i == 0 then c
    else if record[i - 1] then 0
    else ColumnIn(c, field, record, i - 1) + if field[i - 1] then 1 else 0
  }

  /** What the selector keeps of a piece that begins in column c. */
  function KeptIn(c: nat, field: Word, record: Word, columns: seq<nat>, forCut: bool): (r: Word)
    requires |field| == |record| && columns != []
    ensures |r| == |field|
  {
    seq(|field|, i requires 0 <= i < |field| =>
      var k := ColumnIn(c, field, record, i);
      || (k in columns && !(forCut && field[i] && k == columns[|columns| - 1]))
      || (forCut && record[i]))
  }

  lemma {:induction false} ColumnConcat(c: nat, field: Word, record: Word, field': Word, record': Word, i: nat)
    requires |field| == |record| && i <= |field'| == |record'|
    ensures ColumnIn(c, field + field', record + record', |field| + i)
         == ColumnIn(ColumnIn(c, field, record, |field|), field', record', i)
  {
    if i == 0 { ColumnPrefix(c, field, record, field', record', |field|); }
    else { ColumnConcat(c, field, record, field', record', i - 1); }
  }

  lemma {:induction false} ColumnPrefix(c: nat, field: Word, record: Word, field': Word, record': Word, i: nat)
    requires i <= |field| == |record| && |field'| == |record'|
    ensures ColumnIn(c, field + field', record + record', i) == ColumnIn(c, field, record, i)
  {
    if i > 0 { ColumnPrefix(c, field, record, field', record', i - 1); }
  }

  lemma {:induction false} KeptConcat(c: nat, field: Word, record: Word, field': Word, record': Word,
                                      columns: seq<nat>, forCut: bool, c': nat)
    requires |field| == |record| && |field'| == |record'| && columns != []
    requires c' == ColumnIn(c, field, record, |field|)
    ensures KeptIn(c, field + field', record + record', columns, forCut)
         == KeptIn(c, field, record, columns, forCut) + KeptIn(c', field', record', columns, forCut)
  {
    var all := KeptIn(c, field + field', record + record', columns, forCut);
    forall i | 0 <= i < |field|
      ensures all[i] == KeptIn(c, field, record, columns, forCut)[i]
    {
      ColumnPrefix(c, field, record, field', record', i);
    }
    forall i | 0 <= i < |field'|
      ensures all[|field| + i] == KeptIn(c', field', record', columns, forCut)[i]
    {
      ColumnConcat(c, field, record, field', record', i);
    }
  }

  /** What is left of a piece. */
  function Taken(c: nat, text: string, field: Word, record: Word, columns: seq<nat>, forCut: bool): (r: string)
    requires |text| == |field| == |record| && columns != []
  {
    Filter(text, KeptIn(c, field, record, columns, forCut))
  }

  lemma {:induction false} TakenConcat(c: nat, text: string, field: Word, record: Word,
                                       text': string, field': Word, record': Word,
                                       columns: seq<nat>, forCut: bool, c': nat)
    requires |text| == |field| == |record| && |text'| == |field'| == |record'| && columns != []
    requires c' == ColumnIn(c, field, record, |field|)
    ensures Taken(c, text + text', field + field', record + record', columns, forCut)
         == Taken(c, text, field, record, columns, forCut) + Taken(c', text', field', record', columns, forCut)
  {
    KeptConcat(c, field, record, field', record', columns, forCut, c');
    FilterConcat(text, KeptIn(c, field, record, columns, forCut), text', KeptIn(c', field', record', columns, forCut));
  }

  // ------------------------------------------------------------------ one field

  lemma {:induction false} ColumnOfField(c: nat, m: nat, record: Word, i: nat)
    requires i <= m && record == Zeros(m)
    ensures ColumnIn(c, Zeros(m), record, i) == c
  {
    if i > 0 { ColumnOfField(c, m, record, i - 1); }
  }

  lemma {:induction false} FilterAll(s: string, mask: Word, b: bool)
    requires |s| == |mask| && forall i :: 0 <= i < |mask| ==> mask[i] == b
    ensures Filter(s, mask) == if b then s else ""
    decreases |s|
  {
    if |s| > 0 {
      var n := |s| - 1;
      FilterAll(s[..n], mask[..n], b);
      assert s == s[..n] + [s[n]];
    }
  }

  /** The characters of a field are kept when its column is selected. */
  lemma {:induction false} InnerTaken(c: nat, w: string, columns: seq<nat>, forCut: bool)
    requires columns != []
    ensures ColumnIn(c, Zeros(|w|), Zeros(|w|), |w|) == c
    ensures Taken(c, w, Zeros(|w|), Zeros(|w|), columns, forCut) == if c in columns then w else ""
  {
    var m := |w|;
    var kept := KeptIn(c, Zeros(m), Zeros(m), columns, forCut);
    forall i | 0 <= i < m
      ensures kept[i] == (c in columns)
    {
      ColumnOfField(c, m, Zeros(m), i);
    }
    ColumnOfField(c, m, Zeros(m), m);
    FilterAll(w, kept, c in columns);
  }

  /** Whether the separator after a field is kept. */
  predicate KeepsEnd(c: nat, isRecord: bool, columns: seq<nat>, forCut: bool)
    requires columns != []
  {
    (c in columns && !(forCut && c == columns[|columns| - 1])) || (forCut && isRecord)
  }

  lemma {:induction false} EndTaken(c: nat, end: char, isRecord: bool, columns: seq<nat>, forCut: bool)
    requires columns != []
    ensures ColumnIn(c, [true], [isRecord], 1) == if isRecord then 0 else c + 1
    ensures Taken(c, [end], [true], [isRecord], columns, forCut)
         == if KeepsEnd(c, isRecord, columns, forCut) then [end] else ""
  {
    assert ColumnIn(c, [true], [isRecord], 0) == c;
    var kept := KeptIn(c, [true], [isRecord], columns, forCut);
    assert kept[0] == KeepsEnd(c, isRecord, columns, forCut);
    FilterAll([end], kept, kept[0]);
  }

  /** What is left of a field in column c and its separator. */
  function FieldLeft(c: nat, w: string, end: char, isRecord: bool, columns: seq<nat>, forCut: bool): (r: string)
    requires columns != []
  {
    (if c in columns then w else "") + (if KeepsEnd(c, isRecord, columns, forCut) then [end] else "")
  }

  lemma {:induction false} FieldTaken(c: nat, w: string, end: char, isRecord: bool, columns: seq<nat>, forCut: bool)
    requires columns != []
    ensures ColumnIn(c, Zeros(|w|) + [true], Zeros(|w|) + [isRecord], |w| + 1) == if isRecord then 0 else c + 1
    ensures Taken(c, w + [end], Zeros(|w|) + [true], Zeros(|w|) + [isRecord], columns, forCut)
         == FieldLeft(c, w, end, isRecord, columns, forCut)
  {
    InnerTaken(c, w, columns, forCut);
    EndTaken(c, end, isRecord, columns, forCut);
    TakenConcat(c, w, Zeros(|w|), Zeros(|w|), [end], [true], [isRecord], columns, forCut, c);
    ColumnConcat(c, Zeros(|w|), Zeros(|w|), [true], [isRecord], 1);
  }

  // ------------------------------------------------------------------ one record

  /** The fields of a record that stand in selected columns. */
  function Picked(fields: seq<Field>, columns: seq<nat>): (r: seq<Field>) {
    if fields == [] then []
    else
      var n := |fields| - 1;
      Picked(fields[..n], columns) + if n in columns then [fields[n]] else []
  }

  /** The fields with the delimiter between them, and nothing after the last. */
  function Unended(fields: seq<Field>, quote: char, delim: char): (r: string) {
    if fields == [] then ""
    else
      var n := |fields| - 1;
      WriteFields(fields[..n], quote, delim, delim) + WriteField(fields[n], quote)
  }

  lemma {:induction false} WriteOneMore(fields: seq<Field>, f: Field, quote: char, delim: char, end: char)
    ensures Unended(fields + [f], quote, delim) == WriteFields(fields, quote, delim, delim) + WriteField(f, quote)
    ensures WriteFields(fields + [f], quote, delim, end) == Unended(fields + [f], quote, delim) + [end]
  {
    assert (fields + [f])[..|fields|] == fields;
  }

  lemma {:induction false} FieldEndsFit(fields: seq<Field>, quote: char, delim: char, end: char,
                                        inner: bool, last: bool)
    ensures |FieldEnds(fields, quote, inner, last)| == |WriteFields(fields, quote, delim, end)|
    decreases |fields|
  {
    if |fields| > 0 { FieldEndsFit(fields[..|fields| - 1], quote, delim, delim, inner, inner); }
  }

  /** The marks of a record: every separator ends a field, and the last one ends the record or not. */
  ghost predicate RecordMarked(fields: seq<Field>, quote: char, delim: char, isRecord: bool,
                               text: string, field: Word, record: Word) {
    && text == WriteFields(fields, quote, delim, if isRecord then LF else delim)
    && field == FieldEnds(fields, quote, true, true) && record == FieldEnds(fields, quote, false, isRecord)
    && |text| == |field| == |record|
  }

  lemma {:induction false} Marked(fields: seq<Field>, quote: char, delim: char, isRecord: bool)
    ensures RecordMarked(fields, quote, delim, isRecord,
                         WriteFields(fields, quote, delim, if isRecord then LF else delim),
                         FieldEnds(fields, quote, true, true), FieldEnds(fields, quote, false, isRecord))
  {
    FieldEndsFit(fields, quote, delim, if isRecord then LF else delim, true, true);
    FieldEndsFit(fields, quote, delim, if isRecord then LF else delim, false, isRecord);
  }

  lemma Regroup<T>(a: seq<T>, b: seq<T>, c: seq<T>)
    ensures a + b + c == a + (b + c)
  {
  }

  /** One more field with its separator, after a piece that ends in column c. */
  lemma {:induction false} MoreTaken(before: string, field: Word, record: Word, c: nat, w: string, end: char,
                                     isRecord: bool, columns: seq<nat>, forCut: bool,
                                     text: string, field': Word, record': Word)
    requires |before| == |field| == |record| && columns != [] && c == ColumnIn(0, field, record, |field|)
    requires text == before + w + [end] && field' == field + Zeros(|w|) + [true]
    requires record' == record + Zeros(|w|) + [isRecord]
    ensures ColumnIn(0, field', record', |field'|) == if isRecord then 0 else c + 1
    ensures Taken(0, text, field', record', columns, forCut)
         == Taken(0, before, field, record, columns, forCut) + FieldLeft(c, w, end, isRecord, columns, forCut)
  {
    var f, r := Zeros(|w|) + [true], Zeros(|w|) + [isRecord];
    Regroup(before, w, [end]);
    Regroup(field, Zeros(|w|), [true]);
    Regroup(record, Zeros(|w|), [isRecord]);
    FieldTaken(c, w, end, isRecord, columns, forCut);
    TakenConcat(0, before, field, record, w + [end], f, r, columns, forCut, c);
    ColumnConcat(0, field, record, f, r, |w| + 1);
  }

  /** What is left after n fields of a record of which more follow: the fields picked, the delimiter after the last one
      unless the cut has had its last column. */
  function Left(n: nat, picked: seq<Field>, columns: seq<nat>, forCut: bool, quote: char, delim: char): (r: string)
    requires columns != []
  {
    if forCut && columns[|columns| - 1] < n then Unended(picked, quote, delim)
    else WriteFields(picked, quote, delim, delim)
  }

  lemma {:induction false} LeftOneMore(n: nat, picked: seq<Field>, f: Field, columns: seq<nat>, forCut: bool,
                                       quote: char, delim: char)
    requires columns != [] && Increasing(columns)
    ensures Left(n + 1, if n in columns then picked + [f] else picked, columns, forCut, quote, delim)
         == Left(n, picked, columns, forCut, quote, delim)
            + FieldLeft(n, WriteField(f, quote), delim, false, columns, forCut)
  {
    var last := columns[|columns| - 1];
    assert n in columns ==> n <= last;
    WriteOneMore(picked, f, quote, delim, delim);
  }

  lemma {:induction false} MarkedOneMore(fields: seq<Field>, quote: char, delim: char, isRecord: bool,
                                         text: string, field: Word, record: Word,
                                         before: string, field': Word, record': Word, w: string)
    requires fields != [] && w == WriteField(fields[|fields| - 1], quote)
    requires RecordMarked(fields, quote, delim, isRecord, text, field, record)
    requires RecordMarked(fields[..|fields| - 1], quote, delim, false, before, field', record')
    ensures text == before + w + [if isRecord then LF else delim]
    ensures field == field' + Zeros(|w|) + [true] && record == record' + Zeros(|w|) + [isRecord]
  {
  }

  lemma {:induction false} InnerStart(text: string, field: Word, record: Word, columns: seq<nat>, forCut: bool,
                                      quote: char, delim: char)
    requires text == "" && field == [] && record == [] && columns != []
    ensures ColumnIn(0, field, record, 0) == 0
    ensures Taken(0, text, field, record, columns, forCut) == Left(0, [], columns, forCut, quote, delim)
  {
  }

  lemma {:induction false} InnerFieldsTaken(fields: seq<Field>, quote: char, delim: char,
                                            text: string, field: Word, record: Word, columns: seq<nat>, forCut: bool,
                                            picked: seq<Field>)
    requires columns != [] && Increasing(columns) && RecordMarked(fields, quote, delim, false, text, field, record)
    requires picked == Picked(fields, columns)
    ensures ColumnIn(0, field, record, |field|) == |fields|
    ensures Taken(0, text, field, record, columns, forCut) == Left(|fields|, picked, columns, forCut, quote, delim)
    decreases |fields|
  {
    if fields == [] {
      InnerStart(text, field, record, columns, forCut, quote, delim);
    } else {
      var n := |fields| - 1;
      var w, before := WriteField(fields[n], quote), WriteFields(fields[..n], quote, delim, delim);
      var field', record' := FieldEnds(fields[..n], quote, true, true), FieldEnds(fields[..n], quote, false, false);
      var picked' := Picked(fields[..n], columns);
      Marked(fields[..n], quote, delim, false);
      InnerFieldsTaken(fields[..n], quote, delim, before, field', record', columns, forCut, picked');
      MarkedOneMore(fields, quote, delim, false, text, field, record, before, field', record', w);
      MoreTaken(before, field', record', n, w, delim, false, columns, forCut, text, field, record);
      LeftOneMore(n, picked', fields[n], columns, forCut, quote, delim);
      assert picked == if n in columns then picked' + [fields[n]] else picked';
    }
  }

  /** What is left of a record that reaches the last column: the fields picked, ended by the line feed, or by the
      delimiter when it is no cut and fields come after the last column. */
  function RecordLeft(fields: seq<Field>, columns: seq<nat>, forCut: bool, quote: char, delim: char): (r: string)
    requires columns != []
  {
    WriteFields(Picked(fields, columns), quote, delim,
                if forCut || columns[|columns| - 1] == |fields| - 1 then LF else delim)
  }

  lemma {:induction false} LastLeft(fields: seq<Field>, columns: seq<nat>, forCut: bool, quote: char, delim: char,
                                    picked: seq<Field>, f: Field, left: string)
    requires columns != [] && Increasing(columns) && columns[|columns| - 1] < |fields|
    requires picked == Picked(fields[..|fields| - 1], columns) && f == fields[|fields| - 1]
    requires left == Left(|fields| - 1, picked, columns, forCut, quote, delim)
    ensures RecordLeft(fields, columns, forCut, quote, delim)
         == left + FieldLeft(|fields| - 1, WriteField(f, quote), LF, true, columns, forCut)
  {
    var n, last := |fields| - 1, columns[|columns| - 1];
    assert n in columns <==> n == last;
    if n == last {
      assert Picked(fields, columns) == picked + [f];
      WriteOneMore(picked, f, quote, delim, LF);
    } else {
      assert Picked(fields, columns) == picked;
      PickedSome(fields[..n], columns);
      WriteEnded(picked, quote, delim);
    }
  }

  lemma {:induction false} PickedSome(fields: seq<Field>, columns: seq<nat>)
    requires columns != [] && columns[|columns| - 1] < |fields|
    ensures Picked(fields, columns) != []
  {
    if columns[|columns| - 1] < |fields| - 1 { PickedSome(fields[..|fields| - 1], columns); }
  }

  lemma WriteEnded(fields: seq<Field>, quote: char, delim: char)
    requires fields != []
    ensures WriteFields(fields, quote, delim, LF) == Unended(fields, quote, delim) + [LF]
  {
  }

  lemma {:induction false} RecordTaken(fields: seq<Field>, quote: char, delim: char,
                                       text: string, field: Word, record: Word, columns: seq<nat>, forCut: bool)
    requires columns != [] && Increasing(columns) && columns[|columns| - 1] < |fields|
    requires RecordMarked(fields, quote, delim, true, text, field, record)
    ensures ColumnIn(0, field, record, |field|) == 0
    ensures Taken(0, text, field, record, columns, forCut) == RecordLeft(fields, columns, forCut, quote, delim)
  {
    var n := |fields| - 1;
    var w, before := WriteField(fields[n], quote), WriteFields(fields[..n], quote, delim, delim);
    var field', record' := FieldEnds(fields[..n], quote, true, true), FieldEnds(fields[..n], quote, false, false);
    var picked := Picked(fields[..n], columns);
    Marked(fields[..n], quote, delim, false);
    InnerFieldsTaken(fields[..n], quote, delim, before, field', record', columns, forCut, picked);
    MarkedOneMore(fields, quote, delim, true, text, field, record, before, field', record', w);
    MoreTaken(before, field', record', n, w, LF, true, columns, forCut, text, field, record);
    LastLeft(fields, columns, forCut, quote, delim, picked, fields[n],
             Left(n, picked, columns, forCut, quote, delim));
  }

  // ------------------------------------------------------------------ the table

  /** Every record has more fields than the largest selected column. */
  ghost predicate AllReach(records: seq<seq<Field>>, last: nat) {
    forall i :: 0 <= i < |records| ==> last < |records[i]|
  }

  function TableLeft(records: seq<seq<Field>>, columns: seq<nat>, forCut: bool, quote: char, delim: char): (r: string)
    requires columns != []
  {
    if records == [] then ""
    else
      var n := |records| - 1;
      TableLeft(records[..n], columns, forCut, quote, delim) + RecordLeft(records[n], columns, forCut, quote, delim)
  }

  /** The marks of a table. */
  ghost predicate TableMarked(records: seq<seq<Field>>, quote: char, delim: char,
                              text: string, field: Word, record: Word) {
    && text == Write(records, quote, delim)
    && field == RecordEnds(records, quote, true, true) && record == RecordEnds(records, quote, false, true)
    && |text| == |field| == |record|
  }

  lemma {:induction false} MarkedTable(records: seq<seq<Field>>, quote: char, delim: char)
    ensures TableMarked(records, quote, delim, Write(records, quote, delim),
                        RecordEnds(records, quote, true, true), RecordEnds(records, quote, false, true))
    decreases |records|
  {
    if |records| > 0 {
      var n := |records| - 1;
      MarkedTable(records[..n], quote, delim);
      Marked(records[n], quote, delim, true);
    }
  }

  lemma {:induction false} TableTaken(records: seq<seq<Field>>, quote: char, delim: char,
                                      text: string, field: Word, record: Word, columns: seq<nat>, forCut: bool)
    requires columns != [] && Increasing(columns) && AllReach(records, columns[|columns| - 1])
    requires TableMarked(records, quote, delim, text, field, record)
    ensures ColumnIn(0, field, record, |field|) == 0
    ensures Taken(0, text, field, record, columns, forCut) == TableLeft(records, columns, forCut, quote, delim)
    decreases |records|
  {
    if records != [] {
      var n := |records| - 1;
      var before, w := Write(records[..n], quote, delim), WriteFields(records[n], quote, delim, LF);
      var field', record' := RecordEnds(records[..n], quote, true, true), RecordEnds(records[..n], quote, false, true);
      var f, r := FieldEnds(records[n], quote, true, true), FieldEnds(records[n], quote, false, true);
      MarkedTable(records[..n], quote, delim);
      Marked(records[n], quote, delim, true);
      TableTaken(records[..n], quote, delim, before, field', record', columns, forCut);
      RecordTaken(records[n], quote, delim, w, f, r, columns, forCut);
      TakenConcat(0, before, field', record', w, f, r, columns, forCut, 0);
      ColumnConcat(0, field', record', f, r, |f|);
    }
  }

  /** A record of n fields has all the columns. */
  ghost predicate AllBelow(columns: seq<nat>, n: nat) {
    forall j :: 0 <= j < |columns| ==> columns[j] < n
  }

  /** The selected columns of a record. */
  function Chosen(fields: seq<Field>, columns: seq<nat>): (r: seq<Field>)
    requires AllBelow(columns, |fields|)
  {
    seq(|columns|, j requires 0 <= j < |columns| => fields[columns[j]])
  }

  /** The fields picked are the selected ones. */
  lemma {:induction false} PickedIs(fields: seq<Field>, columns: seq<nat>)
    requires Increasing(columns) && AllBelow(columns, |fields|)
    ensures Picked(fields, columns) == Chosen(fields, columns)
    decreases |fields|
  {
    if fields != [] {
      var n, m := |fields| - 1, |columns| - 1;
      if n in columns {
        LastIs(columns, n);
        PickedIs(fields[..n], columns[..m]);
        PickedBelow(fields[..n], columns);
        ChosenLast(fields, columns);
      } else {
        NotLast(columns, n);
        PickedIs(fields[..n], columns);
      }
    }
  }

  lemma {:induction false} ChosenLast(fields: seq<Field>, columns: seq<nat>)
    requires fields != [] && columns != [] && AllBelow(columns, |fields|)
    requires columns[|columns| - 1] == |fields| - 1 && AllBelow(columns[..|columns| - 1], |fields| - 1)
    ensures Chosen(fields, columns)
         == Chosen(fields[..|fields| - 1], columns[..|columns| - 1]) + [fields[|fields| - 1]]
  {
  }

  lemma {:induction false} LastIs(columns: seq<nat>, n: nat)
    requires Increasing(columns) && AllBelow(columns, n + 1) && n in columns
    ensures columns[|columns| - 1] == n
    ensures AllBelow(columns[..|columns| - 1], n) && Increasing(columns[..|columns| - 1])
  {
    var m := |columns| - 1;
    var j :| 0 <= j < |columns| && columns[j] == n;
    assert columns[j] <= columns[m] < n + 1;
    forall i | 0 <= i < m
      ensures columns[..m][i] < n
    {
      assert columns[i] < columns[m];
    }
  }

  lemma {:induction false} NotLast(columns: seq<nat>, n: nat)
    requires AllBelow(columns, n + 1) && n !in columns
    ensures AllBelow(columns, n)
  {
    forall j | 0 <= j < |columns|
      ensures columns[j] < n
    {
      assert columns[j] in columns;
    }
  }

  /** A column past the end of the record picks nothing. */
  lemma {:induction false} PickedBelow(fields: seq<Field>, columns: seq<nat>)
    requires columns != [] && columns[|columns| - 1] >= |fields|
    ensures Picked(fields, columns[..|columns| - 1]) == Picked(fields, columns)
    decreases |fields|
  {
    if fields != [] {
      assert columns == columns[..|columns| - 1] + [columns[|columns| - 1]];
      PickedBelow(fields[..|fields| - 1], columns);
    }
  }

  /** The table with the selected columns only. */
  function CutTable(records: seq<seq<Field>>, columns: seq<nat>): (r: seq<seq<Field>>)
    requires forall i :: 0 <= i < |records| ==> AllBelow(columns, |records[i]|)
  {
    seq(|records|, i requires 0 <= i < |records| => Chosen(records[i], columns))
  }

  lemma {:induction false} ReachAll(records: seq<seq<Field>>, columns: seq<nat>)
    requires columns != [] && Increasing(columns) && AllReach(records, columns[|columns| - 1])
    ensures forall i :: 0 <= i < |records| ==> AllBelow(columns, |records[i]|)
  {
  }

  lemma {:induction false} CutWritten(records: seq<seq<Field>>, columns: seq<nat>, quote: char, delim: char)
    requires columns != [] && Increasing(columns) && AllReach(records, columns[|columns| - 1])
    ensures forall i :: 0 <= i < |records| ==> AllBelow(columns, |records[i]|)
    ensures TableLeft(records, columns, true, quote, delim) == Write(CutTable(records, columns), quote, delim)
    decreases |records|
  {
    if records != [] {
      var n := |records| - 1;
      ReachAll(records, columns);
      CutWritten(records[..n], columns, quote, delim);
      PickedIs(records[n], columns);
      assert CutTable(records, columns)[..n] == CutTable(records[..n], columns);
    }
  }

  // ------------------------------------------------------------------ every record has the columns

  ghost predicate Reaches(field: Word, record: Word, last: nat)
    requires |field| == |record|
  {
    forall q :: 0 <= q < |record| && record[q] ==> ColumnIn(0, field, record, q) >= last
  }

  lemma {:induction false} ReachesConcat(field: Word, record: Word, field': Word, record': Word, last: nat)
    requires |field| == |record| && |field'| == |record'|
    requires Reaches(field, record, last) && Reaches(field', record', last)
    requires ColumnIn(0, field, record, |field|) == 0
    ensures Reaches(field + field', record + record', last)
  {
    forall q | 0 <= q < |record + record'| && (record + record')[q]
      ensures ColumnIn(0, field + field', record + record', q) >= last
    {
      if q < |record| {
        ColumnPrefix(0, field, record, field', record', q);
      } else {
        ColumnConcat(0, field, record, field', record', q - |record|);
      }
    }
  }

  lemma {:induction false} NoRecordEnds(fields: seq<Field>, quote: char)
    ensures true !in FieldEnds(fields, quote, false, false)
    decreases |fields|
  {
    if fields != [] { NoRecordEnds(fields[..|fields| - 1], quote); }
  }

  lemma {:induction false} OneEnd(field: Word, record: Word, m: nat, last: nat)
    requires |field| == |record| && true !in record && ColumnIn(0, field, record, |field|) >= last
    ensures Reaches(field + Zeros(m) + [true], record + Zeros(m) + [true], last)
  {
    var f, r := Zeros(m) + [true], Zeros(m) + [true];
    Regroup(field, Zeros(m), [true]);
    Regroup(record, Zeros(m), [true]);
    var c := ColumnIn(0, field, record, |field|);
    ColumnPrefix(c, Zeros(m), Zeros(m), [true], [true], m);
    ColumnOfField(c, m, Zeros(m), m);
    ColumnConcat(0, field, record, f, r, m);
    forall q | 0 <= q < |record + r| && (record + r)[q]
      ensures ColumnIn(0, field + f, record + r, q) >= last
    {
      assert q == |record| + m;
    }
  }

  lemma {:induction false} RecordReaches(fields: seq<Field>, quote: char, delim: char, last: nat)
    requires last < |fields|
    ensures var f, r := FieldEnds(fields, quote, true, true), FieldEnds(fields, quote, false, true);
            |f| == |r| > 0 && r[|r| - 1] && Reaches(f, r, last)
  {
    var n := |fields| - 1;
    var before := WriteFields(fields[..n], quote, delim, delim);
    var field', record' := FieldEnds(fields[..n], quote, true, true), FieldEnds(fields[..n], quote, false, false);
    Marked(fields[..n], quote, delim, false);
    InnerFieldsTaken(fields[..n], quote, delim, before, field', record', [0], true, Picked(fields[..n], [0]));
    NoRecordEnds(fields[..n], quote);
    OneEnd(field', record', |WriteField(fields[n], quote)|, last);
  }

  lemma {:induction false} TableReaches(records: seq<seq<Field>>, quote: char, delim: char,
                                        text: string, field: Word, record: Word, last: nat)
    requires AllReach(records, last) && TableMarked(records, quote, delim, text, field, record)
    ensures Reaches(field, record, last) && (record != [] ==> record[|record| - 1])
    decreases |records|
  {
    if records != [] {
      var n := |records| - 1;
      var field', record' := RecordEnds(records[..n], quote, true, true), RecordEnds(records[..n], quote, false, true);
      MarkedTable(records[..n], quote, delim);
      TableReaches(records[..n], quote, delim, Write(records[..n], quote, delim), field', record', last);
      RecordReaches(records[n], quote, delim, last);
      TableTaken(records[..n], quote, delim, Write(records[..n], quote, delim), field', record', [0], true);
      ReachesConcat(field', record', FieldEnds(records[n], quote, true, true),
                    FieldEnds(records[n], quote, false, true), last);
    }
  }

  // ------------------------------------------------------------------ the pipeline

  /** The streams between the kernels, with a position for the end of the file. */
  function SeparatorsOf(marks: Marks): (r: Separators)
    requires |marks.field| == |marks.record|
  {
    Separators(|marks.field|, marks.field + [false], marks.record + [false])
  }

  lemma {:induction false} SeparatorsValid(text: string, quote: char, delim: char)
    ensures SeparatorsOf(ParseText(text, quote, delim)).Valid()
  {
  }

  lemma {:induction false} ColumnsAgree(seps: Separators, field: Word, record: Word, i: nat)
    requires seps.Valid() && |field| == |record| == seps.n && i <= seps.n
    requires seps.field == field + [false] && seps.record == record + [false]
    ensures seps.Column(i) == ColumnIn(0, field, record, i)
  {
    if i > 0 { ColumnsAgree(seps, field, record, i - 1); }
  }

  lemma {:induction false} SeparatorsReach(seps: Separators, field: Word, record: Word, last: nat)
    requires seps.Valid() && |field| == |record| == seps.n && Reaches(field, record, last)
    requires seps.field == field + [false] && seps.record == record + [false]
    requires record != [] ==> record[|record| - 1]
    ensures seps.HasColumn(last)
  {
    forall q | 0 <= q < seps.n && seps.record[q]
      ensures seps.Column(q) >= last
    {
      ColumnsAgree(seps, field, record, q);
    }
  }

  lemma {:induction false} MaskIsKept(seps: Separators, field: Word, record: Word, columns: seq<nat>, forCut: bool,
                                      mask: Word)
    requires seps.Valid() && |field| == |record| == seps.n == |mask| && columns != []
    requires seps.field == field + [false] && seps.record == record + [false]
    requires forall i :: 0 <= i < seps.n ==> mask[i] == Keep(seps, columns, forCut, i)
    ensures mask == KeptIn(0, field, record, columns, forCut)
  {
    forall i | 0 <= i < seps.n
      ensures mask[i] == KeptIn(0, field, record, columns, forCut)[i]
    {
      ColumnsAgree(seps, field, record, i);
    }
  }

  lemma {:induction false} TableReady(records: seq<seq<Field>>, quote: char, delim: char, text: string, last: nat,
                                      seps: Separators)
    requires quote != delim && quote != LF && delim != LF && AllWritable(records, quote, delim)
    requires text == Write(records, quote, delim) && AllReach(records, last)
    requires seps == SeparatorsOf(ParseText(text, quote, delim))
    ensures seps.Valid() && seps.HasColumn(last)
  {
    var marks := ParseText(text, quote, delim);
    SeparatorsValid(text, quote, delim);
    ParseWritten(records, quote, delim);
    MarkedTable(records, quote, delim);
    TableReaches(records, quote, delim, text, marks.field, marks.record, last);
    SeparatorsReach(seps, marks.field, marks.record, last);
  }

  lemma {:induction false} TableFiltered(records: seq<seq<Field>>, quote: char, delim: char, text: string,
                                         seps: Separators, columns: seq<nat>, forCut: bool, toKeep: Word)
    requires quote != delim && quote != LF && delim != LF && AllWritable(records, quote, delim)
    requires text == Write(records, quote, delim) && columns != [] && Increasing(columns)
    requires AllReach(records, columns[|columns| - 1])
    requires seps == SeparatorsOf(ParseText(text, quote, delim)) && seps.Valid() && |toKeep| == seps.n + 1
    requires forall i :: 0 <= i < seps.n ==> toKeep[i] == Keep(seps, columns, forCut, i)
    ensures |text| == seps.n
    ensures Filter(text, toKeep[..seps.n]) == TableLeft(records, columns, forCut, quote, delim)
  {
    var marks := ParseText(text, quote, delim);
    ParseWritten(records, quote, delim);
    MarkedTable(records, quote, delim);
    MaskIsKept(seps, marks.field, marks.record, columns, forCut, toKeep[..seps.n]);
    TableTaken(records, quote, delim, text, marks.field, marks.record, columns, forCut);
  }

  /** The pipeline that csvcut and csvgrep begin with. */
  method SelectColumns(text: string, quote: char, delim: char, columns: seq<nat>, forCut: bool,
                       ghost records: seq<seq<Field>>) returns (selected: string)
    requires quote != delim && quote != LF && delim != LF && columns != []
    requires AllWritable(records, quote, delim) && text == Write(records, quote, delim)
    requires AllReach(records, Reached(columns, |columns| - 1))
    ensures selected == TableLeft(records, Selected(columns), forCut, quote, delim)
  {
    var seps := SeparatorsOf(ParseText(text, quote, delim));
    TableReady(records, quote, delim, text, Reached(columns, |columns| - 1), seps);
    var toKeep := SelectMultiField(seps, columns, forCut);
    SelectedIncreasing(columns);
    TableFiltered(records, quote, delim, text, seps, Selected(columns), forCut, toKeep);
    selected := Filter(text, toKeep[..seps.n]);
  }

  /** csvcut: the output is the table written with the selected columns only, whatever the fields contain. */
  method CsvCut(text: string, quote: char, delim: char, columns: seq<nat>, ghost records: seq<seq<Field>>)
      returns (cut: string)
    requires quote != delim && quote != LF && delim != LF && columns != []
    requires AllWritable(records, quote, delim) && text == Write(records, quote, delim)
    requires AllReach(records, Reached(columns, |columns| - 1))
    ensures forall i :: 0 <= i < |records| ==> AllBelow(Selected(columns), |records[i]|)
    ensures cut == Write(CutTable(records, Selected(columns)), quote, delim)
  {
    cut := SelectColumns(text, quote, delim, columns, true, records);
    SelectedIncreasing(columns);
    CutWritten(records, Selected(columns), quote, delim);
  }
}
