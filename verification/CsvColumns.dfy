/** SelectMultiField::generatePabloMethod: the mask of the bytes that belong to selected columns, against a
    selector that looks at one position at a time.

    The streams have one position per byte of the file and one more for the end of file. */
module CsvColumns {
  import opened BitWords
  import opened Selection
  import opened StreamScan
  import opened IndexedAdvance

  /** Separator streams of a file of n bytes: every record separator is also a field separator. */
  datatype Separators = Separators(n: nat, field: Word, record: Word)
  {
    ghost predicate Valid() {
      && |field| == |record| == n + 1
      && !field[n]
      && forall i :: 0 <= i <= n && record[i] ==> field[i]
    }

    /** Where the record of position i starts. */
    function RecordStart(i: nat): (r: nat)
      requires Valid() && i <= n
      ensures r <= i
    {
      if i == 0 then 0 else if record[i - 1] then i else RecordStart(i - 1)
    }

    /** The number of the column that position i belongs to; a separator belongs to the column it ends. */
    function Column(i: nat): (r: nat)
      requires Valid() && i <= n
    {
      if i == 0 || record[i - 1] then 0 else Column(i - 1) + if field[i - 1] then 1 else 0
    }

    predicate FieldStart(i: nat)
      requires Valid() && i <= n
    {
      i == 0 || field[i - 1]
    }

    /** Every record has more than `max` fields; a record is ended by a separator or by the end of file. */
    ghost predicate HasColumn(max: nat)
      requires Valid()
    {
      && (forall q :: 0 <= q < n && record[q] ==> Column(q) >= max)
      && (n > 0 && !record[n - 1] ==> Column(n) >= max)
    }

    /** The starts of column c. */
    function Starts(c: nat): (r: Word)
      requires Valid()
      ensures |r| == n + 1
    {
      seq(n + 1, i requires 0 <= i <= n => FieldStart(i) && Column(i) == c)
    }

    function FieldStarts(): (r: Word)
      requires Valid()
      ensures |r| == n + 1
    {
      seq(n + 1, i requires 0 <= i <= n => FieldStart(i))
    }

    /** Field separators and the end of file. */
    function Stops(): (r: Word)
      requires Valid()
      ensures |r| == n + 1
    {
      seq(n + 1, i requires 0 <= i <= n => field[i] || i == n)
    }
  }

  /** The selector: what to do with byte i. */
  predicate Keep(seps: Separators, columns: seq<nat>, forCut: bool, i: nat)
    requires seps.Valid() && i < seps.n && |columns| > 0
  {
    || (seps.Column(i) in columns
        && !(forCut && seps.field[i] && seps.Column(i) == columns[|columns| - 1]))
    || (forCut && seps.record[i])
  }

  // ------------------------------------------------------------------ scanning from column starts

  /** A mark runs exactly while its column runs. */
  lemma {:induction false} PendingColumn(seps: Separators, c: nat, i: nat)
    requires seps.Valid() && i <= seps.n
    ensures Pending(seps.Starts(c), seps.Stops(), i) == (!seps.FieldStart(i) && seps.Column(i) == c)
  {
    if i > 0 { PendingColumn(seps, c, i - 1); }
  }

  lemma {:induction false} StartsNoOverlap(seps: Separators, c: nat)
    requires seps.Valid()
    ensures NoOverlap(seps.Starts(c), seps.Stops())
  {
    forall i | 0 <= i <= seps.n
      ensures !(seps.Starts(c)[i] && Pending(seps.Starts(c), seps.Stops(), i))
    {
      PendingColumn(seps, c, i);
    }
  }

  /** From the starts of a column: the separators that end it, and the bytes of it. */
  lemma {:induction false} ColumnFollowAndMask(seps: Separators, c: nat, i: nat)
    requires seps.Valid() && i <= seps.n
    ensures ScanTo(seps.Starts(c), seps.Stops())[i] == (seps.Stops()[i] && seps.Column(i) == c)
    ensures SpanUpTo(seps.Starts(c), ScanTo(seps.Starts(c), seps.Stops()))[i]
         == (!seps.Stops()[i] && seps.Column(i) == c)
  {
    StartsNoOverlap(seps, c);
    PendingColumn(seps, c, i);
    ScanToAt(seps.Starts(c), seps.Stops(), i);
    SpanUpToAt(seps.Starts(c), seps.Stops(), i);
  }

  lemma NextStart(seps: Separators, c: nat, max: nat, i: nat)
    requires seps.Valid() && seps.HasColumn(max) && c < max && 0 < i <= seps.n
    ensures (seps.Stops()[i - 1] && seps.Column(i - 1) == c) == (seps.FieldStart(i) && seps.Column(i) == c + 1)
  {
  }

  /** Stepping over the separators of a column that is not the last of its record reaches the next column. */
  lemma {:induction false} NextColumnStarts(seps: Separators, c: nat, max: nat)
    requires seps.Valid() && seps.HasColumn(max) && c < max
    ensures Shl(ScanTo(seps.Starts(c), seps.Stops()), 1) == seps.Starts(c + 1)
  {
    var follow := ScanTo(seps.Starts(c), seps.Stops());
    forall i | 0 <= i <= seps.n
      ensures Shl(follow, 1)[i] == seps.Starts(c + 1)[i]
    {
      if i > 0 {
        ColumnFollowAndMask(seps, c, i - 1);
        NextStart(seps, c, max, i);
      }
    }
  }

  // ------------------------------------------------------------------ moving by several columns

  /** Field starts are numbered from the start of their record by the column number. */
  lemma {:induction false} FieldRank(seps: Separators, i: nat)
    requires seps.Valid() && i <= seps.n
    ensures Rank(seps.FieldStarts(), i + 1) == Rank(seps.FieldStarts(), seps.RecordStart(i)) + 1 + seps.Column(i)
  {
    if i > 0 { FieldRank(seps, i - 1); }
  }

  /** Everything from a record's start to i is in the same record. */
  lemma {:induction false} SameRecord(seps: Separators, i: nat, j: nat)
    requires seps.Valid() && j <= i <= seps.n && seps.RecordStart(i) <= j
    ensures seps.RecordStart(j) == seps.RecordStart(i)
    decreases i
  {
    if j < i { SameRecord(seps, i - 1, j); }
  }

  /** If i lies after the record of j, the record of j has ended before i with all its columns. */
  lemma {:induction false} RecordEnded(seps: Separators, j: nat, i: nat) returns (q: nat)
    requires seps.Valid() && j <= seps.n && i <= seps.n && seps.RecordStart(i) > j
    ensures j <= q < i && seps.record[q] && seps.RecordStart(q) == seps.RecordStart(j)
    decreases i
  {
    if seps.RecordStart(i - 1) <= j {
      q := i - 1;
      SameRecord(seps, q, j);
    } else {
      q := RecordEnded(seps, j, i - 1);
    }
  }

  lemma {:induction false} StartRank(seps: Separators, i: nat)
    requires seps.Valid() && i <= seps.n && seps.FieldStart(i)
    ensures Rank(seps.FieldStarts(), i) == Rank(seps.FieldStarts(), seps.RecordStart(i)) + seps.Column(i)
  {
    FieldRank(seps, i);
  }

  /** d field starts on, but in a later record: the later column number is below d ... */
  lemma {:induction false} LaterRecordColumn(seps: Separators, d: nat, p: nat, p': nat)
    requires seps.Valid() && p <= seps.n && p' <= seps.n
    requires seps.FieldStart(p) && seps.FieldStart(p') && seps.RecordStart(p') > p
    requires Rank(seps.FieldStarts(), p') == Rank(seps.FieldStarts(), p) + d
    ensures seps.Column(p') < d
  {
    StartRank(seps, p');
    RankStrict(seps.FieldStarts(), p, seps.RecordStart(p'));
  }

  lemma {:induction false} EndedRank(seps: Separators, max: nat, p: nat, q: nat, p': nat)
    requires seps.Valid() && p <= q < p' <= seps.n
    requires seps.Column(q) >= max && seps.RecordStart(q) == seps.RecordStart(p)
    ensures Rank(seps.FieldStarts(), p') > Rank(seps.FieldStarts(), seps.RecordStart(p)) + max
  {
    FieldRank(seps, q);
    RankMonotone(seps.FieldStarts(), q + 1, p');
  }

  /** ... and the record of p ended less than d columns after p. */
  lemma {:induction false} RecordTooShort(seps: Separators, max: nat, d: nat, p: nat, p': nat)
    requires seps.Valid() && seps.HasColumn(max) && p <= seps.n && p' <= seps.n
    requires seps.FieldStart(p) && seps.RecordStart(p') > p
    requires Rank(seps.FieldStarts(), p') == Rank(seps.FieldStarts(), p) + d
    ensures seps.Column(p) + d > max
  {
    StartRank(seps, p);
    var q := RecordEnded(seps, p, p');
    EndedRank(seps, max, p, q, p');
  }

  /** d field starts after a start of column c is a start of column c + d, as long as the records have it. */
  lemma {:induction false} LaterColumn(seps: Separators, max: nat, c: nat, d: nat, p: nat, p': nat)
    requires seps.Valid() && seps.HasColumn(max) && c + d <= max && p <= seps.n && p' <= seps.n
    requires seps.FieldStart(p) && seps.FieldStart(p')
    requires Rank(seps.FieldStarts(), p') == Rank(seps.FieldStarts(), p) + d
    ensures seps.Column(p) == c <==> seps.Column(p') == c + d
  {
    if p' < p { RankStrict(seps.FieldStarts(), p', p); }
    assert p <= p';
    if seps.RecordStart(p') <= p {
      SameRecord(seps, p', p);
      StartRank(seps, p);
      StartRank(seps, p');
    } else {
      LaterRecordColumn(seps, d, p, p');
      RecordTooShort(seps, max, d, p, p');
    }
  }

  /** Position i is wanted exactly when it is an index position and the one d before it is marked. */
  ghost predicate Lands(from: Word, index: Word, d: nat, i: nat, wanted: bool)
    requires i < |from| == |index|
  {
    if index[i] then
      && Rank(index, i) < Pop(index)
      && (wanted <==> Rank(index, i) >= d && from[Select(index, Rank(index, i) - d)])
    else !wanted
  }

  /** What it takes for an advanced mark to be where it is wanted. */
  lemma {:induction false} AdvancedWhere(from: Word, index: Word, d: nat, i: nat, wanted: bool)
    requires i < |from| == |index| && Lands(from, index, d, i, wanted)
    ensures AdvanceOut(from, index, Zeros(d))[i] == wanted
  {
    AdvanceMeaning(from, index, d, i);
  }

  /** The mark d field starts back is a start of column c exactly when i is a start of column c + d. */
  lemma {:induction false} MarkBack(seps: Separators, max: nat, c: nat, d: nat, fs: Word, i: nat)
    requires seps.Valid() && seps.HasColumn(max) && c + d <= max && i <= seps.n && seps.FieldStart(i)
    requires fs == seps.FieldStarts() && d <= Rank(fs, i) < Pop(fs)
    ensures seps.Starts(c)[Select(fs, Rank(fs, i) - d)] <==> seps.Column(i) == c + d
  {
    LaterColumn(seps, max, c, d, Select(fs, Rank(fs, i) - d), i);
  }

  lemma {:induction false} ColumnLandsAt(seps: Separators, max: nat, c: nat, d: nat, from: Word, fs: Word, i: nat)
    requires seps.Valid() && seps.HasColumn(max) && c + d <= max && i <= seps.n && seps.FieldStart(i)
    requires from == seps.Starts(c) && fs == seps.FieldStarts()
    ensures Lands(from, fs, d, i, seps.Column(i) == c + d)
  {
    RankBelowPop(fs, i);
    if Rank(fs, i) >= d {
      MarkBack(seps, max, c, d, fs, i);
    } else {
      StartRank(seps, i);
    }
  }

  lemma {:induction false} ColumnLands(seps: Separators, max: nat, c: nat, d: nat, from: Word, fs: Word, i: nat)
    requires seps.Valid() && seps.HasColumn(max) && c + d <= max && i <= seps.n
    requires from == seps.Starts(c) && fs == seps.FieldStarts()
    ensures Lands(from, fs, d, i, seps.FieldStart(i) && seps.Column(i) == c + d)
  {
    if seps.FieldStart(i) {
      ColumnLandsAt(seps, max, c, d, from, fs, i);
    } else {
      assert !fs[i];
    }
  }

  lemma StartsAre(seps: Separators, c: nat, s: Word)
    requires seps.Valid() && |s| == seps.n + 1
    requires forall i :: 0 <= i <= seps.n ==> s[i] == (seps.FieldStart(i) && seps.Column(i) == c)
    ensures s == seps.Starts(c)
  {
  }

  /** Indexed advance by d over the field starts. */
  lemma {:induction false} AdvanceColumns(seps: Separators, max: nat, c: nat, d: nat)
    requires seps.Valid() && seps.HasColumn(max) && c + d <= max
    ensures AdvanceOut(seps.Starts(c), seps.FieldStarts(), Zeros(d)) == seps.Starts(c + d)
  {
    var from, fs := seps.Starts(c), seps.FieldStarts();
    forall i | 0 <= i <= seps.n
      ensures AdvanceOut(from, fs, Zeros(d))[i] == (seps.FieldStart(i) && seps.Column(i) == c + d)
    {
      ColumnLands(seps, max, c, d, from, fs, i);
      AdvancedWhere(from, fs, d, i, seps.FieldStart(i) && seps.Column(i) == c + d);
    }
    StartsAre(seps, c + d, AdvanceOut(from, fs, Zeros(d)));
  }

  /** The form used for an advance by one column. */
  function AdvanceOne(mark: Word, index: Word, eof: Word): (r: Word)
    requires |mark| == |index| == |eof|
    ensures |r| == |mark|
  {
    AdvanceThenScanTo(And(mark, index), Or(index, eof))
  }

  function Eof(n: nat): (r: Word)
    ensures |r| == n + 1
  {
    OneBit(n + 1, n, true)
  }

  lemma {:induction false} UnderwayColumn(seps: Separators, c: nat, i: nat)
    requires seps.Valid() && 0 < i <= seps.n
    ensures Underway(And(seps.Starts(c), seps.FieldStarts()), Or(seps.FieldStarts(), Eof(seps.n)), i)
         == (seps.Column(i - 1) == c)
  {
    if i > 1 { UnderwayColumn(seps, c, i - 1); }
  }

  lemma {:induction false} AdvanceOneColumn(seps: Separators, max: nat, c: nat)
    requires seps.Valid() && seps.HasColumn(max) && c < max
    ensures AdvanceOne(seps.Starts(c), seps.FieldStarts(), Eof(seps.n)) == seps.Starts(c + 1)
  {
    var from, to := And(seps.Starts(c), seps.FieldStarts()), Or(seps.FieldStarts(), Eof(seps.n));
    forall i | 0 <= i <= seps.n
      ensures AdvanceThenScanTo(from, to)[i] == seps.Starts(c + 1)[i]
    {
      AdvanceThenScanToAt(from, to, i);
      if i > 0 { UnderwayColumn(seps, c, i); }
    }
  }

  /** createIndexedAdvance: nothing for zero, an advance and scan for one, the indexed advance otherwise. */
  function CreateIndexedAdvance(mark: Word, index: Word, d: nat, eof: Word): (r: Word)
    requires |mark| == |index| == |eof|
    ensures |r| == |mark|
  {
    if d == 0 then mark
    else if d == 1 then AdvanceOne(mark, index, eof)
    else AdvanceOut(mark, index, Zeros(d))
  }

  // ------------------------------------------------------------------ the program

  /** The bytes kept for the first k of the columns, before the cut to the file. */
  predicate KeptBy(seps: Separators, columns: seq<nat>, forCut: bool, k: nat, i: nat)
    requires seps.Valid() && i < seps.n && k <= |columns|
  {
    || (seps.Column(i) in columns[..k]
        && !(forCut && k == |columns| && k > 0 && seps.field[i] && seps.Column(i) == columns[k - 1]))
    || (forCut && k == |columns| && k > 0 && seps.record[i])
  }

  ghost predicate Increasing(columns: seq<nat>) {
    forall i, j :: 0 <= i < j < |columns| ==> columns[i] < columns[j]
  }

  lemma {:induction false} KeepStep(seps: Separators, columns: seq<nat>, forCut: bool, k: nat, i: nat, kept: bool)
    requires seps.Valid() && i < seps.n && k < |columns| && Increasing(columns)
    requires kept == KeptBy(seps, columns, forCut, k, i)
    ensures var c := columns[k];
            var mask := !seps.Stops()[i] && seps.Column(i) == c;
            var follow := if forCut && k == |columns| - 1 then seps.record[i]
                         else seps.Stops()[i] && seps.Column(i) == c;
            (kept || mask || follow) == KeptBy(seps, columns, forCut, k + 1, i)
  {
    assert columns[..k + 1] == columns[..k] + [columns[k]];
    if seps.Column(i) in columns[..k] {
      var j :| 0 <= j < k && columns[j] == seps.Column(i);
    }
  }

  ghost predicate KeptSoFar(seps: Separators, columns: seq<nat>, forCut: bool, k: nat, toKeep: Word)
    requires seps.Valid() && k <= |columns|
  {
    |toKeep| == seps.n + 1 && forall i :: 0 <= i < seps.n ==> toKeep[i] == KeptBy(seps, columns, forCut, k, i)
  }

  /** What a round of the loop adds: the bytes of the column and a separator stream. */
  function AddColumn(toKeep: Word, mark: Word, follow: Word, separators: Word): (r: Word)
    requires |toKeep| == |mark| == |follow| == |separators|
    ensures |r| == |toKeep|
  {
    Or(Or(toKeep, SpanUpTo(mark, follow)), separators)
  }

  /** One round of the loop: the marks at the starts of column c give its separators and its bytes. */
  lemma {:induction false} KeepRound(seps: Separators, columns: seq<nat>, forCut: bool, k: nat, toKeep: Word,
                                     mark: Word, follow: Word)
    requires seps.Valid() && k < |columns| && Increasing(columns) && KeptSoFar(seps, columns, forCut, k, toKeep)
    requires mark == seps.Starts(columns[k]) && follow == ScanTo(mark, seps.Stops())
    ensures var r := AddColumn(toKeep, mark, follow, if forCut && k == |columns| - 1 then seps.record else follow);
            KeptSoFar(seps, columns, forCut, k + 1, r)
  {
    var r := AddColumn(toKeep, mark, follow, if forCut && k == |columns| - 1 then seps.record else follow);
    forall i | 0 <= i < seps.n
      ensures r[i] == KeptBy(seps, columns, forCut, k + 1, i)
    {
      ColumnFollowAndMask(seps, columns[k], i);
      KeepStep(seps, columns, forCut, k, i, toKeep[i]);
    }
  }

  lemma RecordStartMarks(seps: Separators)
    requires seps.Valid()
    ensures Not(Shl(Not(seps.record), 1)) == seps.Starts(0)
    ensures Not(Shl(Not(seps.field), 1)) == seps.FieldStarts()
  {
  }

  lemma StopsAreFieldsAndEof(seps: Separators)
    requires seps.Valid()
    ensures Or(seps.field, Eof(seps.n)) == seps.Stops()
  {
  }

  lemma {:induction false} MarkColumn(seps: Separators, max: nat, c: nat, d: nat)
    requires seps.Valid() && seps.HasColumn(max) && c + d <= max
    ensures CreateIndexedAdvance(seps.Starts(c), seps.FieldStarts(), d, Eof(seps.n)) == seps.Starts(c + d)
  {
    if d == 1 {
      AdvanceOneColumn(seps, max, c);
    } else if d > 1 {
      AdvanceColumns(seps, max, c, d);
    }
  }

  /** The column that entry i of the list selects: the mark never goes back, and always moves on by one column. */
  function Reached(columns: seq<nat>, i: nat): (r: nat)
    requires i < |columns|
  {
    if i == 0 then columns[0]
    else Reached(columns, i - 1) + if columns[i] > columns[i - 1] then columns[i] - columns[i - 1] else 1
  }

  function Selected(columns: seq<nat>): (r: seq<nat>)
    ensures |r| == |columns|
  {
    seq(|columns|, i requires 0 <= i < |columns| => Reached(columns, i))
  }

  lemma {:induction false} ReachedGrows(columns: seq<nat>, i: nat, j: nat)
    requires i < j < |columns|
    ensures Reached(columns, i) < Reached(columns, j)
    ensures Reached(columns, j) + columns[i] >= Reached(columns, i) + columns[j]
  {
    if i < j - 1 { ReachedGrows(columns, i, j - 1); }
  }

  lemma {:induction false} SelectedIncreasing(columns: seq<nat>)
    ensures Increasing(Selected(columns))
  {
    forall i, j | 0 <= i < j < |columns|
      ensures Selected(columns)[i] < Selected(columns)[j]
    {
      ReachedGrows(columns, i, j);
    }
  }

  lemma {:induction false} ReachedIncreasing(columns: seq<nat>, i: nat)
    requires i < |columns| && Increasing(columns)
    ensures Reached(columns, i) == columns[i]
  {
    if i > 0 { ReachedIncreasing(columns, i - 1); }
  }

  /** The columns selected are those in the list exactly when the list is strictly increasing. */
  lemma {:induction false} SelectedExactly(columns: seq<nat>)
    ensures (forall c :: c in Selected(columns) <==> c in columns) <==> Increasing(columns)
  {
    if Increasing(columns) {
      forall i | 0 <= i < |columns|
        ensures Selected(columns)[i] == columns[i]
      {
        ReachedIncreasing(columns, i);
      }
      assert Selected(columns) == columns;
    } else {
      TooFar(columns);
    }
  }

  /** Otherwise the last column selected is beyond every column of the list. */
  lemma {:induction false} TooFar(columns: seq<nat>)
    requires !Increasing(columns)
    ensures columns != [] && Selected(columns)[|columns| - 1] !in columns
  {
    var n := |columns| - 1;
    var i, j :| 0 <= i < j <= n && columns[i] >= columns[j];
    FirstReached(columns, i);
    ReachedGrows(columns, i, j);
    if j < n { ReachedGrows(columns, j, n); }
    assert Reached(columns, n) > columns[n];
    forall m | 0 <= m < n
      ensures Reached(columns, n) != columns[m]
    {
      FirstReached(columns, m);
      ReachedGrows(columns, m, n);
    }
  }

  lemma {:induction false} FirstReached(columns: seq<nat>, i: nat)
    requires i < |columns|
    ensures Reached(columns, i) >= columns[i]
  {
    if i > 0 { FirstReached(columns, i - 1); }
  }

  /** The column after the one that the entry before i selects. */
  function NextMark(columns: seq<nat>, i: nat): (r: nat)
    requires i < |columns|
  {
    if i == 0 then 0 else Reached(columns, i - 1) + 1
  }

  lemma {:induction false} MoveOn(columns: seq<nat>, i: nat, nextCol: nat)
    requires i < |columns| && nextCol == if i == 0 then 0 else columns[i - 1] + 1
    ensures Reached(columns, i) == NextMark(columns, i) + if columns[i] > nextCol then columns[i] - nextCol else 0
    ensures Reached(columns, i) <= Reached(columns, |columns| - 1)
    ensures i + 1 < |columns| ==> Reached(columns, i) < Reached(columns, |columns| - 1)
  {
    if i + 1 < |columns| { ReachedGrows(columns, i, |columns| - 1); }
  }

  /** The body of the loop, for entry i of the list. */
  method SelectColumn(seps: Separators, columns: seq<nat>, forCut: bool, i: nat, fieldStarts: Word, nextCol: nat,
                      columnMark: Word, toKeep: Word)
      returns (columnMark': Word, toKeep': Word)
    requires seps.Valid() && i < |columns| && seps.HasColumn(Reached(columns, |columns| - 1))
    requires fieldStarts == seps.FieldStarts() && columnMark == seps.Starts(NextMark(columns, i))
    requires nextCol == if i == 0 then 0 else columns[i - 1] + 1
    requires KeptSoFar(seps, Selected(columns), forCut, i, toKeep)
    ensures KeptSoFar(seps, Selected(columns), forCut, i + 1, toKeep')
    ensures i + 1 < |columns| ==> columnMark' == seps.Starts(NextMark(columns, i + 1))
  {
    var n := seps.n;
    ghost var c, max := Reached(columns, i), Reached(columns, |columns| - 1);
    MoveOn(columns, i, nextCol);
    columnMark' := columnMark;
    MarkColumn(seps, max, NextMark(columns, i), c - NextMark(columns, i));
    if columns[i] > nextCol {
      columnMark' := CreateIndexedAdvance(columnMark, fieldStarts, columns[i] - nextCol, Eof(n));
    }
    StopsAreFieldsAndEof(seps);
    var columnFollow := ScanTo(columnMark', Or(seps.field, Eof(n)));
    SelectedIncreasing(columns);
    KeepRound(seps, Selected(columns), forCut, i, toKeep, columnMark', columnFollow);
    var columnMask := SpanUpTo(columnMark', columnFollow);
    toKeep' := Or(toKeep, columnMask);
    if i + 1 < |columns| { NextColumnStarts(seps, c, max); }
    columnMark' := Shl(columnFollow, 1);
    toKeep' := Or(toKeep', if forCut && i == |columns| - 1 then seps.record else columnFollow);
  }

  /** The column mask keeps exactly what the selector keeps. */
  method SelectMultiField(seps: Separators, columns: seq<nat>, forCut: bool) returns (toKeep: Word)
    requires seps.Valid() && |columns| > 0 && seps.HasColumn(Reached(columns, |columns| - 1))
    ensures |toKeep| == seps.n + 1 && !toKeep[seps.n]
    ensures forall i :: 0 <= i < seps.n ==> toKeep[i] == Keep(seps, Selected(columns), forCut, i)
  {
    var recordStarts := Not(Shl(Not(seps.record), 1));
    var fieldStarts := Not(Shl(Not(seps.field), 1));
    RecordStartMarks(seps);
    var columnMark := recordStarts;
    toKeep := Zeros(seps.n + 1);
    var nextCol := 0;
    for i := 0 to |columns|
      invariant nextCol == if i == 0 then 0 else columns[i - 1] + 1
      invariant i < |columns| ==> columnMark == seps.Starts(NextMark(columns, i))
      invariant KeptSoFar(seps, Selected(columns), forCut, i, toKeep)
    {
      columnMark, toKeep := SelectColumn(seps, columns, forCut, i, fieldStarts, nextCol, columnMark, toKeep);
      nextCol := columns[i] + 1;
    }
    FinalMask(seps, Selected(columns), forCut, toKeep);
    toKeep := And(toKeep, Not(Eof(seps.n)));
  }

  lemma {:induction false} FinalMask(seps: Separators, columns: seq<nat>, forCut: bool, toKeep: Word)
    requires seps.Valid() && |columns| > 0 && KeptSoFar(seps, columns, forCut, |columns|, toKeep)
    ensures forall i :: 0 <= i < seps.n ==> And(toKeep, Not(Eof(seps.n)))[i] == Keep(seps, columns, forCut, i)
  {
    assert columns[..|columns|] == columns;
  }
}
