/** Boolean expressions handed to the solver, and the counting circuit that limits a set of block
    variables to at most one: mk_adder, mk_adder_pairs and assert_le_one. */
module BoolCircuit {
  import opened BitWords

  datatype Expr =
    | True
    | False
    | Var(id: nat)
    | Not(e: Expr)
    | And(l: Expr, r: Expr)
    | Or(l: Expr, r: Expr)
    | Or3(e1: Expr, e2: Expr, e3: Expr)
    | Xor(l: Expr, r: Expr)

  type Model = nat -> bool

  predicate Eval(e: Expr, m: Model) {
    match e
    case True => true
    case False => false
    case Var(id) => m(id)
    case Not(x) => !Eval(x, m)
    case And(l, r) => Eval(l, m) && Eval(r, m)
    case Or(l, r) => Eval(l, m) || Eval(r, m)
    case Or3(x, y, z) => Eval(x, m) || Eval(y, m) || Eval(z, m)
    case Xor(l, r) => Eval(l, m) != Eval(r, m)
  }

  function Vars(e: Expr): set<nat> {
    match e
    case True | False => {}
    case Var(id) => {id}
    case Not(x) => Vars(x)
    case And(l, r) => Vars(l) + Vars(r)
    case Or(l, r) => Vars(l) + Vars(r)
    case Or3(x, y, z) => Vars(x) + Vars(y) + Vars(z)
    case Xor(l, r) => Vars(l) + Vars(r)
  }

  lemma EvalDependsOnVars(e: Expr, m: Model, m': Model)
    requires forall v :: v in Vars(e) ==> m(v) == m'(v)
    ensures Eval(e, m) == Eval(e, m')
  {
  }

  // ----- numbers stored as consecutive bits of an array

  /** The number in the n cells from `off`, least significant bit first. */
  ghost function NumAt(s: seq<Expr>, off: nat, n: nat, m: Model): nat
    requires off + n <= |s|
  {
    if n == 0 then 0 else NumAt(s, off, n - 1, m) + Weigh(Eval(s[off + n - 1], m), Pow2(n - 1))
  }

  /** Cells taken by `count` numbers of `width` bits. */
  function Cells(width: nat, count: nat): nat {
    if count == 0 then 0 else Cells(width, count - 1) + width
  }

  /** The sum of `count` numbers of `width` bits stored one after the other. */
  ghost function Total(s: seq<Expr>, width: nat, count: nat, m: Model): nat
    requires Cells(width, count) <= |s|
  {
    if count == 0 then 0 else Total(s, width, count - 1, m) + NumAt(s, Cells(width, count - 1), width, m)
  }

  ghost predicate OnlyVars(s: seq<Expr>, lo: nat, hi: nat, vs: set<nat>)
    requires lo <= hi <= |s|
  {
    forall i :: lo <= i < hi ==> Vars(s[i]) <= vs
  }

  lemma NumAtFrame(s: seq<Expr>, s': seq<Expr>, off: nat, n: nat, m: Model)
    requires off + n <= |s| && off + n <= |s'|
    requires forall i :: off <= i < off + n ==> s[i] == s'[i]
    ensures NumAt(s, off, n, m) == NumAt(s', off, n, m)
  {
  }

  lemma {:induction false} TotalFrame(s: seq<Expr>, s': seq<Expr>, width: nat, count: nat, m: Model)
    requires Cells(width, count) <= |s| && Cells(width, count) <= |s'|
    requires forall i :: 0 <= i < Cells(width, count) ==> s[i] == s'[i]
    ensures Total(s, width, count, m) == Total(s', width, count, m)
  {
    if count > 0 {
      TotalFrame(s, s', width, count - 1, m);
      NumAtFrame(s, s', Cells(width, count - 1), width, m);
    }
  }

  /** The n-bit number at q is, under every assignment, the sum of the w-bit numbers at p1 and p2. */
  ghost predicate SumAt(out: seq<Expr>, q: nat, n: nat, ins: seq<Expr>, p1: nat, p2: nat, w: nat) {
    && q + n <= |out| && p1 + w <= |ins| && p2 + w <= |ins|
    && forall m: Model :: NumAt(out, q, n, m) == NumAt(ins, p1, w, m) + NumAt(ins, p2, w, m)
  }

  /** One full adder at weight p. */
  lemma {:induction false} FullAdder(x: Expr, y: Expr, c: Expr, p: nat, m: Model)
    ensures Weigh(Eval(Xor(Xor(x, y), c), m), p) + Weigh(Eval(Or3(And(x, y), And(x, c), And(y, c)), m), 2 * p)
         == Weigh(Eval(x, m), p) + Weigh(Eval(y, m), p) + Weigh(Eval(c, m), p)
  {
    assert Eval(Xor(x, y), m) == (Eval(x, m) != Eval(y, m));
    assert Eval(And(x, y), m) == (Eval(x, m) && Eval(y, m));
    assert Eval(And(x, c), m) == (Eval(x, m) && Eval(c, m));
    assert Eval(And(y, c), m) == (Eval(y, m) && Eval(c, m));
  }

  /** The low i bits have been added, with carry cin. */
  ghost predicate SumSoFar(out: seq<Expr>, q: nat, i: nat, cin: Expr, ins: seq<Expr>, p1: nat, p2: nat) {
    && q + i <= |out| && p1 + i <= |ins| && p2 + i <= |ins|
    && forall m: Model :: NumAt(out, q, i, m) + Weigh(Eval(cin, m), Pow2(i))
                       == NumAt(ins, p1, i, m) + NumAt(ins, p2, i, m)
  }

  lemma {:induction false} AdderStep(before: seq<Expr>, after: seq<Expr>, q: nat, i: nat, cin: Expr, ins: seq<Expr>,
                                     p1: nat, p2: nat)
    requires SumSoFar(before, q, i, cin, ins, p1, p2)
    requires q + i < |after| && p1 + i < |ins| && p2 + i < |ins|
    requires forall j :: q <= j < q + i ==> before[j] == after[j]
    requires after[q + i] == Xor(Xor(ins[p1 + i], ins[p2 + i]), cin)
    ensures var x, y := ins[p1 + i], ins[p2 + i];
            SumSoFar(after, q, i + 1, Or3(And(x, y), And(x, cin), And(y, cin)), ins, p1, p2)
  {
    var x, y := ins[p1 + i], ins[p2 + i];
    var cin', i1 := Or3(And(x, y), And(x, cin), And(y, cin)), i + 1;
    forall m: Model
      ensures NumAt(after, q, i1, m) + Weigh(Eval(cin', m), Pow2(i1)) == NumAt(ins, p1, i1, m) + NumAt(ins, p2, i1, m)
    {
      NumAtFrame(before, after, q, i, m);
      FullAdder(x, y, cin, Pow2(i), m);
      assert NumAt(before, q, i, m) + Weigh(Eval(cin, m), Pow2(i)) == NumAt(ins, p1, i, m) + NumAt(ins, p2, i, m);
    }
  }

  lemma {:induction false} AdderCarryOut(before: seq<Expr>, after: seq<Expr>, q: nat, n: nat, cin: Expr, ins: seq<Expr>,
                                         p1: nat, p2: nat)
    requires SumSoFar(before, q, n, cin, ins, p1, p2) && q + n < |after|
    requires forall j :: q <= j < q + n ==> before[j] == after[j]
    requires after[q + n] == cin
    ensures SumAt(after, q, n + 1, ins, p1, p2, n)
  {
    var n1 := n + 1;
    forall m: Model
      ensures NumAt(after, q, n1, m) == NumAt(ins, p1, n, m) + NumAt(ins, p2, n, m)
    {
      NumAtFrame(before, after, q, n, m);
      assert NumAt(before, q, n, m) + Weigh(Eval(cin, m), Pow2(n)) == NumAt(ins, p1, n, m) + NumAt(ins, p2, n, m);
    }
  }

  /** mk_adder: the full-adder chain.  For every assignment the result is the sum of the two inputs. */
  method MkAdder(numBits: nat, in_: array<Expr>, p1: nat, p2: nat, result: array<Expr>, q: nat, ghost vs: set<nat>)
    requires in_ != result
    requires p1 + numBits <= in_.Length && p2 + numBits <= in_.Length && q + numBits + 1 <= result.Length
    requires OnlyVars(in_[..], p1, p1 + numBits, vs) && OnlyVars(in_[..], p2, p2 + numBits, vs)
    modifies result
    ensures SumAt(result[..], q, numBits + 1, in_[..], p1, p2, numBits)
    ensures OnlyVars(result[..], q, q + numBits + 1, vs)
    ensures forall j :: 0 <= j < result.Length && !(q <= j < q + numBits + 1) ==> result[j] == old(result[j])
  {
    var cin := False;
    for i := 0 to numBits
      invariant Vars(cin) <= vs && OnlyVars(result[..], q, q + i, vs)
      invariant SumSoFar(result[..], q, i, cin, in_[..], p1, p2)
      invariant forall j :: 0 <= j < result.Length && !(q <= j < q + i) ==> result[j] == old(result[j])
    {
      ghost var before := result[..];
      var x, y := in_[p1 + i], in_[p2 + i];
      assert in_[..][p1 + i] == x && in_[..][p2 + i] == y;
      result[q + i] := Xor(Xor(x, y), cin);
      AdderStep(before, result[..], q, i, cin, in_[..], p1, p2);
      AdderVars(x, y, cin, vs);
      cin := Or3(And(x, y), And(x, cin), And(y, cin));
    }
    ghost var before := result[..];
    result[q + numBits] := cin;
    AdderCarryOut(before, result[..], q, numBits, cin, in_[..], p1, p2);
  }

  lemma {:induction false} AdderVars(x: Expr, y: Expr, c: Expr, vs: set<nat>)
    requires Vars(x) <= vs && Vars(y) <= vs && Vars(c) <= vs
    ensures Vars(Xor(Xor(x, y), c)) <= vs && Vars(Or3(And(x, y), And(x, c), And(y, c))) <= vs
  {
    assert Vars(Xor(x, y)) == Vars(x) + Vars(y);
    assert Vars(And(x, y)) <= vs && Vars(And(x, c)) <= vs && Vars(And(y, c)) <= vs;
  }

  lemma {:induction false} CellsIsProduct(width: nat, count: nat)
    ensures Cells(width, count) == width * count
  {
    if count > 0 {
      CellsIsProduct(width, count - 1);
    }
  }

  lemma {:induction false} CellsMonotone(width: nat, a: nat, b: nat)
    requires a <= b
    ensures Cells(width, a) <= Cells(width, b)
    decreases b
  {
    if a < b {
      CellsMonotone(width, a, b - 1);
    }
  }

  function HalfUp(n: nat): nat {
    (n + 1) / 2
  }

  /** Two layouts of numbers with the same total under every assignment. */
  ghost predicate SameTotal(out: seq<Expr>, wo: nat, co: nat, ins: seq<Expr>, wi: nat, ci: nat) {
    && Cells(wo, co) <= |out| && Cells(wi, ci) <= |ins|
    && forall m: Model :: Total(out, wo, co, m) == Total(ins, wi, ci, m)
  }

  lemma {:induction false} TwoMore(w: nat, c: nat)
    ensures Cells(w, c + 2) == Cells(w, c) + w + w
  {
    assert Cells(w, c + 1) == Cells(w, c) + w;
  }

  /** One adder circuit extends the conserved total by a pair. */
  lemma {:induction false} PairStep(before: seq<Expr>, after: seq<Expr>, ins: seq<Expr>, w: nat, i: nat, c: nat, p: nat,
                                    q: nat, n: nat)
    requires p == Cells(w, c) && q == Cells(w + 1, i) && n == w + 1
    requires p + w + w <= |ins| && q + n <= |after| == |before|
    requires SameTotal(before, n, i, ins, w, c)
    requires forall j :: 0 <= j < q ==> before[j] == after[j]
    requires SumAt(after, q, n, ins, p, p + w, w)
    ensures SameTotal(after, n, i + 1, ins, w, c + 2)
  {
    TwoMore(w, c);
    var i1, c2 := i + 1, c + 2;
    forall m: Model
      ensures Total(after, n, i1, m) == Total(ins, w, c2, m)
    {
      TotalFrame(before, after, n, i, m);
      assert NumAt(after, q, n, m) == NumAt(ins, p, w, m) + NumAt(ins, p + w, w, m);
      assert Total(before, n, i, m) == Total(ins, w, c, m);
      assert Cells(w, c + 1) == p + w;
      assert Total(ins, w, c + 1, m) == Total(ins, w, c, m) + NumAt(ins, p, w, m);
    }
  }

  /** The unpaired last number is copied with a zero appended. */
  method CopyWidened(numBits: nat, in_: array<Expr>, p: nat, out: array<Expr>, q: nat)
    requires in_ != out && p + numBits <= in_.Length && q + numBits + 1 <= out.Length
    modifies out
    ensures out[q..q + numBits] == in_[p..p + numBits] && out[q + numBits] == False
    ensures forall j :: 0 <= j < out.Length && !(q <= j < q + numBits + 1) ==> out[j] == old(out[j])
  {
    for i := 0 to numBits
      invariant out[q..q + i] == in_[p..p + i]
      invariant forall j :: 0 <= j < out.Length && !(q <= j < q + i) ==> out[j] == old(out[j])
    {
      out[q + i] := in_[p + i];
    }
    out[q + numBits] := False;
  }

  lemma {:induction false} WidenedValue(after: seq<Expr>, q: nat, ins: seq<Expr>, p: nat, w: nat, m: Model)
    requires p + w <= |ins| && q + w + 1 <= |after|
    requires after[q..q + w] == ins[p..p + w] && after[q + w] == False
    ensures NumAt(after, q, w + 1, m) == NumAt(ins, p, w, m)
  {
    NumAtCopy(ins, p, after, q, w, m);
  }

  lemma {:induction false} LastStep(before: seq<Expr>, after: seq<Expr>, ins: seq<Expr>, w: nat, h: nat, c: nat, p: nat,
                                    q: nat)
    requires p == Cells(w, c) && q == Cells(w + 1, h) && p + w <= |ins| && q + w + 1 <= |after| == |before|
    requires SameTotal(before, w + 1, h, ins, w, c)
    requires forall j :: 0 <= j < q ==> before[j] == after[j]
    requires after[q..q + w] == ins[p..p + w] && after[q + w] == False
    ensures SameTotal(after, w + 1, h + 1, ins, w, c + 1)
  {
    var w1, h1, c1 := w + 1, h + 1, c + 1;
    forall m: Model
      ensures Total(after, w1, h1, m) == Total(ins, w, c1, m)
    {
      TotalFrame(before, after, w + 1, h, m);
      WidenedValue(after, q, ins, p, w, m);
      assert Total(before, w + 1, h, m) == Total(ins, w, c, m);
    }
  }

  /** The unpaired last number of a level, in place. */
  method CopyLast(w: nat, in_: array<Expr>, p: nat, out: array<Expr>, q: nat, ghost h: nat, ghost c: nat,
                  ghost vs: set<nat>)
    requires in_ != out && p == Cells(w, c) && q == Cells(w + 1, h)
    requires p + w <= in_.Length && q + w + 1 <= out.Length
    requires OnlyVars(in_[..], 0, p + w, vs) && OnlyVars(out[..], 0, q, vs)
    requires SameTotal(out[..], w + 1, h, in_[..], w, c)
    modifies out
    ensures SameTotal(out[..], w + 1, h + 1, in_[..], w, c + 1)
    ensures OnlyVars(out[..], 0, q + w + 1, vs)
  {
    ghost var before := out[..];
    CopyWidened(w, in_, p, out, q);
    LastStep(before, out[..], in_[..], w, h, c, p, q);
    CopiedVars(before, out[..], in_[..], p, q, w, vs);
  }

  /** One adder circuit of a level, in place: the pair at p is added into the cells at q. */
  method AddPair(w: nat, in_: array<Expr>, p: nat, out: array<Expr>, q: nat, ghost i: nat, ghost c: nat,
                 ghost vs: set<nat>)
    requires in_ != out && p == Cells(w, c) && q == Cells(w + 1, i)
    requires p + w + w <= in_.Length && q + w + 1 <= out.Length
    requires OnlyVars(in_[..], p, p + w + w, vs) && OnlyVars(out[..], 0, q, vs)
    requires SameTotal(out[..], w + 1, i, in_[..], w, c)
    modifies out
    ensures SameTotal(out[..], w + 1, i + 1, in_[..], w, c + 2)
    ensures OnlyVars(out[..], 0, q + w + 1, vs)
  {
    ghost var before := out[..];
    MkAdder(w, in_, p, p + w, out, q, vs);
    PairStep(before, out[..], in_[..], w, i, c, p, q, w + 1);
  }

  /** mk_adder_pairs: one level of the adder tree.  It halves the number of numbers, widens them by one
      bit and conserves their total. */
  method MkAdderPairs(numBits: nat, numIns: nat, in_: array<Expr>, out: array<Expr>, ghost vs: set<nat>)
    returns (outNumIns: nat)
    requires in_ != out
    requires Cells(numBits, numIns) <= in_.Length && Cells(numBits + 1, HalfUp(numIns)) <= out.Length
    requires OnlyVars(in_[..], 0, Cells(numBits, numIns), vs)
    modifies out
    ensures outNumIns == HalfUp(numIns)
    ensures SameTotal(out[..], numBits + 1, outNumIns, in_[..], numBits, numIns)
    ensures OnlyVars(out[..], 0, Cells(numBits + 1, outNumIns), vs)
  {
    var outNumBits := numBits + 1;
    var i_, o_ := 0, 0;
    outNumIns := if numIns % 2 == 0 then numIns / 2 else numIns / 2 + 1;
    ghost var ins := in_[..];
    for i := 0 to numIns / 2
      invariant i_ == Cells(numBits, 2 * i) <= in_.Length && o_ == Cells(outNumBits, i) <= out.Length
      invariant SameTotal(out[..], outNumBits, i, ins, numBits, 2 * i)
      invariant OnlyVars(out[..], 0, o_, vs)
    {
      TwoMore(numBits, 2 * i);
      CellsMonotone(numBits, 2 * i + 2, numIns);
      CellsMonotone(outNumBits, i + 1, HalfUp(numIns));
      AddPair(numBits, in_, i_, out, o_, i, 2 * i, vs);
      i_ := i_ + numBits;
      i_ := i_ + numBits;
      o_ := o_ + outNumBits;
    }
    if numIns % 2 != 0 {
      assert numIns == 2 * (numIns / 2) + 1 && HalfUp(numIns) == numIns / 2 + 1;
      CopyLast(numBits, in_, i_, out, o_, numIns / 2, numIns - 1, vs);
    }
  }

  lemma {:induction false} CopiedVars(before: seq<Expr>, after: seq<Expr>, ins: seq<Expr>, p: nat, q: nat, n: nat,
                                      vs: set<nat>)
    requires p + n <= |ins| && q + n + 1 <= |after| == |before|
    requires OnlyVars(ins, 0, p + n, vs) && OnlyVars(before, 0, q, vs)
    requires forall j :: 0 <= j < q ==> before[j] == after[j]
    requires after[q..q + n] == ins[p..p + n] && after[q + n] == False
    ensures OnlyVars(after, 0, q + n + 1, vs)
  {
    forall j | q <= j < q + n
      ensures Vars(after[j]) <= vs
    {
      assert after[j] == after[q..q + n][j - q] == ins[p + (j - q)];
    }
  }

  lemma {:induction false} NumAtCopy(s: seq<Expr>, p: nat, t: seq<Expr>, q: nat, n: nat, m: Model)
    requires p + n <= |s| && q + n <= |t|
    requires s[p..p + n] == t[q..q + n]
    ensures NumAt(s, p, n, m) == NumAt(t, q, n, m)
  {
    if n > 0 {
      assert s[p..p + n - 1] == s[p..p + n][..n - 1];
      assert t[q..q + n - 1] == t[q..q + n][..n - 1];
      assert s[p + n - 1] == s[p..p + n][n - 1] == t[q + n - 1];
      NumAtCopy(s, p, t, q, n - 1, m);
    }
  }

  // ----- the final comparison

  /** get_bit(1, i): the bit index is taken modulo 32. */
  predicate GetBitOfOne(idx: nat) {
    idx % 32 == 0
  }

  /** assert_le_one: the formula built for the n bits `val`. */
  function LeOne(val: seq<Expr>): Expr
    requires |val| >= 1
  {
    if |val| == 1 then True
    else
      var i := |val| - 1;
      var out := LeOne(val[..i]);
      var notVal := Not(val[i]);
      if GetBitOfOne(i) then Or3(notVal, out, And(notVal, out)) else Or3(False, False, And(notVal, out))
  }

  /** assert_le_one as the loop that builds the formula. */
  method AssertLeOne(n: nat, val: array<Expr>) returns (out: Expr)
    requires 1 <= n <= val.Length
    ensures out == LeOne(val[..n])
  {
    out := True;
    for i := 1 to n
      invariant out == LeOne(val[..i])
    {
      var notVal := Not(val[i]);
      var i1, i2 := False, False;
      if GetBitOfOne(i) {
        i1 := notVal;
        i2 := out;
      }
      out := Or3(i1, i2, And(notVal, out));
      assert val[..i + 1][..i] == val[..i];
    }
  }

  lemma {:induction false} LeOneVars(val: seq<Expr>, vs: set<nat>)
    requires |val| >= 1 && OnlyVars(val, 0, |val|, vs)
    ensures Vars(LeOne(val)) <= vs
  {
    if |val| > 1 {
      var i := |val| - 1;
      LeOneVars(val[..i], vs);
      assert Vars(val[i]) <= vs;
      assert Vars(And(Not(val[i]), LeOne(val[..i]))) <= vs;
    }
  }

  /** Up to 32 bits the formula says that the number is at most one. */
  lemma {:induction false} LeOneCorrect(val: seq<Expr>, m: Model)
    requires 1 <= |val| <= 32
    ensures Eval(LeOne(val), m) <==> NumAt(val, 0, |val|, m) <= 1
  {
    if |val| > 1 {
      var i := |val| - 1;
      LeOneCorrect(val[..i], m);
      NumAtFrame(val[..i], val, 0, i, m);
      assert Eval(And(Not(val[i]), LeOne(val[..i])), m) == (!Eval(val[i], m) && Eval(LeOne(val[..i]), m));
      assert Pow2(i) == 2 * Pow2(i - 1);
    }
  }

  /** The number two, in n bits. */
  function Two(n: nat): seq<Expr> {
    seq(n, i => if i == 1 then True else False)
  }

  lemma {:induction false} LeOneOfTwo(n: nat, m: Model)
    requires n >= 33
    ensures Eval(LeOne(Two(n)), m) && NumAt(Two(n), 0, n, m) >= 2
  {
    assert Two(n)[..n - 1] == Two(n - 1);
    NumAtFrame(Two(n - 1), Two(n), 0, n - 1, m);
    if n == 33 {
      NumTwo(32, m);
    } else {
      LeOneOfTwo(n - 1, m);
    }
  }

  lemma {:induction false} NumTwo(n: nat, m: Model)
    requires n >= 2
    ensures NumAt(Two(n), 0, n, m) == 2
  {
    NumAtFrame(Two(n - 1), Two(n), 0, n - 1, m);
    if n == 2 {
      assert NumAt(Two(1), 0, 1, m) == 0;
      assert Pow2(1) == 2;
    } else {
      NumTwo(n - 1, m);
    }
  }

  /** The formula is right for all numbers of n bits exactly when n is at most 32; from 33 bits on the
      wrapped bit index makes it accept the number two. */
  lemma {:induction false} LeOneCorrectIff(n: nat, m: Model)
    requires n >= 1
    ensures (forall val: seq<Expr> :: |val| == n ==> (Eval(LeOne(val), m) <==> NumAt(val, 0, n, m) <= 1)) <==> n <= 32
  {
    if n <= 32 {
      forall val: seq<Expr> | |val| == n
        ensures Eval(LeOne(val), m) <==> NumAt(val, 0, n, m) <= 1
      {
        LeOneCorrect(val, m);
      }
    } else {
      LeOneOfTwo(n, m);
      assert |Two(n)| == n;
    }
  }
}
