/** The Fu & Malik MaxSAT procedure (_do_Z3_maxsat) over an oracle solver.

    What the solver says of a query is right, and when the query is unsatisfiable it names some unsatisfiable core of
    the assumptions; it may also give up.  Nothing else is known about it.  `MaxSat` returns the largest number of soft
    constraints that hold together in a model of the hard ones. */
module MaxSat {
  import opened BitWords
  import opened BoolCircuit

  /** Z3_L_TRUE, Z3_L_UNDEF, and Z3_L_FALSE with the core. */
  datatype Answer = Sat | Unknown | Unsat(core: seq<Expr>)

  /** A query: the formulas asserted at the time, the assumptions, and what the solver said. */
  datatype Query = Query(asserted: seq<Expr>, assumptions: seq<Expr>, answer: Answer)

  /** The answer to the q-th query, given the asserted formulas and the assumptions. */
  type Oracle = (nat, seq<Expr>, seq<Expr>) -> Answer

  ghost predicate Holds(h: seq<Expr>, m: Model) {
    forall i :: 0 <= i < |h| ==> Eval(h[i], m)
  }

  ghost predicate Satisfiable(h: seq<Expr>) {
    exists m: Model :: Holds(h, m)
  }

  ghost predicate CorrectAnswer(h: seq<Expr>, assumptions: seq<Expr>, a: Answer) {
    match a
    case Sat => Satisfiable(h + assumptions)
    case Unknown => true
    case Unsat(core) =>
      && (forall i :: 0 <= i < |core| ==> core[i] in assumptions)
      && !Satisfiable(h + core)
  }

  ghost predicate Honest(oracle: Oracle) {
    forall q, h, assumptions :: CorrectAnswer(h, assumptions, oracle(q, h, assumptions))
  }

  /** There is an honest oracle, even one that never gives up. */
  lemma {:induction false} HonestOracle() returns (oracle: Oracle)
    ensures Honest(oracle) && forall q, h, assumptions :: oracle(q, h, assumptions) != Unknown
  {
    oracle := (q, h, assumptions) => if Satisfiable(h + assumptions) then Sat else Unsat(assumptions);
  }

  /** The answers on record are those of the oracle. */
  ghost predicate FromOracle(oracle: Oracle, log: seq<Query>) {
    forall i :: 0 <= i < |log| ==> log[i].answer == oracle(i, log[i].asserted, log[i].assumptions)
  }

  /** The solver proxy with a record of its queries, together with the context's supply of fresh constants. */
  class Solver {
    const oracle: Oracle
    var asserted: seq<Expr>
    var log: seq<Query>
    var nextId: nat

    constructor (oracle: Oracle, hard: seq<Expr>, nextId: nat)
      ensures this.oracle == oracle && asserted == hard && this.nextId == nextId && log == []
    {
      this.oracle := oracle;
      asserted := hard;
      log := [];
      this.nextId := nextId;
    }

    method Assert(e: Expr)
      modifies this`asserted
      ensures asserted == old(asserted) + [e]
    {
      asserted := asserted + [e];
    }

    method MkFreshConst() returns (e: Expr)
      modifies this`nextId
      ensures e == Var(old(nextId)) && nextId == old(nextId) + 1
    {
      e := Var(nextId);
      nextId := nextId + 1;
    }

    method CheckAssumptions(assumptions: seq<Expr>) returns (a: Answer)
      requires Honest(oracle) && FromOracle(oracle, log)
      modifies this`log
      ensures log == old(log) + [Query(asserted, assumptions, a)] && FromOracle(oracle, log)
      ensures CorrectAnswer(asserted, assumptions, a)
    {
      a := oracle(|log|, asserted, assumptions);
      log := log + [Query(asserted, assumptions, a)];
    }
  }

  // ----- counting

  /** How many of the first n expressions hold. */
  ghost function CountTo(s: seq<Expr>, n: nat, m: Model): (c: nat)
    requires n <= |s|
    ensures c <= n
  {
    if n == 0 then 0 else CountTo(s, n - 1, m) + Bit(Eval(s[n - 1], m))
  }

  ghost function Count(s: seq<Expr>, m: Model): nat {
    CountTo(s, |s|, m)
  }

  lemma {:induction false} CellsOfBits(n: nat)
    ensures Cells(1, n) == n
  {
    if n > 0 {
      CellsOfBits(n - 1);
    }
  }

  /** One-bit numbers add up to the count. */
  lemma {:induction false} TotalOfBits(s: seq<Expr>, n: nat, m: Model)
    requires n <= |s|
    ensures Cells(1, n) == n && Total(s, 1, n, m) == CountTo(s, n, m)
  {
    CellsOfBits(n);
    if n > 0 {
      TotalOfBits(s, n - 1, m);
      assert NumAt(s, n - 1, 1, m) == Weigh(Eval(s[n - 1], m), Pow2(0));
    }
  }

  lemma {:induction false} CountFrame(s: seq<Expr>, t: seq<Expr>, n: nat, m: Model)
    requires n <= |s| && n <= |t| && forall i :: 0 <= i < n ==> s[i] == t[i]
    ensures CountTo(s, n, m) == CountTo(t, n, m)
  {
    if n > 0 {
      CountFrame(s, t, n - 1, m);
    }
  }

  // ----- at most one block variable

  /** No level of the adder tree writes more than k0 + 1 cells. */
  lemma {:induction false} ScratchBound(k0: nat, i: nat, k: nat)
    requires i >= 1 && k > 1 && Cells(i, k) <= k0 + 1 && (i == 1 ==> k == k0)
    ensures Cells(i + 1, HalfUp(k)) <= k0 + 1
  {
    CellsIsProduct(i, k);
    CellsIsProduct(i + 1, HalfUp(k));
    var h := k / 2;
    Products(i, h);
    if k % 2 == 0 {
      assert k == 2 * h && HalfUp(k) == h;
    } else {
      assert k == 2 * h + 1 && HalfUp(k) == h + 1;
    }
  }

  lemma {:induction false} Products(i: nat, h: nat)
    ensures i * (2 * h) == 2 * (i * h) && i * (2 * h + 1) == 2 * (i * h) + i
    ensures (i + 1) * h == i * h + h && (i + 1) * (h + 1) == i * h + i + h + 1
    ensures i == 1 ==> i * h == h
    ensures i >= 2 ==> i * h >= 2 * h
  {
    if i >= 2 {
      assert (i - 2) * h >= 0;
    }
  }

  /** Under every assignment the k numbers of i bits add up to the number of true block variables. */
  ghost predicate Counts(cells: seq<Expr>, i: nat, k: nat, bits: seq<Expr>, k0: nat) {
    && Cells(i, k) <= |cells| && k0 <= |bits|
    && forall m: Model :: Total(cells, i, k, m) == CountTo(bits, k0, m)
  }

  lemma {:induction false} BitsCount(cells: seq<Expr>, bits: seq<Expr>, k0: nat)
    requires k0 <= |bits| && k0 <= |cells| && cells[..k0] == bits[..k0]
    ensures Cells(1, k0) == k0 && Counts(cells, 1, k0, bits, k0)
  {
    CellsOfBits(k0);
    forall m: Model
      ensures Total(cells, 1, k0, m) == CountTo(bits, k0, m)
    {
      TotalOfBits(cells, k0, m);
      assert forall i :: 0 <= i < k0 ==> cells[i] == cells[..k0][i] == bits[..k0][i] == bits[i];
      CountFrame(cells, bits, k0, m);
    }
  }

  lemma {:induction false} LevelCounts(out: seq<Expr>, i: nat, k': nat, ins: seq<Expr>, k: nat, bits: seq<Expr>,
                                       k0: nat)
    requires SameTotal(out, i + 1, k', ins, i, k) && Counts(ins, i, k, bits, k0)
    ensures Counts(out, i + 1, k', bits, k0)
  {
    var i1 := i + 1;
    forall m: Model
      ensures Total(out, i1, k', m) == CountTo(bits, k0, m)
    {
      assert Total(ins, i, k, m) == CountTo(bits, k0, m);
    }
  }

  lemma {:induction false} FinalLevel(cells: seq<Expr>, i: nat, bits: seq<Expr>, k0: nat)
    requires 1 <= i <= 32 && i <= |cells| && Counts(cells, i, 1, bits, k0)
    ensures forall m: Model :: Eval(LeOne(cells[..i]), m) <==> CountTo(bits, k0, m) <= 1
  {
    forall m: Model
      ensures Eval(LeOne(cells[..i]), m) <==> CountTo(bits, k0, m) <= 1
    {
      LeOneCorrect(cells[..i], m);
      NumAtFrame(cells[..i], cells, 0, i, m);
      assert Total(cells, i, 1, m) == Total(cells, i, 0, m) + NumAt(cells, Cells(i, 0), i, m);
    }
  }

  lemma HalveBelowPower(k: nat, r: nat)
    requires 1 < k <= Pow2(r)
    ensures r > 0 && HalfUp(k) <= Pow2(r - 1)
  {
  }

  method CopyCells(src: array<Expr>, dst: array<Expr>, n: nat)
    requires src != dst && n <= src.Length && n <= dst.Length
    modifies dst
    ensures dst[..n] == src[..n]
  {
    for j := 0 to n
      invariant dst[..j] == src[..j]
    {
      dst[j] := src[j];
    }
  }

  /** The counting circuit over k0 block variables: two scratch buffers of k0 + 1 cells, swapped after
      every level of the adder tree, and a final comparison of the resulting single number. */
  method AtMostOne(blockVars: array<Expr>, k0: nat, ghost room: nat, ghost vs: set<nat>) returns (f: Expr)
    requires 1 < k0 <= blockVars.Length && k0 <= Pow2(room) && room <= 31
    requires OnlyVars(blockVars[..], 0, k0, vs)
    ensures forall m: Model :: Eval(f, m) <==> CountTo(blockVars[..], k0, m) <= 1
    ensures Vars(f) <= vs
  {
    ghost var bits := blockVars[..];
    var aux1 := new Expr[k0 + 1](_ => False);
    var aux2 := new Expr[k0 + 1](_ => False);
    CopyCells(blockVars, aux1, k0);
    BitsCount(aux1[..], bits, k0);
    assert forall j :: 0 <= j < k0 ==> aux1[..][j] == aux1[..k0][j] == bits[..k0][j] == bits[j];
    var i, k := 1, k0;
    while k > 1
      invariant aux1 != aux2 && fresh(aux1) && fresh(aux2) && aux1.Length == aux2.Length == k0 + 1
      invariant 1 <= i <= room + 1 && 1 <= k <= Pow2(room + 1 - i) && (i == 1 ==> k == k0)
      invariant Cells(i, k) <= k0 + 1
      invariant Counts(aux1[..], i, k, bits, k0)
      invariant OnlyVars(aux1[..], 0, Cells(i, k), vs)
      decreases k
    {
      HalveBelowPower(k, room + 1 - i);
      ScratchBound(k0, i, k);
      ghost var ins := aux1[..];
      var k' := MkAdderPairs(i, k, aux1, aux2, vs);
      LevelCounts(aux2[..], i, k', ins, k, bits, k0);
      k := k';
      aux1, aux2 := aux2, aux1;
      i := i + 1;
    }
    assert Cells(i, 1) == i;
    f := AssertLeOne(i, aux1);
    assert OnlyVars(aux1[..i], 0, i, vs);
    LeOneVars(aux1[..i], vs);
    assert aux1[..][..i] == aux1[..i];
    FinalLevel(aux1[..], i, bits, k0);
  }

  // ----- overriding variables of a model

  function Override(m: Model, u: map<nat, bool>): Model {
    (v: nat) => if v in u then u[v] else m(v)
  }

  lemma {:induction false} OverrideEval(e: Expr, m: Model, u: map<nat, bool>)
    requires Vars(e) !! u.Keys
    ensures Eval(e, Override(m, u)) == Eval(e, m)
  {
    EvalDependsOnVars(e, Override(m, u), m);
  }

  // ----- the state of the procedure

  predicate Distinct(s: seq<nat>) {
    forall i, j :: 0 <= i < |s| && 0 <= j < |s| && i != j ==> s[i] != s[j]
  }

  predicate AllBelow(s: seq<Expr>, n: nat) {
    forall i :: 0 <= i < |s| ==> forall v :: v in Vars(s[i]) ==> v < n
  }

  /** Every soft constraint i has its own auxiliary variable aux[i], which occurs nowhere but in the
      asserted clause soft[i] or aux[i]. */
  ghost predicate Guarded(h: seq<Expr>, soft: seq<Expr>, aux: seq<nat>, n: nat) {
    && |soft| == |aux|
    && AllBelow(h, n) && AllBelow(soft, n)
    && (forall i :: 0 <= i < |aux| ==> aux[i] < n)
    && Distinct(aux)
    && (forall i, j :: 0 <= i < |aux| && 0 <= j < |soft| ==> aux[i] !in Vars(soft[j]))
    && (forall i, j :: 0 <= i < |aux| && 0 <= j < |h| && aux[i] in Vars(h[j]) ==> h[j] == Or(soft[i], Var(aux[i])))
  }

  /** The assumptions: every auxiliary variable is false. */
  function Assumptions(aux: seq<nat>): seq<Expr> {
    seq(|aux|, i requires 0 <= i < |aux| => Not(Var(aux[i])))
  }

  /** The auxiliary variables set to the opposite of their soft constraints. */
  ghost function Settle(soft: seq<Expr>, aux: seq<nat>, m: Model): map<nat, bool>
    requires |soft| == |aux| && Distinct(aux)
  {
    map i | 0 <= i < |aux| :: aux[i] := !Eval(soft[i], m)
  }

  lemma SettleAt(soft: seq<Expr>, aux: seq<nat>, m: Model, i: nat)
    requires |soft| == |aux| && Distinct(aux) && i < |aux|
    ensures aux[i] in Settle(soft, aux, m) && Settle(soft, aux, m)[aux[i]] == !Eval(soft[i], m)
  {
  }

  /** Settling the auxiliary variables keeps a model a model, and changes no soft constraint. */
  lemma {:induction false} SettledModel(h: seq<Expr>, soft: seq<Expr>, aux: seq<nat>, n: nat, m: Model)
    requires Guarded(h, soft, aux, n) && Holds(h, m)
    ensures var m' := Override(m, Settle(soft, aux, m));
            && Holds(h, m')
            && forall i :: 0 <= i < |soft| ==> Eval(soft[i], m') == Eval(soft[i], m) && m'(aux[i]) == !Eval(soft[i], m)
  {
    var u := Settle(soft, aux, m);
    var m' := Override(m, u);
    forall i | 0 <= i < |soft|
      ensures Eval(soft[i], m') == Eval(soft[i], m) && m'(aux[i]) == !Eval(soft[i], m)
    {
      SettleAt(soft, aux, m, i);
      OverrideEval(soft[i], m, u);
    }
    forall j | 0 <= j < |h|
      ensures Eval(h[j], m')
    {
      if i :| 0 <= i < |aux| && aux[i] in Vars(h[j]) {
        assert h[j] == Or(soft[i], Var(aux[i]));
        assert Eval(Var(aux[i]), m') == m'(aux[i]);
      } else {
        OverrideEval(h[j], m, u);
      }
    }
  }

  /** In every model of the asserted formulas some soft constraint of an unsatisfiable core is false. */
  lemma {:induction false} CoreHasFalse(h: seq<Expr>, soft: seq<Expr>, aux: seq<nat>, n: nat, core: seq<Expr>,
                                        m: Model) returns (i: nat)
    requires Guarded(h, soft, aux, n) && Holds(h, m)
    requires CorrectAnswer(h, Assumptions(aux), Unsat(core))
    ensures i < |soft| && Not(Var(aux[i])) in core && !Eval(soft[i], m)
  {
    if forall i :: 0 <= i < |soft| && Not(Var(aux[i])) in core ==> Eval(soft[i], m) {
      SettledModel(h, soft, aux, n, m);
      var m' := Override(m, Settle(soft, aux, m));
      forall j | 0 <= j < |h + core|
        ensures Eval((h + core)[j], m')
      {
        if j >= |h| {
          var e := core[j - |h|];
          assert e in Assumptions(aux);
          var i :| 0 <= i < |aux| && e == Not(Var(aux[i]));
          assert Not(Var(aux[i])) in core;
          assert Eval(Var(aux[i]), m') == m'(aux[i]);
        }
      }
      assert Holds(h + core, m');
      assert false;
    }
    i :| 0 <= i < |soft| && Not(Var(aux[i])) in core && !Eval(soft[i], m);
  }

  // ----- one failed round

  /** The indices relaxed in a round, in increasing order. */
  ghost predicate Increasing(hits: seq<nat>, n: nat) {
    && (forall a :: 0 <= a < |hits| ==> hits[a] < n)
    && (forall a, b :: 0 <= a < b < |hits| ==> hits[a] < hits[b])
  }

  function BlockVar(base: nat, a: nat): nat { base + 2 * a }
  function NewAux(base: nat, a: nat): nat { base + 2 * a + 1 }

  /** soft' and aux' are soft and aux with the constraints at `hits` relaxed by fresh variables. */
  ghost predicate Relaxed(soft: seq<Expr>, aux: seq<nat>, hits: seq<nat>, base: nat, soft': seq<Expr>, aux': seq<nat>) {
    && |soft| == |aux| == |soft'| == |aux'|
    && Increasing(hits, |soft|)
    && (forall a :: 0 <= a < |hits| ==>
          && soft'[hits[a]] == Or(soft[hits[a]], Var(BlockVar(base, a)))
          && aux'[hits[a]] == NewAux(base, a))
    && (forall i :: 0 <= i < |soft| && i !in hits ==> soft'[i] == soft[i] && aux'[i] == aux[i])
  }

  function NewClauses(soft': seq<Expr>, aux': seq<nat>, hits: seq<nat>): seq<Expr>
    requires |soft'| == |aux'| && forall a :: 0 <= a < |hits| ==> hits[a] < |soft'|
  {
    seq(|hits|, a requires 0 <= a < |hits| => Or(soft'[hits[a]], Var(aux'[hits[a]])))
  }

  function Blocks(base: nat, k: nat): (s: seq<Expr>)
    ensures |s| == k
  {
    seq(k, a requires 0 <= a < k => Var(BlockVar(base, a)))
  }

  /** `limit` is the extra constraint of the round: at most one block variable is true. */
  ghost predicate Limits(limit: seq<Expr>, base: nat, k: nat) {
    && (forall m: Model :: Holds(limit, m) <==> Count(Blocks(base, k), m) <= 1)
    && forall j :: 0 <= j < |limit| ==> forall v :: v in Vars(limit[j]) ==>
         exists a :: 0 <= a < k && v == BlockVar(base, a)
  }

  lemma {:induction false} CountMonotone(s: seq<Expr>, t: seq<Expr>, n: nat, m: Model, m': Model)
    requires n <= |s| && n <= |t|
    requires forall i :: 0 <= i < n ==> (Eval(s[i], m) ==> Eval(t[i], m'))
    ensures CountTo(s, n, m) <= CountTo(t, n, m')
  {
    if n > 0 {
      CountMonotone(s, t, n - 1, m, m');
    }
  }

  /** One more expression holds. */
  lemma {:induction false} CountOneMore(s: seq<Expr>, t: seq<Expr>, n: nat, k: nat, m: Model, m': Model)
    requires k < n <= |s| && n <= |t|
    requires forall i :: 0 <= i < n ==> (Eval(s[i], m) ==> Eval(t[i], m'))
    requires !Eval(s[k], m) && Eval(t[k], m')
    ensures CountTo(s, n, m) + 1 <= CountTo(t, n, m')
  {
    if k == n - 1 {
      CountMonotone(s, t, n - 1, m, m');
    } else {
      CountOneMore(s, t, n - 1, k, m, m');
    }
  }

  lemma {:induction false} CountSingle(s: seq<Expr>, n: nat, k: nat, m: Model)
    requires n <= |s|
    requires forall i :: 0 <= i < n && i != k ==> !Eval(s[i], m)
    ensures CountTo(s, n, m) <= if k < n then 1 else 0
  {
    if n > 0 {
      CountSingle(s, n - 1, k, m);
    }
  }

  /** The values given to the fresh variables of a round: only block variable a is true. */
  function Relieve(base: nat, k: nat, a: nat): map<nat, bool> {
    map v: nat | v in FreshIds(base, k) :: v == BlockVar(base, a) || (v - base) % 2 == 1
  }

  function FreshIds(base: nat, k: nat): (ids: set<nat>)
    ensures forall v :: v in ids <==> base <= v < base + 2 * k
  {
    if k == 0 then {} else FreshIds(base, k - 1) + {base + 2 * k - 2, base + 2 * k - 1}
  }

  /** The relieving assignment keeps everything asserted before the round, and sets the round's variables. */
  lemma {:induction false} RelievedModel(h: seq<Expr>, base: nat, k: nat, a: nat, m: Model)
    requires AllBelow(h, base)
    ensures var m' := Override(m, Relieve(base, k, a));
            && (forall j :: 0 <= j < |h| ==> Eval(h[j], m') == Eval(h[j], m))
            && (forall b :: 0 <= b < k ==> m'(BlockVar(base, b)) == (b == a) && m'(NewAux(base, b)))
  {
    var u := Relieve(base, k, a);
    forall j | 0 <= j < |h|
      ensures Eval(h[j], Override(m, u)) == Eval(h[j], m)
    {
      OverrideEval(h[j], m, u);
    }
    forall b | 0 <= b < k
      ensures Override(m, u)(BlockVar(base, b)) == (b == a) && Override(m, u)(NewAux(base, b))
    {
      assert BlockVar(base, b) in u && NewAux(base, b) in u;
    }
  }

  lemma {:induction false} RelaxedGrows(soft: seq<Expr>, aux: seq<nat>, base: nat, hits: seq<nat>, soft': seq<Expr>,
                                        aux': seq<nat>, m: Model, m': Model)
    requires Relaxed(soft, aux, hits, base, soft', aux')
    requires forall i :: 0 <= i < |soft| ==> Eval(soft[i], m') == Eval(soft[i], m)
    ensures forall i :: 0 <= i < |soft| ==> (Eval(soft[i], m) ==> Eval(soft'[i], m'))
  {
    forall i | 0 <= i < |soft| && Eval(soft[i], m)
      ensures Eval(soft'[i], m')
    {
      if i in hits {
        var b :| 0 <= b < |hits| && hits[b] == i;
        assert soft'[hits[b]] == Or(soft[hits[b]], Var(BlockVar(base, b)));
      }
    }
  }

  /** A round lets every model satisfy one more soft constraint. */
  lemma {:induction false} RoundUp(h: seq<Expr>, soft: seq<Expr>, aux: seq<nat>, base: nat, hits: seq<nat>,
                soft': seq<Expr>, aux': seq<nat>, limit: seq<Expr>, m: Model, a: nat) returns (m': Model)
    requires Guarded(h, soft, aux, base) && Relaxed(soft, aux, hits, base, soft', aux')
    requires Limits(limit, base, |hits|) && Holds(h, m)
    requires a < |hits| && !Eval(soft[hits[a]], m)
    ensures Holds(h + NewClauses(soft', aux', hits) + limit, m')
    ensures Count(soft', m') >= Count(soft, m) + 1
  {
    var k := |hits|;
    m' := Override(m, Relieve(base, k, a));
    RelievedModel(h, base, k, a, m);
    RelievedModel(soft, base, k, a, m);
    assert Holds(limit, m') by {
      CountSingle(Blocks(base, k), k, a, m');
    }
    var clauses := NewClauses(soft', aux', hits);
    forall b | 0 <= b < k
      ensures Eval(clauses[b], m')
    {
      assert clauses[b] == Or(soft'[hits[b]], Var(NewAux(base, b)));
    }
    HoldsConcat(h, clauses, limit, m');
    RelaxedGrows(soft, aux, base, hits, soft', aux', m, m');
    assert soft'[hits[a]] == Or(soft[hits[a]], Var(BlockVar(base, a)));
    CountOneMore(soft, soft', |soft|, hits[a], m, m');
  }

  lemma {:induction false} HoldsConcat(x: seq<Expr>, y: seq<Expr>, z: seq<Expr>, m: Model)
    ensures Holds(x + y + z, m) <==> Holds(x, m) && Holds(y, m) && Holds(z, m)
  {
    var all := x + y + z;
    assert forall j :: 0 <= j < |x| ==> all[j] == x[j];
    assert forall j :: 0 <= j < |y| ==> all[|x| + j] == y[j];
    assert forall j :: 0 <= j < |z| ==> all[|x| + |y| + j] == z[j];
  }

  /** Relaxing adds at most as many satisfied constraints as there are true block variables. */
  lemma {:induction false} CountShift(soft: seq<Expr>, soft': seq<Expr>, blocks: seq<Expr>, hits: seq<nat>, m: Model,
                                      i: nat, j: nat)
    requires i <= |soft| == |soft'| && j <= |hits| == |blocks| && Increasing(hits, |soft|)
    requires forall a :: 0 <= a < |hits| && Eval(soft'[hits[a]], m) ==> Eval(soft[hits[a]], m) || Eval(blocks[a], m)
    requires forall l :: 0 <= l < |soft| && l !in hits ==> soft'[l] == soft[l]
    requires (j > 0 ==> hits[j - 1] < i) && (j < |hits| ==> i <= hits[j])
    ensures CountTo(soft', i, m) <= CountTo(soft, i, m) + CountTo(blocks, j, m)
  {
    if i > 0 {
      if j > 0 && hits[j - 1] == i - 1 {
        CountShift(soft, soft', blocks, hits, m, i - 1, j - 1);
      } else {
        NotHit(hits, |soft|, i - 1, j);
        CountShift(soft, soft', blocks, hits, m, i - 1, j);
      }
    }
  }

  lemma {:induction false} NotHit(hits: seq<nat>, n: nat, i: nat, j: nat)
    requires Increasing(hits, n) && j <= |hits|
    requires (j > 0 ==> hits[j - 1] < i) && (j < |hits| ==> i < hits[j])
    ensures i !in hits
  {
    forall a | 0 <= a < |hits|
      ensures hits[a] != i
    {
      if a < j {
        assert hits[a] <= hits[j - 1];
      } else {
        assert hits[j] <= hits[a];
      }
    }
  }

  lemma {:induction false} RelaxedEval(soft: seq<Expr>, aux: seq<nat>, base: nat, hits: seq<nat>, soft': seq<Expr>,
                                       aux': seq<nat>, m: Model, a: nat)
    requires Relaxed(soft, aux, hits, base, soft', aux') && a < |hits|
    ensures Eval(soft'[hits[a]], m) == (Eval(soft[hits[a]], m) || Eval(Blocks(base, |hits|)[a], m))
  {
    assert soft'[hits[a]] == Or(soft[hits[a]], Var(BlockVar(base, a)));
    assert Blocks(base, |hits|)[a] == Var(BlockVar(base, a));
  }

  /** A round adds at most one to the satisfied soft constraints of a model. */
  lemma {:induction false} RoundDown(h: seq<Expr>, soft: seq<Expr>, aux: seq<nat>, base: nat, hits: seq<nat>,
                                     soft': seq<Expr>, aux': seq<nat>, limit: seq<Expr>, m: Model)
    requires Relaxed(soft, aux, hits, base, soft', aux') && Limits(limit, base, |hits|)
    requires Holds(h + NewClauses(soft', aux', hits) + limit, m)
    ensures Holds(h, m) && Count(soft', m) <= Count(soft, m) + 1
  {
    HoldsConcat(h, NewClauses(soft', aux', hits), limit, m);
    assert Count(Blocks(base, |hits|), m) <= 1;
    forall a | 0 <= a < |hits| && Eval(soft'[hits[a]], m)
      ensures Eval(soft[hits[a]], m) || Eval(Blocks(base, |hits|)[a], m)
    {
      RelaxedEval(soft, aux, base, hits, soft', aux', m, a);
    }
    CountShift(soft, soft', Blocks(base, |hits|), hits, m, |soft|, |hits|);
  }

  /** The guards are again private after a round. */
  lemma {:induction false} RoundGuarded(h: seq<Expr>, soft: seq<Expr>, aux: seq<nat>, base: nat, hits: seq<nat>,
                                        soft': seq<Expr>, aux': seq<nat>, limit: seq<Expr>)
    requires Guarded(h, soft, aux, base) && Relaxed(soft, aux, hits, base, soft', aux')
    requires Limits(limit, base, |hits|)
    ensures Guarded(h + NewClauses(soft', aux', hits) + limit, soft', aux', base + 2 * |hits|)
  {
    var n := base + 2 * |hits|;
    var clauses := NewClauses(soft', aux', hits);
    RelaxedShape(soft, aux, base, hits, soft', aux');
    forall i, j | 0 <= i < |soft| && 0 <= j < |soft| && i != j
      ensures aux'[i] != aux'[j]
    {
      AuxDistinct(soft, aux, base, hits, soft', aux', i, j);
    }
    forall i, j | 0 <= i < |soft| && 0 <= j < |soft|
      ensures aux'[i] !in Vars(soft'[j])
    {
      assert SoftShape(soft, aux, base, |hits|, soft', aux', i);
      assert SoftShape(soft, aux, base, |hits|, soft', aux', j);
    }
    assert AllBelow(soft', n) && forall i :: 0 <= i < |soft| ==> aux'[i] < n by {
      forall i | 0 <= i < |soft|
        ensures aux'[i] < n && forall v :: v in Vars(soft'[i]) ==> v < n
      {
        assert SoftShape(soft, aux, base, |hits|, soft', aux', i);
      }
    }
    GuardsPrivate(h, soft, aux, base, hits, soft', aux', limit);
  }

  /** Where the guards occur after a round. */
  lemma {:induction false} GuardsPrivate(h: seq<Expr>, soft: seq<Expr>, aux: seq<nat>, base: nat, hits: seq<nat>,
                                         soft': seq<Expr>, aux': seq<nat>, limit: seq<Expr>)
    requires Guarded(h, soft, aux, base) && Relaxed(soft, aux, hits, base, soft', aux')
    requires Limits(limit, base, |hits|)
    requires forall i :: 0 <= i < |soft| ==> SoftShape(soft, aux, base, |hits|, soft', aux', i)
    requires AllBelow(soft', base + 2 * |hits|) && forall i :: 0 <= i < |soft| ==> aux'[i] < base + 2 * |hits|
    requires Distinct(aux') && forall i, j :: 0 <= i < |soft| && 0 <= j < |soft| ==> aux'[i] !in Vars(soft'[j])
    ensures var all := h + NewClauses(soft', aux', hits) + limit;
            && AllBelow(all, base + 2 * |hits|)
            && forall i, j :: 0 <= i < |soft| && 0 <= j < |all| && aux'[i] in Vars(all[j]) ==>
                 all[j] == Or(soft'[i], Var(aux'[i]))
  {
    var clauses := NewClauses(soft', aux', hits);
    var all := h + clauses + limit;
    forall j | 0 <= j < |all|
      ensures forall v :: v in Vars(all[j]) ==> v < base + 2 * |hits|
      ensures forall i :: 0 <= i < |soft| && aux'[i] in Vars(all[j]) ==> all[j] == Or(soft'[i], Var(aux'[i]))
    {
      if j < |h| {
        assert all[j] == h[j];
        OldFormula(h, soft, aux, base, hits, soft', aux', j);
      } else if j < |h| + |clauses| {
        assert all[j] == clauses[j - |h|];
        assert all[j] == Or(soft'[hits[j - |h|]], Var(aux'[hits[j - |h|]]));
      } else {
        assert all[j] == limit[j - |h| - |clauses|];
        LimitPrivate(soft, aux, base, |hits|, soft', aux', limit, j - |h| - |clauses|);
      }
    }
  }

  lemma {:induction false} RelaxedShape(soft: seq<Expr>, aux: seq<nat>, base: nat, hits: seq<nat>, soft': seq<Expr>,
                                        aux': seq<nat>)
    requires Relaxed(soft, aux, hits, base, soft', aux')
    ensures forall i :: 0 <= i < |soft| ==> SoftShape(soft, aux, base, |hits|, soft', aux', i)
  {
    forall i | 0 <= i < |soft|
      ensures SoftShape(soft, aux, base, |hits|, soft', aux', i)
    {
      if i in hits {
        var a :| 0 <= a < |hits| && hits[a] == i;
      }
    }
  }

  lemma {:induction false} OldFormula(h: seq<Expr>, soft: seq<Expr>, aux: seq<nat>, base: nat, hits: seq<nat>,
                                      soft': seq<Expr>, aux': seq<nat>, j: nat)
    requires Guarded(h, soft, aux, base) && Relaxed(soft, aux, hits, base, soft', aux') && j < |h|
    ensures forall v :: v in Vars(h[j]) ==> v < base
    ensures forall i :: 0 <= i < |soft| && aux'[i] in Vars(h[j]) ==> h[j] == Or(soft'[i], Var(aux'[i]))
  {
    RelaxedShape(soft, aux, base, hits, soft', aux');
    forall i | 0 <= i < |soft| && aux'[i] in Vars(h[j])
      ensures h[j] == Or(soft'[i], Var(aux'[i]))
    {
      assert SoftShape(soft, aux, base, |hits|, soft', aux', i);
    }
  }

  lemma {:induction false} LimitPrivate(soft: seq<Expr>, aux: seq<nat>, base: nat, k: nat, soft': seq<Expr>,
                                        aux': seq<nat>, limit: seq<Expr>, j: nat)
    requires |soft| == |aux| == |soft'| == |aux'| && Limits(limit, base, k) && j < |limit|
    requires forall i :: 0 <= i < |aux| ==> aux[i] < base
    requires forall i :: 0 <= i < |soft| ==> SoftShape(soft, aux, base, k, soft', aux', i)
    ensures forall v :: v in Vars(limit[j]) ==> v < base + 2 * k
    ensures forall i :: 0 <= i < |soft| ==> aux'[i] !in Vars(limit[j])
  {
    forall i | 0 <= i < |soft|
      ensures aux'[i] !in Vars(limit[j])
    {
      assert SoftShape(soft, aux, base, k, soft', aux', i);
    }
  }

  /** What a soft constraint and its guard look like after a round. */
  ghost predicate SoftShape(soft: seq<Expr>, aux: seq<nat>, base: nat, k: nat, soft': seq<Expr>, aux': seq<nat>, i: nat)
    requires i < |soft| == |aux| == |soft'| == |aux'|
  {
    || (soft'[i] == soft[i] && aux'[i] == aux[i])
    || exists a :: 0 <= a < k && soft'[i] == Or(soft[i], Var(BlockVar(base, a))) && aux'[i] == NewAux(base, a)
  }

  lemma {:induction false} AuxDistinct(soft: seq<Expr>, aux: seq<nat>, base: nat, hits: seq<nat>, soft': seq<Expr>,
                                       aux': seq<nat>, i: nat, j: nat)
    requires Relaxed(soft, aux, hits, base, soft', aux') && Distinct(aux) && i < |soft| && j < |soft| && i != j
    requires forall i :: 0 <= i < |aux| ==> aux[i] < base
    ensures aux'[i] != aux'[j]
  {
    if i in hits && j in hits {
      var a :| 0 <= a < |hits| && hits[a] == i;
      var b :| 0 <= b < |hits| && hits[b] == j;
    } else if i in hits {
      var a :| 0 <= a < |hits| && hits[a] == i;
    } else if j in hits {
      var b :| 0 <= b < |hits| && hits[b] == j;
    }
  }

  // ----- what the rounds keep

  /** After d failed rounds every model of the original formulas can be turned into one of the current
      formulas with d more satisfied soft constraints. */
  ghost predicate GainsAtLeast(h0: seq<Expr>, soft0: seq<Expr>, h: seq<Expr>, soft: seq<Expr>, d: nat) {
    forall m0: Model :: Holds(h0, m0) ==> exists m: Model :: Holds(h, m) && Count(soft, m) >= Count(soft0, m0) + d
  }

  /** And no model gains more than d. */
  ghost predicate GainsAtMost(h0: seq<Expr>, soft0: seq<Expr>, h: seq<Expr>, soft: seq<Expr>, d: nat) {
    forall m: Model :: Holds(h, m) ==> Holds(h0, m) && Count(soft, m) <= Count(soft0, m) + d
  }

  /** A failed round lowers the cost of the best model by exactly one: it gains at least one ... */
  lemma {:induction false} RoundGains(h0: seq<Expr>, soft0: seq<Expr>, h: seq<Expr>, soft: seq<Expr>, aux: seq<nat>,
                                      base: nat, d: nat, core: seq<Expr>, hits: seq<nat>, soft': seq<Expr>,
                                      aux': seq<nat>, limit: seq<Expr>)
    requires GainsAtLeast(h0, soft0, h, soft, d) && Guarded(h, soft, aux, base)
    requires CorrectAnswer(h, Assumptions(aux), Unsat(core))
    requires Relaxed(soft, aux, hits, base, soft', aux') && Limits(limit, base, |hits|)
    requires forall i :: 0 <= i < |soft| && Not(Var(aux[i])) in core ==> i in hits
    ensures GainsAtLeast(h0, soft0, h + NewClauses(soft', aux', hits) + limit, soft', d + 1)
  {
    forall m0: Model | Holds(h0, m0)
      ensures exists m: Model :: Holds(h + NewClauses(soft', aux', hits) + limit, m)
                              && Count(soft', m) >= Count(soft0, m0) + (d + 1)
    {
      var m: Model :| Holds(h, m) && Count(soft, m) >= Count(soft0, m0) + d;
      var i := CoreHasFalse(h, soft, aux, base, core, m);
      var a :| 0 <= a < |hits| && hits[a] == i;
      var m' := RoundUp(h, soft, aux, base, hits, soft', aux', limit, m, a);
    }
  }

  /** ... and at most one. */
  lemma {:induction false} RoundBounded(h0: seq<Expr>, soft0: seq<Expr>, h: seq<Expr>, soft: seq<Expr>, aux: seq<nat>,
                                        base: nat, d: nat, hits: seq<nat>, soft': seq<Expr>, aux': seq<nat>,
                                        limit: seq<Expr>)
    requires GainsAtMost(h0, soft0, h, soft, d)
    requires Relaxed(soft, aux, hits, base, soft', aux') && Limits(limit, base, |hits|)
    ensures GainsAtMost(h0, soft0, h + NewClauses(soft', aux', hits) + limit, soft', d + 1)
  {
    forall m: Model | Holds(h + NewClauses(soft', aux', hits) + limit, m)
      ensures Holds(h0, m) && Count(soft', m) <= Count(soft0, m) + (d + 1)
    {
      RoundDown(h, soft, aux, base, hits, soft', aux', limit, m);
    }
  }

  /** No model of the hard formulas satisfies more than r of the soft constraints. */
  ghost predicate AtMostSat(hard: seq<Expr>, soft: seq<Expr>, r: nat) {
    forall m: Model :: Holds(hard, m) ==> Count(soft, m) <= r
  }

  /** The largest number of soft constraints that hold together in a model of the hard ones; 0 when the
      hard constraints have no model. */
  ghost predicate IsMaxSat(hard: seq<Expr>, soft: seq<Expr>, r: nat) {
    && AtMostSat(hard, soft, r)
    && (Satisfiable(hard) ==> exists m: Model :: Holds(hard, m) && Count(soft, m) == r)
    && (!Satisfiable(hard) ==> r == 0)
  }

  lemma {:induction false} CountAll(s: seq<Expr>, n: nat, m: Model)
    requires n <= |s| && forall i :: 0 <= i < n ==> Eval(s[i], m)
    ensures CountTo(s, n, m) == n
  {
    if n > 0 {
      CountAll(s, n - 1, m);
    }
  }

  /** A model of all assumptions satisfies every current soft constraint. */
  lemma {:induction false} SatModel(h: seq<Expr>, soft: seq<Expr>, aux: seq<nat>) returns (m: Model)
    requires |soft| == |aux|
    requires forall i :: 0 <= i < |soft| ==> Or(soft[i], Var(aux[i])) in h
    requires CorrectAnswer(h, Assumptions(aux), Sat)
    ensures Holds(h, m) && Count(soft, m) == |soft|
  {
    var asm := Assumptions(aux);
    m :| Holds(h + asm, m);
    assert h + asm + [] == h + asm;
    HoldsConcat(h, asm, [], m);
    forall i | 0 <= i < |soft|
      ensures Eval(soft[i], m)
    {
      assert Eval(asm[i], m) && asm[i] == Not(Var(aux[i]));
      assert Eval(Or(soft[i], Var(aux[i])), m);
    }
    CountAll(soft, |soft|, m);
  }

  lemma GainBoundsOptimum(h0: seq<Expr>, soft0: seq<Expr>, h: seq<Expr>, soft: seq<Expr>, d: nat)
    requires GainsAtLeast(h0, soft0, h, soft, d)
    ensures forall m0: Model :: Holds(h0, m0) ==> Count(soft0, m0) + d <= |soft|
  {
  }

  /** When the current formulas are satisfiable with all soft constraints, the original optimum is n - d. */
  lemma SatIsOptimal(h0: seq<Expr>, soft0: seq<Expr>, h: seq<Expr>, soft: seq<Expr>, d: nat, m: Model)
    requires forall m0: Model :: Holds(h0, m0) ==> Count(soft0, m0) + d <= |soft|
    requires GainsAtMost(h0, soft0, h, soft, d) && |soft| >= d
    requires Holds(h, m) && Count(soft, m) == |soft|
    ensures IsMaxSat(h0, soft0, |soft| - d)
  {
  }

  lemma {:induction false} ExhaustedIsZero(h0: seq<Expr>, soft0: seq<Expr>, n: nat)
    requires forall m0: Model :: Holds(h0, m0) ==> Count(soft0, m0) + n <= n
    ensures IsMaxSat(h0, soft0, 0)
  {
    if Satisfiable(h0) {
      var m: Model :| Holds(h0, m);
      assert Count(soft0, m) == 0;
    }
  }

  // ----- the initial guards

  function FirstAux(base: nat, n: nat): (aux: seq<nat>)
    ensures |aux| == n
  {
    seq(n, i requires 0 <= i < n => base + i)
  }

  function FirstClauses(soft: seq<Expr>, base: nat, n: nat): (h: seq<Expr>)
    requires n <= |soft|
    ensures |h| == n
  {
    seq(n, i requires 0 <= i < n => Or(soft[i], Var(base + i)))
  }

  lemma {:induction false} FirstGuards(h0: seq<Expr>, soft: seq<Expr>, base: nat)
    requires AllBelow(h0, base) && AllBelow(soft, base)
    ensures Guarded(h0 + FirstClauses(soft, base, |soft|), soft, FirstAux(base, |soft|), base + |soft|)
  {
    var n := |soft|;
    var h := h0 + FirstClauses(soft, base, n);
    forall j | 0 <= j < |h|
      ensures forall v :: v in Vars(h[j]) ==> v < base + n
      ensures forall i :: 0 <= i < n && base + i in Vars(h[j]) ==> h[j] == Or(soft[i], Var(base + i))
    {
      if j < |h0| {
        assert h[j] == h0[j];
      } else {
        assert h[j] == Or(soft[j - |h0|], Var(base + (j - |h0|)));
      }
    }
  }

  lemma {:induction false} FirstModel(h0: seq<Expr>, soft: seq<Expr>, base: nat, m0: Model) returns (m: Model)
    requires AllBelow(h0, base) && AllBelow(soft, base) && Holds(h0, m0)
    ensures Holds(h0 + FirstClauses(soft, base, |soft|), m) && Count(soft, m) >= Count(soft, m0)
  {
    m := (v: nat) => v >= base || m0(v);
    var clauses := FirstClauses(soft, base, |soft|);
    forall j | 0 <= j < |h0|
      ensures Eval(h0[j], m)
    {
      EvalDependsOnVars(h0[j], m, m0);
    }
    forall i | 0 <= i < |soft|
      ensures Eval(soft[i], m) == Eval(soft[i], m0) && Eval(clauses[i], m)
    {
      EvalDependsOnVars(soft[i], m, m0);
      assert Eval(Var(base + i), m);
    }
    assert h0 + clauses + [] == h0 + clauses;
    HoldsConcat(h0, clauses, [], m);
    CountMonotone(soft, soft, |soft|, m0, m);
  }

  lemma {:induction false} FirstGains(h0: seq<Expr>, soft: seq<Expr>, base: nat)
    requires AllBelow(h0, base) && AllBelow(soft, base)
    ensures GainsAtLeast(h0, soft, h0 + FirstClauses(soft, base, |soft|), soft, 0)
  {
    forall m0: Model | Holds(h0, m0)
      ensures exists m: Model :: Holds(h0 + FirstClauses(soft, base, |soft|), m)
                && Count(soft, m) >= Count(soft, m0) + 0
    {
      var m := FirstModel(h0, soft, base, m0);
    }
  }

  lemma {:induction false} FirstBounded(h0: seq<Expr>, soft: seq<Expr>, base: nat)
    ensures GainsAtMost(h0, soft, h0 + FirstClauses(soft, base, |soft|), soft, 0)
  {
    var clauses := FirstClauses(soft, base, |soft|);
    forall m: Model | Holds(h0 + clauses, m)
      ensures Holds(h0, m)
    {
      assert h0 + clauses + [] == h0 + clauses;
      HoldsConcat(h0, clauses, [], m);
    }
  }

  // ----- the procedure

  function Upto(m: nat): (s: set<nat>)
    ensures |s| == m && forall x: nat :: x in s <==> x < m
  {
    if m == 0 then {} else Upto(m - 1) + {m - 1}
  }

  function Elements(s: seq<nat>): (r: set<nat>)
    ensures forall x :: x in r <==> x in s
  {
    if |s| == 0 then {} else Elements(s[..|s| - 1]) + {s[|s| - 1]}
  }

  lemma {:induction false} DistinctCount(s: seq<nat>)
    requires Distinct(s)
    ensures |Elements(s)| == |s|
  {
    if |s| > 0 {
      DistinctCount(s[..|s| - 1]);
    }
  }

  lemma {:induction false} SubsetSize(a: set<nat>, b: set<nat>)
    requires a <= b
    ensures |a| <= |b|
  {
    if a != {} {
      var x :| x in a;
      SubsetSize(a - {x}, b - {x});
    }
  }

  /** At most m distinct positions lie below m. */
  lemma {:induction false} Pigeonhole(s: seq<nat>, m: nat)
    requires Distinct(s) && forall i :: 0 <= i < |s| ==> s[i] < m
    ensures |s| <= m
  {
    DistinctCount(s);
    SubsetSize(Elements(s), Upto(m));
  }

  /** The position of an expression in the core, or its length. */
  method FindInCore(core: seq<Expr>, e: Expr) returns (j: nat)
    ensures j <= |core| && (j < |core| <==> e in core)
    ensures j < |core| ==> core[j] == e
  {
    j := 0;
    while j < |core| && core[j] != e
      invariant j <= |core| && forall l :: 0 <= l < j ==> core[l] != e
    {
      j := j + 1;
    }
  }

  ghost predicate VarsOf(auxVars: seq<Expr>, aux: seq<nat>) {
    |auxVars| == |aux| && forall l :: 0 <= l < |aux| ==> auxVars[l] == Var(aux[l])
  }

  /** The formulas asserted and the variables taken after relaxing the constraints at `hits`. */
  ghost predicate RelaxedSoFar(soft0: seq<Expr>, aux0: seq<nat>, hits: seq<nat>, base: nat, soft: seq<Expr>,
                               auxVars: seq<Expr>, aux: seq<nat>, h: seq<Expr>, h': seq<Expr>) {
    && Relaxed(soft0, aux0, hits, base, soft, aux)
    && VarsOf(auxVars, aux)
    && h' == h + NewClauses(soft, aux, hits)
  }

  /** `hits` are the constraints below i whose assumption is in the core. */
  ghost predicate HitsAre(aux0: seq<nat>, core: seq<Expr>, hits: seq<nat>, i: nat) {
    && i <= |aux0| && Increasing(hits, i)
    && (forall a :: 0 <= a < |hits| ==> Not(Var(aux0[hits[a]])) in core)
    && (forall l :: 0 <= l < i && Not(Var(aux0[l])) in core ==> l in hits)
  }

  lemma {:induction false} HitsOneMore(aux0: seq<nat>, core: seq<Expr>, hits: seq<nat>, i: nat)
    requires HitsAre(aux0, core, hits, i) && i < |aux0| && Distinct(aux0)
    ensures Not(Var(aux0[i])) in core ==> HitsAre(aux0, core, hits + [i], i + 1) && |hits| < |core|
    ensures Not(Var(aux0[i])) !in core ==> HitsAre(aux0, core, hits, i + 1)
  {
    if Not(Var(aux0[i])) in core {
      assert (hits + [i])[|hits|] == i;
      forall l | 0 <= l < i && Not(Var(aux0[l])) in core
        ensures l in hits + [i]
      {
        assert l in hits;
      }
      var found := Positions(core, aux0, hits + [i]);
      Pigeonhole(found, |core|);
    }
  }

  /** The relaxed constraints have different assumptions, so they are found at different places of the core. */
  lemma {:induction false} Positions(core: seq<Expr>, aux0: seq<nat>, hits: seq<nat>) returns (found: seq<nat>)
    requires Distinct(aux0) && Increasing(hits, |aux0|)
    requires forall a :: 0 <= a < |hits| ==> Not(Var(aux0[hits[a]])) in core
    ensures |found| == |hits| && Distinct(found)
    ensures forall a :: 0 <= a < |hits| ==> found[a] < |core| && core[found[a]] == Not(Var(aux0[hits[a]]))
  {
    if |hits| == 0 {
      found := [];
    } else {
      var k := |hits| - 1;
      found := Positions(core, aux0, hits[..k]);
      var j :| 0 <= j < |core| && core[j] == Not(Var(aux0[hits[k]]));
      forall a | 0 <= a < k
        ensures found[a] != j
      {
        assert hits[a] < hits[k];
      }
      found := found + [j];
    }
  }

  lemma {:induction false} RelaxOne(soft0: seq<Expr>, aux0: seq<nat>, hits: seq<nat>, base: nat, soft: seq<Expr>,
                                    auxVars: seq<Expr>, aux: seq<nat>, h: seq<Expr>, h': seq<Expr>, i: nat)
    requires RelaxedSoFar(soft0, aux0, hits, base, soft, auxVars, aux, h, h') && i < |soft0|
    requires forall a :: 0 <= a < |hits| ==> hits[a] < i
    ensures var id := base + 2 * |hits|;
            var relaxed := Or(soft[i], Var(id));
            RelaxedSoFar(soft0, aux0, hits + [i], base, soft[i := relaxed], auxVars[i := Var(id + 1)], aux[i := id + 1],
                         h, h' + [Or(relaxed, Var(id + 1))])
  {
    var k := |hits|;
    var id := base + 2 * k;
    var soft', aux' := soft[i := Or(soft[i], Var(id))], aux[i := id + 1];
    assert i !in hits;
    assert Relaxed(soft0, aux0, hits + [i], base, soft', aux');
    assert NewClauses(soft', aux', hits + [i]) == NewClauses(soft, aux, hits) + [Or(soft'[i], Var(aux'[i]))];
  }

  lemma BlocksOneMore(base: nat, k: nat)
    ensures Blocks(base, k + 1) == Blocks(base, k) + [Var(BlockVar(base, k))]
  {
  }

  /** Relaxes constraint i by a fresh block variable and guards it with a fresh auxiliary variable. */
  method RelaxAt(solver: Solver, soft: seq<Expr>, auxVars: seq<Expr>, i: nat, ghost soft0: seq<Expr>,
                 ghost aux0: seq<nat>, ghost hits: seq<nat>, ghost base: nat, ghost aux: seq<nat>, ghost h: seq<Expr>)
    returns (soft': seq<Expr>, auxVars': seq<Expr>, blockVar: Expr)
    requires RelaxedSoFar(soft0, aux0, hits, base, soft, auxVars, aux, h, solver.asserted) && i < |soft0|
    requires solver.nextId == base + 2 * |hits| && forall a :: 0 <= a < |hits| ==> hits[a] < i
    modifies solver`asserted, solver`nextId
    ensures blockVar == Var(BlockVar(base, |hits|)) && solver.nextId == old(solver.nextId) + 2
    ensures RelaxedSoFar(soft0, aux0, hits + [i], base, soft', auxVars', aux[i := NewAux(base, |hits|)], h,
                         solver.asserted)
  {
    RelaxOne(soft0, aux0, hits, base, soft, auxVars, aux, h, solver.asserted, i);
    blockVar := solver.MkFreshConst();
    var newAuxVar := solver.MkFreshConst();
    soft' := soft[i := Or(soft[i], blockVar)];
    auxVars' := auxVars[i := newAuxVar];
    solver.Assert(Or(soft'[i], newAuxVar));
  }

  /** Relaxes every soft constraint whose assumption is in the core.  The block variables fit the buffer
      of |core| cells. */
  method RelaxCore(solver: Solver, soft0: seq<Expr>, auxVars0: seq<Expr>, ghost aux0: seq<nat>, assumptions: seq<Expr>,
                   core: seq<Expr>)
    returns (soft: seq<Expr>, auxVars: seq<Expr>, blockVars: array<Expr>, k: nat,
             ghost hits: seq<nat>, ghost aux: seq<nat>)
    requires |soft0| == |aux0| && VarsOf(auxVars0, aux0) && Distinct(aux0)
    requires assumptions == Assumptions(aux0)
    modifies solver`asserted, solver`nextId
    ensures fresh(blockVars) && blockVars.Length == |core| && k == |hits| <= |core|
    ensures RelaxedSoFar(soft0, aux0, hits, old(solver.nextId), soft, auxVars, aux,
                         old(solver.asserted), solver.asserted)
    ensures blockVars[..k] == Blocks(old(solver.nextId), k)
    ensures solver.nextId == old(solver.nextId) + 2 * k
    ensures HitsAre(aux0, core, hits, |aux0|)
  {
    soft, auxVars, aux, hits, k := soft0, auxVars0, aux0, [], 0;
    blockVars := new Expr[|core|](_ => False);
    ghost var base := solver.nextId;
    assert NewClauses(soft, aux, hits) == [];
    for i := 0 to |soft0|
      invariant RelaxedSoFar(soft0, aux0, hits, base, soft, auxVars, aux, old(solver.asserted), solver.asserted)
      invariant HitsAre(aux0, core, hits, i)
      invariant k == |hits| <= |core|
      invariant blockVars[..k] == Blocks(base, k)
      invariant solver.nextId == base + 2 * k
    {
      HitsOneMore(aux0, core, hits, i);
      var j := FindInCore(core, assumptions[i]);
      if j < |core| {
        BlocksOneMore(base, k);
        var blockVar;
        soft, auxVars, blockVar := RelaxAt(solver, soft, auxVars, i, soft0, aux0, hits, base, aux,
                                           old(solver.asserted));
        blockVars[k] := blockVar;
        aux := aux[i := NewAux(base, k)];
        k := k + 1;
        hits := hits + [i];
      }
    }
  }

  /** The identifiers of the block variables. */
  ghost function BlockIds(base: nat, k: nat): (ids: set<nat>)
    ensures forall v :: v in ids <==> exists a :: 0 <= a < k && v == BlockVar(base, a)
  {
    if k == 0 then {} else BlockIds(base, k - 1) + {BlockVar(base, k - 1)}
  }

  /** With fewer than two block variables nothing needs to be asserted. */
  lemma {:induction false} NoLimitNeeded(base: nat, k: nat)
    requires k <= 1
    ensures Limits([], base, k)
  {
    forall m: Model
      ensures Count(Blocks(base, k), m) <= 1
    {
      CountSingle(Blocks(base, k), k, 0, m);
    }
  }

  lemma {:induction false} LimitIs(f: Expr, base: nat, k: nat)
    requires forall m: Model :: Eval(f, m) <==> Count(Blocks(base, k), m) <= 1
    requires Vars(f) <= BlockIds(base, k)
    ensures Limits([f], base, k)
  {
    forall m: Model
      ensures Holds([f], m) <==> Count(Blocks(base, k), m) <= 1
    {
      assert Holds([f], m) <==> Eval([f][0], m);
    }
  }

  /** A count of block variables fits in 31 bits. */
  lemma {:induction false} IntBits(k: nat) returns (room: nat)
    requires k < 0x8000_0000
    ensures room <= 31 && k <= Pow2(room)
  {
    room := 31;
    assert Pow2(7) == 128 && Pow2(8) == 256;
    Pow2Add(8, 8);
    Pow2Add(8, 16);
    Pow2Add(7, 24);
  }

  /** The at-most-one constraint over the block variables of a round. */
  method LimitBlocks(solver: Solver, blockVars: array<Expr>, k: nat, ghost base: nat) returns (ghost limit: seq<Expr>)
    requires k <= blockVars.Length && k < 0x8000_0000 && blockVars[..k] == Blocks(base, k)
    modifies solver`asserted
    ensures Limits(limit, base, k) && solver.asserted == old(solver.asserted) + limit
  {
    if k > 1 {
      forall i | 0 <= i < k
        ensures Vars(blockVars[..][i]) <= BlockIds(base, k)
      {
        assert blockVars[..][i] == blockVars[..k][i] == Var(BlockVar(base, i));
      }
      ghost var room := IntBits(k);
      var f := AtMostOne(blockVars, k, room, BlockIds(base, k));
      forall m: Model
        ensures Eval(f, m) <==> Count(Blocks(base, k), m) <= 1
      {
        CountFrame(blockVars[..], Blocks(base, k), k, m);
      }
      LimitIs(f, base, k);
      solver.Assert(f);
      limit := [f];
    } else {
      NoLimitNeeded(base, k);
      limit := [];
    }
  }

  /** The clauses that tie the current soft constraints to their auxiliary variables stay asserted. */
  lemma {:induction false} ClausesKept(h: seq<Expr>, soft: seq<Expr>, aux: seq<nat>, base: nat, hits: seq<nat>,
                                       soft': seq<Expr>, aux': seq<nat>, limit: seq<Expr>)
    requires Relaxed(soft, aux, hits, base, soft', aux')
    requires forall i :: 0 <= i < |soft| ==> Or(soft[i], Var(aux[i])) in h
    ensures forall i :: 0 <= i < |soft'| ==> Or(soft'[i], Var(aux'[i])) in h + NewClauses(soft', aux', hits) + limit
  {
    forall i | 0 <= i < |soft'|
      ensures Or(soft'[i], Var(aux'[i])) in h + NewClauses(soft', aux', hits) + limit
    {
      if i in hits {
        var a :| 0 <= a < |hits| && hits[a] == i;
        assert NewClauses(soft', aux', hits)[a] == Or(soft'[i], Var(aux'[i]));
      }
    }
  }

  /** What holds before every query: c is the number of soft constraints still hoped for. */
  ghost predicate RoundInv(hard: seq<Expr>, softIn: seq<Expr>, h: seq<Expr>, soft: seq<Expr>, aux: seq<nat>,
                           nextId: nat, c: nat)
  {
    && c <= |softIn| == |soft| == |aux|
    && Guarded(h, soft, aux, nextId)
    && GainsAtLeast(hard, softIn, h, soft, |softIn| - c)
    && GainsAtMost(hard, softIn, h, soft, |softIn| - c)
    && (forall i :: 0 <= i < |soft| ==> Or(soft[i], Var(aux[i])) in h)
  }

  lemma {:induction false} FirstRound(hard: seq<Expr>, softIn: seq<Expr>, base: nat)
    requires AllBelow(hard, base) && AllBelow(softIn, base)
    ensures var n := |softIn|;
            RoundInv(hard, softIn, hard + FirstClauses(softIn, base, n), softIn, FirstAux(base, n), base + n, n)
  {
    var n := |softIn|;
    var h := hard + FirstClauses(softIn, base, n);
    FirstGuards(hard, softIn, base);
    FirstGains(hard, softIn, base);
    FirstBounded(hard, softIn, base);
    assert forall i :: 0 <= i < n ==> Or(softIn[i], Var(FirstAux(base, n)[i])) == h[|hard| + i];
  }

  lemma {:induction false} NextRound(hard: seq<Expr>, softIn: seq<Expr>, h: seq<Expr>, soft: seq<Expr>, aux: seq<nat>,
                                     base: nat, c: nat, core: seq<Expr>, hits: seq<nat>, soft': seq<Expr>,
                                     aux': seq<nat>, limit: seq<Expr>)
    requires RoundInv(hard, softIn, h, soft, aux, base, c) && c > 0
    requires CorrectAnswer(h, Assumptions(aux), Unsat(core))
    requires Relaxed(soft, aux, hits, base, soft', aux') && HitsAre(aux, core, hits, |aux|)
    requires Limits(limit, base, |hits|)
    ensures RoundInv(hard, softIn, h + NewClauses(soft', aux', hits) + limit, soft', aux', base + 2 * |hits|, c - 1)
  {
    RoundGains(hard, softIn, h, soft, aux, base, |softIn| - c, core, hits, soft', aux', limit);
    RoundBounded(hard, softIn, h, soft, aux, base, |softIn| - c, hits, soft', aux', limit);
    RoundGuarded(h, soft, aux, base, hits, soft', aux', limit);
    ClausesKept(h, soft, aux, base, hits, soft', aux', limit);
  }

  lemma {:induction false} RoundBound(hard: seq<Expr>, softIn: seq<Expr>, h: seq<Expr>, soft: seq<Expr>, aux: seq<nat>,
                                      base: nat, c: nat)
    requires RoundInv(hard, softIn, h, soft, aux, base, c)
    ensures AtMostSat(hard, softIn, c)
    ensures forall m: Model :: Holds(hard, m) ==> Count(softIn, m) + (|softIn| - c) <= |soft|
  {
    GainBoundsOptimum(hard, softIn, h, soft, |softIn| - c);
  }

  /** The procedure stops with c when the solver finds a model or gives up. */
  lemma {:induction false} RoundEnds(hard: seq<Expr>, softIn: seq<Expr>, h: seq<Expr>, soft: seq<Expr>, aux: seq<nat>,
                                     base: nat, c: nat, answer: Answer)
    requires RoundInv(hard, softIn, h, soft, aux, base, c)
    requires !answer.Unsat? && CorrectAnswer(h, Assumptions(aux), answer)
    ensures AtMostSat(hard, softIn, c)
    ensures answer.Sat? ==> IsMaxSat(hard, softIn, c)
  {
    RoundBound(hard, softIn, h, soft, aux, base, c);
    if answer.Sat? {
      var m := SatModel(h, soft, aux);
      SatIsOptimal(hard, softIn, h, soft, |softIn| - c, m);
    }
  }

  lemma {:induction false} CountedAll(s: seq<Expr>, n: nat, m: Model, i: nat)
    requires i < n <= |s| && CountTo(s, n, m) == n
    ensures Eval(s[i], m)
  {
    if i < n - 1 { CountedAll(s, n - 1, m, i); }
  }

  /** A model of all current soft constraints can be made one of all assumptions. */
  lemma {:induction false} AssumptionsHold(h: seq<Expr>, soft: seq<Expr>, aux: seq<nat>, base: nat, m: Model)
    requires Guarded(h, soft, aux, base) && Holds(h, m) && Count(soft, m) >= |soft|
    ensures Satisfiable(h + Assumptions(aux))
  {
    var asm, m' := Assumptions(aux), Override(m, Settle(soft, aux, m));
    SettledModel(h, soft, aux, base, m);
    forall i | 0 <= i < |asm|
      ensures Eval(asm[i], m')
    {
      CountedAll(soft, |soft|, m, i);
      assert asm[i] == Not(Var(aux[i])) && !m'(aux[i]);
    }
    assert h + asm + [] == h + asm;
    HoldsConcat(h, asm, [], m');
  }

  /** When c is the optimum, the query at c is satisfiable. */
  lemma {:induction false} OptimumSatisfies(hard: seq<Expr>, softIn: seq<Expr>, h: seq<Expr>, soft: seq<Expr>,
                                            aux: seq<nat>, base: nat, c: nat)
    requires RoundInv(hard, softIn, h, soft, aux, base, c) && c > 0 && IsMaxSat(hard, softIn, c)
    ensures Satisfiable(h + Assumptions(aux))
  {
    var m0: Model :| Holds(hard, m0) && Count(softIn, m0) == c;
    var m: Model :| Holds(h, m) && Count(soft, m) >= Count(softIn, m0) + (|softIn| - c);
    AssumptionsHold(h, soft, aux, base, m);
  }

  /** The number at which the procedure stops is the optimum exactly when the query it has just made is satisfiable,
      whatever the solver has said of it. */
  lemma {:induction false} StopsAtOptimum(hard: seq<Expr>, softIn: seq<Expr>, h: seq<Expr>, soft: seq<Expr>,
                                          aux: seq<nat>, base: nat, c: nat, sat: bool)
    requires RoundInv(hard, softIn, h, soft, aux, base, c) && c > 0
    requires sat == Satisfiable(h + Assumptions(aux))
    ensures IsMaxSat(hard, softIn, c) <==> sat
  {
    if sat {
      RoundEnds(hard, softIn, h, soft, aux, base, c, Sat);
    } else if IsMaxSat(hard, softIn, c) {
      OptimumSatisfies(hard, softIn, h, soft, aux, base, c);
    }
  }

  lemma {:induction false} RoundsExhausted(hard: seq<Expr>, softIn: seq<Expr>, h: seq<Expr>, soft: seq<Expr>,
                                           aux: seq<nat>, base: nat)
    requires RoundInv(hard, softIn, h, soft, aux, base, 0)
    ensures IsMaxSat(hard, softIn, 0)
  {
    GainBoundsOptimum(hard, softIn, h, soft, |softIn|);
    ExhaustedIsZero(hard, softIn, |softIn|);
  }

  /** Guards every soft constraint with a fresh auxiliary variable. */
  method GuardSoft(solver: Solver, soft: seq<Expr>) returns (auxVars: seq<Expr>)
    modifies solver`asserted, solver`nextId
    ensures VarsOf(auxVars, FirstAux(old(solver.nextId), |soft|))
    ensures solver.asserted == old(solver.asserted) + FirstClauses(soft, old(solver.nextId), |soft|)
    ensures solver.nextId == old(solver.nextId) + |soft|
  {
    auxVars := [];
    ghost var base := solver.nextId;
    for i := 0 to |soft|
      invariant |auxVars| == i && solver.nextId == base + i
      invariant forall l :: 0 <= l < i ==> auxVars[l] == Var(base + l)
      invariant solver.asserted == old(solver.asserted) + FirstClauses(soft, base, i)
    {
      var auxVar := solver.MkFreshConst();
      auxVars := auxVars + [auxVar];
      solver.Assert(Or(soft[i], auxVar));
      assert FirstClauses(soft, base, i + 1) == FirstClauses(soft, base, i) + [Or(soft[i], Var(base + i))];
    }
  }

  /** The queries after the first `from`: k failed rounds. */
  predicate FailedRounds(log: seq<Query>, from: nat, k: nat) {
    |log| == from + k && forall i :: from <= i < from + k ==> log[i].answer.Unsat?
  }

  /** The queries of a run that returns r: one round has failed for every soft constraint given up. */
  predicate RunQueries(log: seq<Query>, from: nat, n: nat, r: nat) {
    && r <= n
    && if r == 0 then FailedRounds(log, from, n)
       else
         && |log| == from + n - r + 1 && !log[from + n - r].answer.Unsat?
         && FailedRounds(log[..from + n - r], from, n - r)
  }

  predicate Decided(log: seq<Query>, from: nat) {
    forall i :: from <= i < |log| ==> !log[i].answer.Unknown?
  }

  /** The last query on record could be satisfied. */
  ghost predicate LastSatisfiable(log: seq<Query>) {
    log != [] && Satisfiable(log[|log| - 1].asserted + log[|log| - 1].assumptions)
  }

  lemma {:induction false} LastQuery(log: seq<Query>, from: nat, n: nat, c: nat, q: Query)
    requires 0 < c <= n && FailedRounds(log, from, n - c)
    ensures q.answer.Unsat? ==> FailedRounds(log + [q], from, n - c + 1)
    ensures !q.answer.Unsat? ==> RunQueries(log + [q], from, n, c)
    ensures q.answer.Unknown? ==> !Decided(log + [q], from)
    ensures LastSatisfiable(log + [q]) == Satisfiable(q.asserted + q.assumptions)
  {
    assert (log + [q])[..from + n - c] == log;
    assert (log + [q])[from + n - c] == q;
  }

  lemma {:induction false} HitsBound(hits: seq<nat>, n: nat)
    requires Increasing(hits, n)
    ensures |hits| <= n
  {
    Pigeonhole(hits, n);
  }

  /** What the procedure does with a core: relax its members and let at most one of them be given up. */
  method FailRound(solver: Solver, ghost hard: seq<Expr>, ghost softIn: seq<Expr>, soft0: seq<Expr>,
                   auxVars0: seq<Expr>, ghost aux0: seq<nat>, core: seq<Expr>, assumptions: seq<Expr>, ghost c: nat)
      returns (soft: seq<Expr>, auxVars: seq<Expr>, ghost aux: seq<nat>)
    requires c > 0 && |softIn| < 0x8000_0000
    requires RoundInv(hard, softIn, solver.asserted, soft0, aux0, solver.nextId, c) && VarsOf(auxVars0, aux0)
    requires assumptions == Assumptions(aux0) && CorrectAnswer(solver.asserted, assumptions, Unsat(core))
    modifies solver`asserted, solver`nextId
    ensures RoundInv(hard, softIn, solver.asserted, soft, aux, solver.nextId, c - 1) && VarsOf(auxVars, aux)
  {
    ghost var h, base := solver.asserted, solver.nextId;
    var blockVars, k;
    ghost var hits;
    soft, auxVars, blockVars, k, hits, aux := RelaxCore(solver, soft0, auxVars0, aux0, assumptions, core);
    HitsBound(hits, |softIn|);
    var limit := LimitBlocks(solver, blockVars, k, base);
    NextRound(hard, softIn, h, soft0, aux0, base, c, core, hits, soft, aux, limit);
  }

  /** Fu & Malik: returns the largest number of soft constraints that hold together with the formulas asserted
      beforehand, if the solver decides every query.  When it gives up on one, that counts as success: the number is
      an upper bound, and the largest exactly when that query is satisfiable all the same. */
  method DoMaxSat(solver: Solver, softIn: seq<Expr>) returns (r: nat)
    requires Honest(solver.oracle) && FromOracle(solver.oracle, solver.log)
    requires AllBelow(solver.asserted, solver.nextId) && AllBelow(softIn, solver.nextId)
    requires |softIn| < 0x8000_0000
    modifies solver
    ensures FromOracle(solver.oracle, solver.log) && RunQueries(solver.log, |old(solver.log)|, |softIn|, r)
    ensures AtMostSat(old(solver.asserted), softIn, r)
    ensures IsMaxSat(old(solver.asserted), softIn, r) <==> r == 0 || LastSatisfiable(solver.log)
    ensures Decided(solver.log, |old(solver.log)|) ==> IsMaxSat(old(solver.asserted), softIn, r)
  {
    ghost var hard, base, from := solver.asserted, solver.nextId, |solver.log|;
    var n := |softIn|;
    if n == 0 {
      return 0;
    }
    var soft := softIn;
    var auxVars := GuardSoft(solver, softIn);
    ghost var aux := FirstAux(base, n);
    FirstRound(hard, softIn, base);
    var c: nat := n;
    while c != 0
      invariant RoundInv(hard, softIn, solver.asserted, soft, aux, solver.nextId, c)
      invariant VarsOf(auxVars, aux)
      invariant FromOracle(solver.oracle, solver.log) && FailedRounds(solver.log, from, n - c)
    {
      var assumptions := seq(n, i requires 0 <= i < n && |auxVars| == n => Not(auxVars[i]));
      assert assumptions == Assumptions(aux);
      ghost var h, start, log := solver.asserted, solver.nextId, solver.log;
      var answer := solver.CheckAssumptions(assumptions);
      LastQuery(log, from, n, c, Query(h, assumptions, answer));
      match answer {
        case Unsat(core) =>
          soft, auxVars, aux := FailRound(solver, hard, softIn, soft, auxVars, aux, core, assumptions, c);
        case _ =>
          RoundEnds(hard, softIn, h, soft, aux, start, c, answer);
          StopsAtOptimum(hard, softIn, h, soft, aux, start, c, Satisfiable(h + assumptions));
          return c;
      }
      c := c - 1;
    }
    RoundsExhausted(hard, softIn, solver.asserted, soft, aux, solver.nextId);
    return 0;
  }

  /** Z3_maxsat: wraps the solver and runs the procedure. */
  method Z3MaxSat(oracle: Oracle, hard: seq<Expr>, soft: seq<Expr>, nextId: nat) returns (r: nat, log: seq<Query>)
    requires Honest(oracle)
    requires AllBelow(hard, nextId) && AllBelow(soft, nextId) && |soft| < 0x8000_0000
    ensures FromOracle(oracle, log) && RunQueries(log, 0, |soft|, r) && AtMostSat(hard, soft, r)
    ensures IsMaxSat(hard, soft, r) <==> r == 0 || LastSatisfiable(log)
    ensures Decided(log, 0) ==> IsMaxSat(hard, soft, r)
  {
    var solver := new Solver(oracle, hard, nextId);
    r := DoMaxSat(solver, soft);
    log := solver.log;
  }

  lemma {:induction false} NoneOfOne()
    ensures IsMaxSat([Var(0)], [Not(Var(0))], 0)
  {
    forall m: Model | Holds([Var(0)], m)
      ensures Count([Not(Var(0))], m) == 0
    {
      assert Eval([Var(0)][0], m);
    }
    if Satisfiable([Var(0)]) {
      var m: Model :| Holds([Var(0)], m);
    }
  }

  /** A run with a solver that gives up at once: the one soft constraint contradicts the hard formula, so no soft
      constraint can be satisfied, yet one is what the procedure reports. */
  method GivingUpRun() returns (r: nat, log: seq<Query>)
    ensures r == 1 && |log| == 1 && log[0].answer == Unknown
    ensures IsMaxSat([Var(0)], [Not(Var(0))], 0) && !IsMaxSat([Var(0)], [Not(Var(0))], r)
  {
    r, log := Z3MaxSat((q, h, assumptions) => Unknown, [Var(0)], [Not(Var(0))], 1);
    NoneOfOne();
    assert |log| == 1 && log[0].answer == Unknown;
  }
}
