/** Which variables escape a branch: those assigned within its body and visible before it.

    Blocks hold linked lists of statements; a branch statement has a body block, and a block but the outermost belongs
    to a branch.  The users of a variable stand in no particular order. */
module BranchEscape {

  datatype Kind = Plain | Assign(target: nat, value: nat) | Branch(body: Block)

  class Block {
    var branch: Statement?
    /** The linked list of the block, and the height of the nesting above it. */
    ghost var statements: seq<Statement>
    ghost var depth: nat

    constructor (branch: Statement?)
      ensures this.branch == branch && statements == []
    {
      this.branch := branch;
      statements := [];
    }

    function GetPredecessor(): Block?
      reads this, branch
    {
      if branch == null then null else branch.parent
    }
  }

  class Statement {
    const kind: Kind
    var next: Statement?
    var parent: Block
    /** The place in the list of the parent. */
    ghost var pos: nat

    constructor (kind: Kind, parent: Block)
      ensures this.kind == kind && this.parent == parent && next == null
    {
      this.kind, this.parent, this.next := kind, parent, null;
    }
  }

  /** A user of a variable: a statement, or the kernel itself for its inputs and outputs. */
  datatype User = ByStatement(s: Statement) | ByKernel

  // ------------------------------------------------------------------ the shape of a program

  /** The blocks and statements of a kernel. */
  datatype Program = Program(blocks: set<Block>, statements: set<Statement>)

  ghost predicate Nested(p: Program)
    reads p.blocks, p.statements
  {
    && (forall s <- p.statements ::
          s.parent in p.blocks && s.pos < |s.parent.statements| && s.parent.statements[s.pos] == s)
    && (forall b <- p.blocks, i | 0 <= i < |b.statements| :: Linked(b, i, p))
    && (forall b <- p.blocks | b.branch != null ::
          b.branch in p.statements && b.branch.kind == Branch(b) && b.branch.parent.depth < b.depth)
    && (forall s <- p.statements | s.kind.Branch? :: s.kind.body in p.blocks && s.kind.body.branch == s)
  }

  /** Statement i of a block knows its place and is followed by the next. */
  ghost predicate Linked(b: Block, i: nat, p: Program)
    requires i < |b.statements|
    reads b, p.statements
  {
    var s := b.statements[i];
    s in p.statements && s.parent == b && s.pos == i && s.next == At(b, i + 1)
  }

  ghost function At(b: Block, i: nat): Statement?
    reads b
  {
    if i < |b.statements| then b.statements[i] else null
  }

  // ------------------------------------------------------------------ what the search looks for

  /** The scope is the body or nested in it. */
  ghost predicate Within(scope: Block, body: Block, p: Program)
    requires scope in p.blocks && Nested(p)
    reads p.blocks, p.statements
    decreases scope.depth
  {
    scope == body || (scope.branch != null && Within(scope.branch.parent, body, p))
  }

  /** The statement stands before the given one, or before a branch around it, in the same block. */
  ghost predicate Before(s: Statement, at: Statement, p: Program)
    requires s in p.statements && at in p.statements && Nested(p)
    reads p.blocks, p.statements
    decreases at.parent.depth
  {
    if s.parent == at.parent then s.pos < at.pos
    else at.parent.branch != null && Before(s, at.parent.branch, p)
  }

  /** The blocks met on the way out of the first one: each is the block of the branch around the one before it. */
  ghost predicate WayOut(way: seq<Block>, p: Program)
    requires Nested(p)
    reads p.blocks, p.statements
  {
    && way != [] && (forall b <- way :: b in p.blocks)
    && forall i :: 0 <= i < |way| - 1 ==> way[i].branch != null && way[i].branch.parent == way[i + 1]
  }

  ghost predicate Leads(scope: Block, body: Block, way: seq<Block>, p: Program)
    requires Nested(p)
    reads p.blocks, p.statements
  {
    WayOut(way, p) && way[0] == scope && way[|way| - 1] == body
  }

  lemma {:induction false} WithinLeads(scope: Block, body: Block, p: Program)
    requires Nested(p) && scope in p.blocks && Within(scope, body, p)
    ensures exists way: seq<Block> :: Leads(scope, body, way, p)
    decreases scope.depth
  {
    if scope == body {
      assert Leads(scope, body, [scope], p);
    } else {
      WithinLeads(scope.branch.parent, body, p);
      var way :| Leads(scope.branch.parent, body, way, p);
      assert Leads(scope, body, [scope] + way, p);
    }
  }

  lemma {:induction false} LeadsWithin(scope: Block, body: Block, way: seq<Block>, p: Program)
    requires Nested(p) && scope in p.blocks && Leads(scope, body, way, p)
    ensures Within(scope, body, p)
    decreases scope.depth
  {
    if |way| > 1 { LeadsWithin(way[1], body, way[1..], p); }
  }

  /** A block is within a body exactly when some way out of the block leads to the body. */
  lemma {:induction false} WithinMeans(scope: Block, body: Block, p: Program)
    requires Nested(p) && scope in p.blocks
    ensures Within(scope, body, p) <==> exists way: seq<Block> :: Leads(scope, body, way, p)
  {
    if Within(scope, body, p) { WithinLeads(scope, body, p); }
    forall way: seq<Block> | Leads(scope, body, way, p)
      ensures Within(scope, body, p)
    {
      LeadsWithin(scope, body, way, p);
    }
  }

  /** Every step of the way leads to a block less deeply nested. */
  lemma {:induction false} WayIsUp(way: seq<Block>, p: Program)
    requires Nested(p) && WayOut(way, p)
    ensures way[|way| - 1].depth + |way| <= way[0].depth + 1
    decreases |way|
  {
    if |way| > 1 {
      assert WayOut(way[1..], p);
      WayIsUp(way[1..], p);
    }
  }

  /** A way from the block of a statement to the block of another one, left through a statement after that one: the
      first statement itself, or the branch that the way leaves last. */
  ghost predicate PassesBy(s: Statement, at: Statement, way: seq<Block>, p: Program)
    requires Nested(p)
    reads p.blocks, p.statements, s, at
  {
    && WayOut(way, p) && way[0] == at.parent && way[|way| - 1] == s.parent
    && s.pos < (if |way| == 1 then at.pos else way[|way| - 2].branch.pos)
  }

  lemma {:induction false} PassesOutwards(s: Statement, at: Statement, way: seq<Block>, p: Program)
    requires Nested(p) && at in p.statements && at.parent.branch != null && PassesBy(s, at.parent.branch, way, p)
    ensures PassesBy(s, at, [at.parent] + way, p)
  {
    assert WayOut([at.parent] + way, p);
  }

  lemma {:induction false} BeforePasses(s: Statement, at: Statement, p: Program)
    requires s in p.statements && at in p.statements && Nested(p) && Before(s, at, p)
    ensures exists way: seq<Block> :: PassesBy(s, at, way, p)
    decreases at.parent.depth
  {
    var b := at.parent;
    if s.parent == b {
      assert PassesBy(s, at, [b], p);
    } else {
      BeforePasses(s, b.branch, p);
      var way :| PassesBy(s, b.branch, way, p);
      PassesOutwards(s, at, way, p);
    }
  }

  lemma {:induction false} PassesBefore(s: Statement, at: Statement, way: seq<Block>, p: Program)
    requires s in p.statements && at in p.statements && Nested(p) && PassesBy(s, at, way, p)
    ensures Before(s, at, p)
    decreases at.parent.depth
  {
    WayIsUp(way, p);
    if |way| > 1 {
      assert WayOut(way[1..], p);
      PassesBefore(s, at.parent.branch, way[1..], p);
    }
  }

  /** A statement is before another exactly when some way out of the other one passes by it. */
  lemma {:induction false} BeforeMeans(s: Statement, at: Statement, p: Program)
    requires s in p.statements && at in p.statements && Nested(p)
    ensures Before(s, at, p) <==> exists way: seq<Block> :: PassesBy(s, at, way, p)
  {
    if Before(s, at, p) { BeforePasses(s, at, p); }
    forall way: seq<Block> | PassesBy(s, at, way, p)
      ensures Before(s, at, p)
    {
      PassesBefore(s, at, way, p);
    }
  }

  ghost predicate KnownUsers(users: seq<User>, p: Program) {
    forall u <- users :: u.ByStatement? ==> u.s in p.statements
  }

  ghost predicate IsInside(u: User, br: Statement, p: Program)
    requires Nested(p) && br in p.statements && br.kind.Branch?
    requires u.ByStatement? ==> u.s in p.statements
    reads p.blocks, p.statements
  {
    u.ByStatement? && u.s.kind.Assign? && Within(u.s.parent, br.kind.body, p)
  }

  ghost predicate IsOutside(u: User, br: Statement, p: Program)
    requires Nested(p) && br in p.statements
    requires u.ByStatement? ==> u.s in p.statements
    reads p.blocks, p.statements
  {
    u.ByKernel? || (u.s.kind.Assign? && Before(u.s, br, p))
  }

  // ------------------------------------------------------------------ the search

  /** The walk from a scope to the blocks around it. */
  method InBody(scope: Block, br: Statement, ghost p: Program) returns (found: bool)
    requires Nested(p) && scope in p.blocks && br in p.statements && br.kind.Branch?
    ensures found == Within(scope, br.kind.body, p)
  {
    var test: Block? := scope;
    while test != null
      invariant test != null ==> test in p.blocks
      invariant test != null ==>
        Within(test, br.kind.body, p) == Within(scope, br.kind.body, p)
      invariant test == null ==> !Within(scope, br.kind.body, p)
      decreases if test == null then 0 else test.depth + 1
    {
      if test == br.kind.body { return true; }
      test := test.GetPredecessor();
    }
    return false;
  }

  /** Two pointers start at two statements of one list and move together; the one that starts first meets the start of
      the other, or sees it run off the end. */
  method Precedes(user: Statement, check: Statement, ghost p: Program)
    returns (earlier: bool)
    requires Nested(p) && user in p.statements && check in p.statements
    requires user.parent == check.parent && user != check
    ensures earlier == (user.pos < check.pos)
  {
    ghost var b, u, c, k := user.parent, user.pos, check.pos, 0;
    var temp1: Statement?, temp2: Statement? := user, check;
    while temp1 != null && temp2 != null
      invariant temp1 == At(b, u + k) && temp2 == At(b, c + k)
      invariant u + k <= |b.statements| && c + k <= |b.statements|
      invariant (u < c ==> u + k <= c) && (u > c ==> c + k <= u)
      decreases |b.statements| - u - k
    {
      assert Linked(b, u + k, p) && Linked(b, c + k, p);
      if temp1 == check {
        break;
      } else if temp2 == user {
        temp1 := null;
        break;
      }
      temp1, temp2 := temp1.next, temp2.next;
      k := k + 1;
    }
    earlier := temp1 != null;
  }

  /** The walk from a branch to the branches around it, up to the block of the assignment. */
  method Dominates(user: Statement, br: Statement, ghost p: Program)
    returns (earlier: bool)
    requires Nested(p) && user in p.statements && user.kind.Assign? && br in p.statements && br.kind.Branch?
    ensures earlier == Before(user, br, p)
  {
    var check := br;
    var test := br.parent;
    while true
      invariant check in p.statements && check.kind.Branch? && test == check.parent
      invariant Before(user, check, p) == Before(user, br, p)
      decreases test.depth
    {
      if test == user.parent {
        earlier := Precedes(user, check, p);
        return;
      }
      if test.branch == null { return false; }
      check := test.branch;
      test := check.parent;
    }
  }

  /** What is nested in the body of a branch is deeper than every block around the branch. */
  lemma {:induction false} WithinIsDeeper(scope: Block, body: Block, p: Program)
    requires Nested(p) && scope in p.blocks && Within(scope, body, p)
    ensures scope.depth >= body.depth
    decreases scope.depth
  {
    if scope != body { WithinIsDeeper(scope.branch.parent, body, p); }
  }

  lemma {:induction false} BeforeIsShallower(s: Statement, at: Statement, p: Program)
    requires Nested(p) && s in p.statements && at in p.statements && Before(s, at, p)
    ensures s.parent.depth <= at.parent.depth
    decreases at.parent.depth
  {
    if s.parent != at.parent { BeforeIsShallower(s, at.parent.branch, p); }
  }

  /** No assignment is both in the body of a branch and before the branch. */
  lemma {:induction false} NotBoth(u: User, br: Statement, p: Program)
    requires Nested(p) && br in p.statements && br.kind.Branch?
    requires (u.ByStatement? ==> u.s in p.statements) && IsInside(u, br, p)
    ensures !IsOutside(u, br, p)
  {
    WithinIsDeeper(u.s.parent, br.kind.body, p);
    if Before(u.s, br, p) { BeforeIsShallower(u.s, br, p); }
  }

  ghost predicate Inside(users: seq<User>, i: nat, br: Statement, p: Program)
    requires Nested(p) && br in p.statements && br.kind.Branch? && KnownUsers(users, p) && i < |users|
    reads p.blocks, p.statements
  {
    IsInside(users[i], br, p)
  }

  ghost predicate Outside(users: seq<User>, i: nat, br: Statement, p: Program)
    requires Nested(p) && br in p.statements && KnownUsers(users, p) && i < |users|
    reads p.blocks, p.statements
  {
    IsOutside(users[i], br, p)
  }

  ghost predicate SomeInside(users: seq<User>, n: nat, br: Statement, p: Program)
    requires Nested(p) && br in p.statements && br.kind.Branch? && KnownUsers(users, p) && n <= |users|
    reads p.blocks, p.statements
  {
    n > 0 && (SomeInside(users, n - 1, br, p) || Inside(users, n - 1, br, p))
  }

  ghost predicate SomeOutside(users: seq<User>, n: nat, br: Statement, p: Program)
    requires Nested(p) && br in p.statements && KnownUsers(users, p) && n <= |users|
    reads p.blocks, p.statements
  {
    n > 0 && (SomeOutside(users, n - 1, br, p) || Outside(users, n - 1, br, p))
  }

  ghost predicate EscapesFrom(users: seq<User>, br: Statement, p: Program)
    requires Nested(p) && br in p.statements && br.kind.Branch? && KnownUsers(users, p)
    reads p.blocks, p.statements
  {
    SomeInside(users, |users|, br, p) && SomeOutside(users, |users|, br, p)
  }

  /** Some user is in the body, and some user is outside. */
  ghost predicate UsedOnBothSides(users: seq<User>, br: Statement, p: Program)
    requires Nested(p) && br in p.statements && br.kind.Branch? && KnownUsers(users, p)
    reads p.blocks, p.statements
  {
    && (exists i: nat :: i < |users| && Inside(users, i, br, p))
    && (exists i: nat :: i < |users| && Outside(users, i, br, p))
  }

  /** A variable escapes exactly when some assignment with it is within the body, and it is used by the kernel or by an
      assignment that reaches the branch. */
  lemma {:induction false} EscapesMeans(users: seq<User>, br: Statement, p: Program)
    requires Nested(p) && br in p.statements && br.kind.Branch? && KnownUsers(users, p)
    ensures EscapesFrom(users, br, p) <==> UsedOnBothSides(users, br, p)
  {
    InsideMeans(users, |users|, br, p);
    OutsideMeans(users, |users|, br, p);
  }

  lemma {:induction false} InsideMeans(users: seq<User>, n: nat, br: Statement, p: Program)
    requires Nested(p) && br in p.statements && br.kind.Branch? && KnownUsers(users, p) && n <= |users|
    ensures SomeInside(users, n, br, p) <==> exists i: nat :: i < n && Inside(users, i, br, p)
  {
    if n > 0 { InsideMeans(users, n - 1, br, p); }
  }

  lemma {:induction false} OutsideMeans(users: seq<User>, n: nat, br: Statement, p: Program)
    requires Nested(p) && br in p.statements && KnownUsers(users, p) && n <= |users|
    ensures SomeOutside(users, n, br, p) <==> exists i: nat :: i < n && Outside(users, i, br, p)
  {
    if n > 0 { OutsideMeans(users, n - 1, br, p); }
  }

  lemma {:induction false} InsideStays(users: seq<User>, n: nat, m: nat, br: Statement, p: Program)
    requires Nested(p) && br in p.statements && br.kind.Branch? && KnownUsers(users, p) && n <= m <= |users|
    ensures SomeInside(users, n, br, p) ==> SomeInside(users, m, br, p)
    ensures SomeOutside(users, n, br, p) ==> SomeOutside(users, m, br, p)
  {
    if n < m { InsideStays(users, n, m - 1, br, p); }
  }

  /** User i of the variable, at most one of the two kinds having been met before. */
  method Visit(users: seq<User>, i: nat, br: Statement, inside: bool, outside: bool,
               ghost p: Program) returns (nowInside: bool, nowOutside: bool)
    requires Nested(p) && br in p.statements && br.kind.Branch? && KnownUsers(users, p)
    requires i < |users| && (!inside || !outside)
    requires inside == SomeInside(users, i, br, p) && outside == SomeOutside(users, i, br, p)
    ensures nowInside == SomeInside(users, i + 1, br, p)
    ensures nowOutside == SomeOutside(users, i + 1, br, p)
  {
    nowInside, nowOutside := inside, outside;
    var user := users[i];
    assert user in users;
    if user.ByStatement? && user.s.kind.Assign? {
      if !inside {
        nowInside := InBody(user.s.parent, br, p);
        if nowInside {
          NotBoth(user, br, p);
          return;
        }
      }
      if !outside {
        nowOutside := Dominates(user.s, br, p);
      }
    } else if user.ByKernel? && !outside {
      nowOutside := true;
    }
  }

  /** The search stops as soon as both kinds of users have been met, in whatever order. */
  method Escapes(users: seq<User>, br: Statement, ghost p: Program)
    returns (r: bool)
    requires Nested(p) && br in p.statements && br.kind.Branch? && KnownUsers(users, p)
    ensures r == EscapesFrom(users, br, p)
  {
    var inside, outside := false, false;
    for i := 0 to |users|
      invariant inside == SomeInside(users, i, br, p)
      invariant outside == SomeOutside(users, i, br, p)
      invariant !inside || !outside
    {
      inside, outside := Visit(users, i, br, inside, outside, p);
      if inside && outside {
        InsideStays(users, i + 1, |users|, br, p);
        return true;
      }
    }
    return false;
  }

  ghost predicate AllKnown(variables: seq<seq<User>>, p: Program) {
    forall v :: 0 <= v < |variables| ==> KnownUsers(variables[v], p)
  }

  /** The numbers of the variables below n that are used on both sides, in increasing order. */
  ghost predicate EscapedAre(escaped: seq<nat>, variables: seq<seq<User>>, n: nat, br: Statement, p: Program)
    requires Nested(p) && br in p.statements && br.kind.Branch? && AllKnown(variables, p) && n <= |variables|
    reads p.blocks, p.statements
  {
    && (forall v: nat :: v in escaped <==> v < n && UsedOnBothSides(variables[v], br, p))
    && (forall i, j :: 0 <= i < j < |escaped| ==> escaped[i] < escaped[j])
  }

  lemma {:induction false} OneMoreVariable(escaped: seq<nat>, variables: seq<seq<User>>, n: nat, br: Statement,
                                           p: Program)
    requires Nested(p) && br in p.statements && br.kind.Branch? && AllKnown(variables, p) && n < |variables|
    requires EscapedAre(escaped, variables, n, br, p)
    ensures EscapedAre(if UsedOnBothSides(variables[n], br, p) then escaped + [n] else escaped, variables, n + 1, br, p)
  {
    forall i | 0 <= i < |escaped|
      ensures escaped[i] < n
    {
      assert escaped[i] in escaped;
    }
  }

  /** Branch::getEscaped: the variables of the kernel that escape, in order; a variable is given by its users. */
  method GetEscaped(variables: seq<seq<User>>, br: Statement, ghost p: Program)
    returns (escaped: seq<nat>)
    requires Nested(p) && br in p.statements && br.kind.Branch? && AllKnown(variables, p)
    ensures EscapedAre(escaped, variables, |variables|, br, p)
  {
    escaped := [];
    for i := 0 to |variables|
      invariant EscapedAre(escaped, variables, i, br, p)
    {
      var r := Escapes(variables[i], br, p);
      EscapesMeans(variables[i], br, p);
      OneMoreVariable(escaped, variables, i, br, p);
      if r { escaped := escaped + [i]; }
    }
  }

  // ------------------------------------------------------------------ assignments that only read the variable

  /** An assignment to the variable, not merely one that reads it. */
  predicate Writes(u: User, v: nat) {
    u.ByStatement? && u.s.kind.Assign? && u.s.kind.target == v
  }

  ghost predicate WriterInside(v: nat, users: seq<User>, br: Statement, p: Program)
    requires Nested(p) && br in p.statements && br.kind.Branch? && KnownUsers(users, p)
    reads p.blocks, p.statements
  {
    exists i: nat :: i < |users| && Inside(users, i, br, p) && Writes(users[i], v)
  }

  /** The kernel, or an assignment to the variable before the branch. */
  ghost predicate SupplierOutside(v: nat, users: seq<User>, br: Statement, p: Program)
    requires Nested(p) && br in p.statements && br.kind.Branch? && KnownUsers(users, p)
    reads p.blocks, p.statements
  {
    exists i: nat :: i < |users| && Outside(users, i, br, p) && (users[i].ByKernel? || Writes(users[i], v))
  }

  /** The variable is given a value within the body, and has one before the branch. */
  ghost predicate ValueEscapes(v: nat, users: seq<User>, br: Statement, p: Program)
    requires Nested(p) && br in p.statements && br.kind.Branch? && KnownUsers(users, p)
    reads p.blocks, p.statements
  {
    WriterInside(v, users, br, p) && SupplierOutside(v, users, br, p)
  }

  /** Some user of the given side is an assignment, and every such user merely reads the variable. */
  ghost predicate OnlyReadersInside(v: nat, users: seq<User>, br: Statement, p: Program)
    requires Nested(p) && br in p.statements && br.kind.Branch? && KnownUsers(users, p)
    reads p.blocks, p.statements
  {
    && (exists i: nat :: i < |users| && Inside(users, i, br, p))
    && (forall i: nat :: i < |users| && Inside(users, i, br, p) ==> users[i].s.kind.target != v)
  }

  ghost predicate OnlyReadersOutside(v: nat, users: seq<User>, br: Statement, p: Program)
    requires Nested(p) && br in p.statements && br.kind.Branch? && KnownUsers(users, p)
    reads p.blocks, p.statements
  {
    && (exists i: nat :: i < |users| && Outside(users, i, br, p))
    && (forall i: nat :: i < |users| && Outside(users, i, br, p) ==>
          users[i].ByStatement? && users[i].s.kind.target != v)
  }

  /** Exactly when the search answers something else: one side has readers only, and the other side has some user.  It
      then says that the variable escapes although its value does not; it never errs the other way. */
  lemma {:induction false} EscapesWrongly(v: nat, users: seq<User>, br: Statement, p: Program)
    requires Nested(p) && br in p.statements && br.kind.Branch? && KnownUsers(users, p)
    ensures ValueEscapes(v, users, br, p) ==> EscapesFrom(users, br, p)
    ensures EscapesFrom(users, br, p) != ValueEscapes(v, users, br, p) <==>
      || (OnlyReadersInside(v, users, br, p) && exists i: nat :: i < |users| && Outside(users, i, br, p))
      || (OnlyReadersOutside(v, users, br, p) && exists i: nat :: i < |users| && Inside(users, i, br, p))
  {
    EscapesMeans(users, br, p);
    ReadersOrWriter(v, users, br, p);
  }

  /** On either side there is nobody, or only readers, or somebody who gives the variable a value. */
  lemma {:induction false} ReadersOrWriter(v: nat, users: seq<User>, br: Statement, p: Program)
    requires Nested(p) && br in p.statements && br.kind.Branch? && KnownUsers(users, p)
    ensures (exists i: nat :: i < |users| && Inside(users, i, br, p)) <==>
      WriterInside(v, users, br, p) || OnlyReadersInside(v, users, br, p)
    ensures !(WriterInside(v, users, br, p) && OnlyReadersInside(v, users, br, p))
    ensures (exists i: nat :: i < |users| && Outside(users, i, br, p)) <==>
      SupplierOutside(v, users, br, p) || OnlyReadersOutside(v, users, br, p)
    ensures !(SupplierOutside(v, users, br, p) && OnlyReadersOutside(v, users, br, p))
  {
  }

  /** In particular it decides whether a value escapes when no assignment merely reads the variable. */
  lemma {:induction false} NoReaders(v: nat, users: seq<User>, br: Statement, p: Program)
    requires Nested(p) && br in p.statements && br.kind.Branch? && KnownUsers(users, p)
    requires forall u <- users :: u.ByStatement? && u.s.kind.Assign? ==> u.s.kind.target == v
    ensures EscapesFrom(users, br, p) == ValueEscapes(v, users, br, p)
  {
    EscapesWrongly(v, users, br, p);
  }

  ghost predicate ReaderShape(outer: Block, body: Block, first: Statement, br: Statement, inner: Statement)
    reads outer, body, first, br, inner
  {
    && outer != body && first != br && br != inner && first != inner
    && outer.branch == null && body.branch == br && outer.depth == 0 && body.depth == 1
    && outer.statements == [first, br] && body.statements == [inner]
    && first.kind == Assign(0, 1) && br.kind == Branch(body) && inner.kind == Assign(2, 1)
    && first.parent == outer && br.parent == outer && inner.parent == body
    && first.next == br && br.next == null && inner.next == null && first.pos == 0 && br.pos == 1 && inner.pos == 0
  }

  lemma {:induction false} ReaderProgram(outer: Block, body: Block, first: Statement, br: Statement, inner: Statement)
    requires ReaderShape(outer, body, first, br, inner)
    ensures Nested(Program({outer, body}, {first, br, inner}))
  {
    var p := Program({outer, body}, {first, br, inner});
    assert Linked(outer, 0, p) && Linked(outer, 1, p) && Linked(body, 0, p);
  }

  lemma {:induction false} ReaderEscapesFrom(outer: Block, body: Block, first: Statement, br: Statement,
                                             inner: Statement)
    requires ReaderShape(outer, body, first, br, inner) && Nested(Program({outer, body}, {first, br, inner}))
    ensures EscapesFrom([ByStatement(first), ByStatement(inner)], br, Program({outer, body}, {first, br, inner}))
  {
    var users, p := [ByStatement(first), ByStatement(inner)], Program({outer, body}, {first, br, inner});
    EscapesMeans(users, br, p);
    assert Inside(users, 1, br, p) && Outside(users, 0, br, p);
  }

  /** A block with an assignment of variable 1 to variable 0, then a branch whose body assigns variable 1 to variable
      2. */
  method ReadingProgram() returns (outer: Block, body: Block, first: Statement, br: Statement, inner: Statement)
    ensures ReaderShape(outer, body, first, br, inner)
  {
    outer := new Block(null);
    body := new Block(null);
    first := new Statement(Assign(0, 1), outer);
    br := new Statement(Branch(body), outer);
    inner := new Statement(Assign(2, 1), body);
    body.branch := br;
    first.next := br;
    outer.statements, outer.depth, body.statements, body.depth := [first, br], 0, [inner], 1;
    first.pos, br.pos, inner.pos := 0, 1, 0;
  }

  /** An assignment that reads the variable is a user too: variable 1 is never assigned, only read before a branch and
      in its body, and is still said to escape. */
  method ReaderEscapes() returns (users: seq<User>, r: bool)
    ensures r && forall u <- users :: u.ByStatement? && u.s.kind.Assign? && u.s.kind.value == 1 && u.s.kind.target != 1
  {
    var outer, body, first, br, inner := ReadingProgram();
    ReaderProgram(outer, body, first, br, inner);
    ReaderEscapesFrom(outer, body, first, br, inner);
    users := [ByStatement(first), ByStatement(inner)];
    r := Escapes(users, br, Program({outer, body}, {first, br, inner}));
  }
}
