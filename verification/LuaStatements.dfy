/** Local assignments, if statements and while and repeat loops
    (modules/lua/lparser.c), compiled with the code generator: finished code does
    what the source says, and ends exactly if it does. */
module LuaStatements {
  import opened Common
  import opened LuaVm
  import opened LuaPatch
  import opened LuaCodeSpec
  import opened LuaCodeFlow
  import opened LuaCodeHolds
  import opened LuaCodeGen

  datatype Stmt =
    | Assign(r: nat, x: Expr)
    | If(arms: Arms)
    | While(c: Expr, body: seq<Stmt>)
    | Repeat(body: seq<Stmt>, c: Expr)

  /** What follows `if` up to `end`: conditions with their blocks, and an
      optional else block. */
  datatype Arms =
    | End
    | Else(body: seq<Stmt>)
    | Arm(c: Expr, block: seq<Stmt>, rest: Arms)

  /** How a statement ends, or that it does not within the turns there are. */
  datatype Course = Done(rs: Regs) | Never

  function ExecBlock(b: seq<Stmt>, cmp: Comparer, rs: Regs): (r: Course)
    ensures r.Done? ==> r.rs.turns <= rs.turns
    decreases rs.turns, b
  {
    if b == [] then Done(rs) else
    match ExecBlock(b[..|b| - 1], cmp, rs)
    case Never => Never
    case Done(rs1) => ExecStmt(b[|b| - 1], cmp, rs1)
  }

  function ExecStmt(s: Stmt, cmp: Comparer, rs: Regs): (r: Course)
    ensures r.Done? ==> r.rs.turns <= rs.turns
    decreases rs.turns, s
  {
    match s
    case Assign(r, x) => Done(Put(rs, r, Eval(x, cmp, rs)))
    case If(arms) => ExecArms(arms, cmp, rs)
    case While(c, body) =>
      if !Truthy(Eval(c, cmp, rs)) then Done(rs) else
      (match ExecBlock(body, cmp, rs)
       case Never => Never
       case Done(rs1) => if rs1.turns == 0 then Never else ExecStmt(s, cmp, rs1.(turns := rs1.turns - 1)))
    case Repeat(body, c) =>
      match ExecBlock(body, cmp, rs)
      case Never => Never
      case Done(rs1) =>
        if Truthy(Eval(c, cmp, rs1)) then Done(rs1)
        else if rs1.turns == 0 then Never else ExecStmt(s, cmp, rs1.(turns := rs1.turns - 1))
  }

  function ExecArms(a: Arms, cmp: Comparer, rs: Regs): (r: Course)
    ensures r.Done? ==> r.rs.turns <= rs.turns
    decreases rs.turns, a
  {
    match a
    case End => Done(rs)
    case Else(body) => ExecBlock(body, cmp, rs)
    case Arm(c, block, rest) => if Truthy(Eval(c, cmp, rs)) then ExecBlock(block, cmp, rs) else ExecArms(rest, cmp, rs)
  }

  /** Every expression fits: its locals exist and there are registers enough. */
  ghost predicate FitsExpr(x: Expr, n: int) {
    LocalsBelow(x, n) && n + Registers(x) <= MAXREGS
  }

  ghost predicate FitsBlock(b: seq<Stmt>, n: int)
    decreases b
  {
    forall i | 0 <= i < |b| :: FitsStmt(b[i], n)
  }

  ghost predicate FitsStmt(s: Stmt, n: int)
    decreases s
  {
    match s
    case Assign(r, x) => r < n && FitsExpr(x, n)
    case If(arms) => FitsArms(arms, n)
    case While(c, body) => FitsExpr(c, n) && FitsBlock(body, n)
    case Repeat(body, c) => FitsBlock(body, n) && FitsExpr(c, n)
  }

  ghost predicate FitsArms(a: Arms, n: int)
    decreases a
  {
    match a
    case End => true
    case Else(body) => FitsBlock(body, n)
    case Arm(c, block, rest) => FitsExpr(c, n) && FitsBlock(block, n) && FitsArms(rest, n)
  }

  // ----- What statements come to -----

  /** One block after another. */
  lemma {:induction false} BlockJoined(a: seq<Stmt>, b: seq<Stmt>, cmp: Comparer, rs: Regs)
    ensures ExecBlock(a + b, cmp, rs) ==
      match ExecBlock(a, cmp, rs) case Never => Never case Done(rs1) => ExecBlock(b, cmp, rs1)
    decreases b
  {
    if b == [] {
      assert a + b == a;
    } else {
      var n := |b| - 1;
      assert (a + b)[..|a| + n] == a + b[..n];
      BlockJoined(a, b[..n], cmp, rs);
    }
  }

  /** An assignment changes one local; a branch is taken if its condition is neither
      nil nor false; a loop does nothing if its condition is. */
  lemma {:induction false} StmtRuns(r: nat, c: Expr, block: seq<Stmt>, rest: Arms, cmp: Comparer, rs: Regs)
    requires r < |rs.vals|
    ensures ExecBlock([Assign(r, c)], cmp, rs) == Done(rs.(vals := rs.vals[r := Eval(c, cmp, rs)]))
    ensures ExecStmt(If(End), cmp, rs) == Done(rs) && ExecStmt(If(Else(block)), cmp, rs) == ExecBlock(block, cmp, rs)
    ensures var no := Eval(c, cmp, rs) == Nil || Eval(c, cmp, rs) == Bool(false);
      && ExecStmt(If(Arm(c, block, rest)), cmp, rs)
         == (if no then ExecStmt(If(rest), cmp, rs) else ExecBlock(block, cmp, rs))
      && (no ==> ExecStmt(While(c, block), cmp, rs) == Done(rs))
  {
    assert [Assign(r, c)][..0] == [];
  }

  /** Going once more through a loop takes a turn. */
  lemma {:induction false} LoopUnrolls(c: Expr, body: seq<Stmt>, cmp: Comparer, rs: Regs)
    requires Eval(c, cmp, rs) != Nil && Eval(c, cmp, rs) != Bool(false)
    requires ExecBlock(body + [While(c, body)], cmp, rs).Done?
    ensures ExecStmt(While(c, body), cmp, rs.(turns := rs.turns + 1)) == ExecBlock(body + [While(c, body)], cmp, rs)
  {
    hide Eval;
    var w := While(c, body);
    BlockJoined(body, [w], cmp, rs);
    assert [w][..0] == [];
    EvalTurns(c, cmp, rs, rs.turns + 1);
    BlockMore(body, cmp, rs, 1);
    var rs1 := ExecBlock(body, cmp, rs).rs;
    assert rs1.(turns := rs1.turns + 1).(turns := rs1.turns) == rs1;
  }

  /** When a loop ends its condition has become false, or true for `until`. */
  lemma {:induction false} LoopEnds(c: Expr, body: seq<Stmt>, cmp: Comparer, rs: Regs)
    ensures var r := ExecStmt(While(c, body), cmp, rs);
      r.Done? ==> Eval(c, cmp, r.rs) == Nil || Eval(c, cmp, r.rs) == Bool(false)
    ensures var r := ExecStmt(Repeat(body, c), cmp, rs);
      r.Done? ==> Eval(c, cmp, r.rs) != Nil && Eval(c, cmp, r.rs) != Bool(false)
    decreases rs.turns
  {
    hide Eval;
    var r := ExecBlock(body, cmp, rs);
    if r.Done? && r.rs.turns > 0 { LoopEnds(c, body, cmp, r.rs.(turns := r.rs.turns - 1)); }
  }

  // ----- A statement's effect depends only on the locals -----

  lemma {:induction false} FitsLocals(x: Expr, n: int)
    requires FitsExpr(x, n)
    ensures LocalsBelow(x, n)
  {
  }

  ghost predicate SameCourse(r: Course, r1: Course, n: int) {
    if r.Done? then r1.Done? && Agree(r.rs, r1.rs, n, -1) else r1.Never?
  }

  lemma {:induction false} BlockAgrees(b: seq<Stmt>, cmp: Comparer, rs: Regs, rs1: Regs, n: int)
    requires Agree(rs, rs1, n, -1) && FitsBlock(b, n)
    ensures SameCourse(ExecBlock(b, cmp, rs), ExecBlock(b, cmp, rs1), n)
    decreases rs.turns, b
  {
    hide Agree, FitsStmt, FitsExpr;
    if b != [] {
      var m := |b| - 1;
      assert forall i | 0 <= i < m :: b[..m][i] == b[i];
      BlockAgrees(b[..m], cmp, rs, rs1, n);
      var r, r1 := ExecBlock(b[..m], cmp, rs), ExecBlock(b[..m], cmp, rs1);
      if r.Done? { StmtAgrees(b[m], cmp, r.rs, r1.rs, n); }
    }
  }

  lemma {:induction false} StmtAgrees(s: Stmt, cmp: Comparer, rs: Regs, rs1: Regs, n: int)
    requires Agree(rs, rs1, n, -1) && FitsStmt(s, n)
    ensures SameCourse(ExecStmt(s, cmp, rs), ExecStmt(s, cmp, rs1), n)
    decreases rs.turns, s, 1
  {
    hide Eval, FitsArms;
    match s
    case Assign(r, x) =>
      EvalAgrees(x, cmp, rs, rs1, n);
      var v := Eval(x, cmp, rs);
      forall q | 0 <= q < n ensures Get(Put(rs, r, v), q) == Get(Put(rs1, r, v), q) {
        assert Get(rs, q) == Get(rs1, q);
      }
    case If(arms) => ArmsAgree(arms, cmp, rs, rs1, n);
    case While(c, body) =>
      hide Agree;
      EvalAgrees(c, cmp, rs, rs1, n);
      BlockAgrees(body, cmp, rs, rs1, n);
      if Truthy(Eval(c, cmp, rs)) && ExecBlock(body, cmp, rs).Done? {
        AgainAgrees(s, cmp, ExecBlock(body, cmp, rs).rs, ExecBlock(body, cmp, rs1).rs, n);
      }
    case Repeat(body, c) =>
      hide Agree;
      BlockAgrees(body, cmp, rs, rs1, n);
      if ExecBlock(body, cmp, rs).Done? {
        EvalAgrees(c, cmp, ExecBlock(body, cmp, rs).rs, ExecBlock(body, cmp, rs1).rs, n);
        AgainAgrees(s, cmp, ExecBlock(body, cmp, rs).rs, ExecBlock(body, cmp, rs1).rs, n);
      }
  }

  /** One more turn of a loop. */
  lemma {:induction false} AgainAgrees(s: Stmt, cmp: Comparer, rs: Regs, rs1: Regs, n: int)
    requires Agree(rs, rs1, n, -1) && FitsStmt(s, n)
    ensures rs.turns == rs1.turns
    ensures rs.turns > 0 ==> SameCourse(ExecStmt(s, cmp, rs.(turns := rs.turns - 1)),
        ExecStmt(s, cmp, rs1.(turns := rs1.turns - 1)), n)
    decreases rs.turns, s, 0
  {
    if rs.turns > 0 {
      var r, r1 := rs.(turns := rs.turns - 1), rs1.(turns := rs1.turns - 1);
      assert forall q | 0 <= q < n :: Get(r, q) == Get(rs, q) == Get(rs1, q) == Get(r1, q);
      StmtAgrees(s, cmp, r, r1, n);
    }
  }

  lemma {:induction false} ArmsAgree(a: Arms, cmp: Comparer, rs: Regs, rs1: Regs, n: int)
    requires Agree(rs, rs1, n, -1) && FitsArms(a, n)
    ensures SameCourse(ExecArms(a, cmp, rs), ExecArms(a, cmp, rs1), n)
    decreases rs.turns, a
  {
    hide Agree, FitsStmt, FitsExpr;
    match a
    case End =>
    case Else(body) => BlockAgrees(body, cmp, rs, rs1, n);
    case Arm(c, block, rest) =>
      FitsLocals(c, n);
      EvalAgrees(c, cmp, rs, rs1, n);
      BlockAgrees(block, cmp, rs, rs1, n);
      ArmsAgree(rest, cmp, rs, rs1, n);
  }

  // ----- Effects -----

  datatype Piece = OfBlock(b: seq<Stmt>) | OfStmt(s: Stmt) | OfArms(a: Arms)

  function Exec(p: Piece, cmp: Comparer, rs: Regs): Course {
    match p
    case OfBlock(b) => ExecBlock(b, cmp, rs)
    case OfStmt(s) => ExecStmt(s, cmp, rs)
    case OfArms(a) => ExecArms(a, cmp, rs)
  }

  /** Control that fell out before the piece now falls out, or leaves through
      `l`, with the locals as executing the piece leaves them, or never ends if
      that does not; the exits of others are taken as before. */
  ghost predicate EffectAt(o: Outcome, o': Outcome, l: seq<int>, p: Piece, cmp: Comparer, n: int) {
    && (o.Fall? && |o.rs.vals| == MAXREGS ==> Follows(o', l, Exec(p, cmp, o.rs), n))
    && (!o.Fall? ==> o' == o)
  }

  ghost predicate Follows(o: Outcome, l: seq<int>, r: Course, n: int) {
    match r
    case Never => o.Spent?
    case Done(rs) => (o.Fall? || (o.Jump? && o.at in l)) && Agree(o.rs, rs, n, -1)
  }

  ghost predicate Effect(s: Snap, s': Snap, l: seq<int>, p: Piece, cmp: Comparer, orgs: set<int>, n: int) {
    && (forall st: Start :: EffectAt(Flow(s, cmp, orgs, st), Flow(s', cmp, orgs, st), l, p, cmp, n))
    && OldExits(s, s', l, cmp, orgs)
  }

  /** The pending jumps after a piece of code: those of others, jpc and the new
      exits `l`. Those of others are untouched, but for the list `es`. */
  ghost predicate GrownBut(s: Snap, s': Snap, es: seq<int>, l: seq<int>) {
    && KeptOn(s, s', Outer(s) - Elems(es)) && NoDup(l) && Apart(l, s'.jl) && |s.code| <= |s'.code|
    && (forall j :: j in s'.pend <==> j in Outer(s) || j in s'.jl || j in l)
    && (forall j | j in Outer(s) :: j !in s'.jl && j !in l)
  }

  ghost predicate Grown(s: Snap, s': Snap, l: seq<int>) {
    GrownBut(s, s', [], l)
  }

  lemma {:induction false} GrownNothing(s: Snap, es: seq<int>, orgs: set<int>, last: int)
    requires SnapOk(s, orgs, last)
    ensures GrownBut(s, s, es, [])
  {
  }

  lemma {:induction false} SequenceEffect(s0: Snap, s1: Snap, s2: Snap, b: seq<Stmt>, s: Stmt, cmp: Comparer,
      orgs: set<int>, n: int)
    requires Effect(s0, s1, [], OfBlock(b), cmp, orgs, n) && Effect(s1, s2, [], OfStmt(s), cmp, orgs, n)
    requires FitsStmt(s, n) && |s0.code| <= |s1.code|
    ensures Effect(s0, s2, [], OfBlock(b + [s]), cmp, orgs, n)
  {
    hide Flow, Agree, OldExits, FitsStmt;
    assert (b + [s])[..|b|] == b;
    OldTwice(s0, s1, s2, [], cmp, orgs);
    forall st: Start ensures EffectAt(Flow(s0, cmp, orgs, st), Flow(s2, cmp, orgs, st), [], OfBlock(b + [s]), cmp, n) {
      var o, o1, o2 := Flow(s0, cmp, orgs, st), Flow(s1, cmp, orgs, st), Flow(s2, cmp, orgs, st);
      assert EffectAt(o, o1, [], OfBlock(b), cmp, n);
      assert EffectAt(o1, o2, [], OfStmt(s), cmp, n);
      if o.Fall? && |o.rs.vals| == MAXREGS && o1.Fall? {
        AgreeFull(o1.rs, ExecBlock(b, cmp, o.rs).rs, n);
        StmtAgrees(s, cmp, o1.rs, ExecBlock(b, cmp, o.rs).rs, n);
        FollowsSame(o2, [], ExecStmt(s, cmp, o1.rs), ExecStmt(s, cmp, ExecBlock(b, cmp, o.rs).rs), n);
      }
    }
  }

  lemma {:induction false} FollowsSame(o: Outcome, l: seq<int>, r: Course, r1: Course, n: int)
    requires Follows(o, l, r, n) && SameCourse(r, r1, n)
    ensures Follows(o, l, r1, n)
  {
  }

  lemma {:induction false} GrownTwice(s0: Snap, s1: Snap, s2: Snap, es: seq<int>, l: seq<int>)
    requires GrownBut(s0, s1, es, l) && Grown(s1, s2, []) && Apart(l, es)
    ensures GrownBut(s0, s2, es, l)
  {
    assert forall j | j in Outer(s1) :: j in Outer(s0) || j in l;
    assert forall j | j in Outer(s0) || j in l :: j in Outer(s1) && j in Outer(s2);
    assert Elems([]) == {};
  }

  ghost predicate Ready(f: FuncState)
    reads f
  {
    f.Valid() && f.freereg == f.nactvar
  }

  /** statlist. */
  method Block(f: FuncState, b: seq<Stmt>)
    requires Ready(f) && FitsBlock(b, f.nactvar)
    modifies f
    ensures Ready(f) && f.nactvar == old(f.nactvar) && f.orgs == old(f.orgs)
    ensures Grown(old(f.S()), f.S(), [])
    ensures Effect(old(f.S()), f.S(), [], OfBlock(b), f.cmp, f.orgs, f.nactvar)
    decreases b, 0
  {
    hide SnapOk, IsList, GrownBut, OldExits, Run;
    ghost var s0 := f.S();
    GrownNothing(s0, [], f.orgs, f.lasttarget);
    OldNothing(s0, f.cmp, f.orgs);
    NothingDone(s0, f.cmp, f.orgs, f.nactvar);
    var i := 0;
    while i < |b|
      invariant 0 <= i <= |b|
      invariant Ready(f) && f.nactvar == old(f.nactvar) && f.orgs == old(f.orgs)
      invariant Grown(s0, f.S(), []) && Effect(s0, f.S(), [], OfBlock(b[..i]), f.cmp, f.orgs, f.nactvar)
    {
      hide Effect;
      ghost var s1 := f.S();
      Statement(f, b[i]);
      GrownTwice(s0, s1, f.S(), [], []);
      GrownLonger(s0, s1, [], []);
      SequenceEffect(s0, s1, f.S(), b[..i], b[i], f.cmp, f.orgs, f.nactvar);
      assert b[..i + 1] == b[..i] + [b[i]];
      i := i + 1;
    }
    assert b[..|b|] == b;
  }

  lemma {:induction false} NothingDone(s: Snap, cmp: Comparer, orgs: set<int>, n: int)
    requires 0 <= n <= MAXREGS
    ensures Effect(s, s, [], OfBlock([]), cmp, orgs, n)
  {
    OldNothing(s, cmp, orgs);
  }

  lemma {:induction false} GrownLonger(s: Snap, s': Snap, es: seq<int>, l: seq<int>)
    requires GrownBut(s, s', es, l)
    ensures |s.code| <= |s'.code|
  {
  }

  lemma {:induction false} AssignEffect(f: FuncState, s0: Snap, last: int, r: nat, x: Expr)
    requires f.Delivers(s0, r, x, f.nactvar, r) && r < f.nactvar <= MAXREGS
    requires SnapOk(s0, f.orgs, last) && Newer(s0, f.S()) && Kept(s0, f.S())
    ensures Effect(s0, f.S(), [], OfStmt(Assign(r, x)), f.cmp, f.orgs, f.nactvar)
  {
    OldNewer(s0, f.S(), [], f.cmp, f.orgs, last);
    hide Flow, OldExits, SnapOk, Newer, KeptOn;
    forall st: Start
      ensures EffectAt(Flow(s0, f.cmp, f.orgs, st), Flow(f.S(), f.cmp, f.orgs, st), [], OfStmt(Assign(r, x)), f.cmp,
        f.nactvar)
    {
      var o, o' := Flow(s0, f.cmp, f.orgs, st), Flow(f.S(), f.cmp, f.orgs, st);
      if o.Fall? && |o.rs.vals| == MAXREGS {
        var v := Eval(x, f.cmp, o.rs);
        forall q | 0 <= q < f.nactvar ensures Get(o'.rs, q) == Get(Put(o.rs, r, v), q) {
          assert q != r ==> Get(o'.rs, q) == Get(o.rs, q);
        }
      }
    }
  }

  lemma {:induction false} GrownAssign(s: Snap, s': Snap)
    requires Kept(s, s') && Newer(s, s') && s'.pend == Outer(s) + Elems(s'.jl)
    ensures Grown(s, s', [])
  {
  }

  method Statement(f: FuncState, s: Stmt)
    requires Ready(f) && FitsStmt(s, f.nactvar)
    modifies f
    ensures Ready(f) && f.nactvar == old(f.nactvar) && f.orgs == old(f.orgs)
    ensures Grown(old(f.S()), f.S(), [])
    ensures Effect(old(f.S()), f.S(), [], OfStmt(s), f.cmp, f.orgs, f.nactvar)
    decreases s, 2
  {
    hide SnapOk, IsList, GrownBut, Effect, Newer, KeptOn;
    match s {
      case Assign(r, x) =>
        ghost var s0, last := f.S(), f.lasttarget;
        f.StoreLocal(x, r);
        AssignEffect(f, s0, last, r, x);
        GrownAssign(s0, f.S());
      case If(arms) => IfStatement(f, arms);
      case While(c, body) => WhileStatement(f, c, body);
      case Repeat(body, c) => RepeatStatement(f, body, c);
    }
  }

  /** ifstat. */
  method IfStatement(f: FuncState, arms: Arms)
    requires Ready(f) && FitsArms(arms, f.nactvar)
    modifies f
    ensures Ready(f) && f.nactvar == old(f.nactvar) && f.orgs == old(f.orgs)
    ensures Grown(old(f.S()), f.S(), [])
    ensures Effect(old(f.S()), f.S(), [], OfStmt(If(arms)), f.cmp, f.orgs, f.nactvar)
    decreases arms, 1
  {
    hide SnapOk, IsList, GrownBut, Effect, LeavesVia, OldExits;
    ghost var s0 := f.S();
    LeavesViaOuter(s0, f.cmp, f.orgs, f.lasttarget);
    ListNone(f.code);
    GrownNothing(s0, [], f.orgs, f.lasttarget);
    var escape, l := CompileArms(f, arms, NO_JUMP, []);
    ghost var s1 := f.S();
    assert [] + l == l;
    Here(f, escape, [], l, [], s0);
    PatchedEffect(s0, s1, f.S(), l, arms, f.cmp, f.orgs, f.nactvar);
  }

  lemma {:induction false} PatchedEffect(s0: Snap, s1: Snap, s2: Snap, l: seq<int>, arms: Arms, cmp: Comparer,
      orgs: set<int>, n: int)
    requires Effect(s0, s1, l, OfArms(arms), cmp, orgs, n) && s2.jl == s1.jl + l
    requires forall st: Start ::
        Raw(s2, cmp, orgs, st) == Raw(s1, cmp, orgs, st)
          && Flow(s2, cmp, orgs, st) == Settled(Flow(s1, cmp, orgs, st), l)
    requires LeavesVia(s0, cmp, orgs, Outer(s0)) && forall j | j in l :: j !in Outer(s0)
    ensures Effect(s0, s2, [], OfStmt(If(arms)), cmp, orgs, n)
  {
    OldHere(s0, s1, s2, [], l, cmp, orgs);
    hide Flow, OldExits, Agree;
    forall st: Start ensures EffectAt(Flow(s0, cmp, orgs, st), Flow(s2, cmp, orgs, st), [], OfStmt(If(arms)), cmp, n) {
      assert EffectAt(Flow(s0, cmp, orgs, st), Flow(s1, cmp, orgs, st), l, OfArms(arms), cmp, n);
    }
  }

  /** Exits in `l` that come here are old ones as little as before. */
  lemma {:induction false} OldHere(s0: Snap, s1: Snap, s2: Snap, m: seq<int>, l: seq<int>, cmp: Comparer,
      orgs: set<int>)
    requires OldExits(s0, s1, m + l, cmp, orgs) && s2.jl == s1.jl + l
    requires forall st: Start :: Raw(s2, cmp, orgs, st) == Raw(s1, cmp, orgs, st)
    ensures OldExits(s0, s2, m, cmp, orgs)
  {
    hide Raw;
    forall st: Start | |st.rs.vals| == MAXREGS
      ensures OldAt(s0, s2, m, Raw(s0, cmp, orgs, st), Raw(s2, cmp, orgs, st))
    {
      assert OldAt(s0, s1, m + l, Raw(s0, cmp, orgs, st), Raw(s1, cmp, orgs, st));
    }
  }

  lemma {:induction false} ListNone(c: seq<Instr>)
    ensures IsList(c, NO_JUMP, [])
  {
  }

  /** luaK_patchtohere on the exits `l`, with other exits `m` still open. */
  method Here(f: FuncState, head: int, ghost m: seq<int>, ghost l: seq<int>, ghost es: seq<int>, ghost s0: Snap)
    requires f.Valid() && IsList(f.code, head, l) && GrownBut(s0, f.S(), es, m + l)
    modifies f`code, f`jpc, f`jl, f`lasttarget
    ensures f.Valid() && GrownBut(s0, f.S(), es, m) && f.S() == old(f.S()).(code := f.code, jl := old(f.jl) + l)
    ensures Relinked(old(f.code), f.code, old(f.jl))
    ensures forall st: Start ::
      Raw(f.S(), f.cmp, f.orgs, st) == Raw(old(f.S()), f.cmp, f.orgs, st) && Flow(f.S(), f.cmp, f.orgs, st)
          == Settled(Flow(old(f.S()), f.cmp, f.orgs, st), l)
    ensures forall j | j in l :: j !in Outer(s0)
  {
    hide WellFormed, Run, KeptOn, IsList, Flow, Raw;
    ghost var s1 := f.S();
    ghost var last := f.lasttarget;
    assert forall j :: j in m + l <==> j in m || j in l;
    NoDupSplit(m, l);
    assert Apart(f.jl, l) && Apart(l, f.jl);
    f.PatchToHere(head, l);
    HereFlow(s1, f.S(), l, f.cmp, f.orgs, last);
    HereGrown(s0, s1, f.S(), m, l, es);
  }

  lemma {:induction false} HereGrown(s0: Snap, s1: Snap, s2: Snap, m: seq<int>, l: seq<int>, es: seq<int>)
    requires GrownBut(s0, s1, es, m + l) && NoDup(m) && Apart(m, l) && |s2.code| == |s1.code|
    requires KeptOn(s1, s2, Outer(s1) - Elems(l)) && s2.pend == s1.pend && s2.jl == s1.jl + l
    ensures GrownBut(s0, s2, es, m)
  {
    assert forall j :: j in m + l <==> j in m || j in l;
    assert forall j :: j in s2.jl <==> j in s1.jl || j in l;
    assert forall j | j in Outer(s0) - Elems(es) :: j in Outer(s1) - Elems(l);
  }

  // ----- if, elseif, else -----

  /** After a condition and its block: the block has been executed if the
      condition is true, and `l` is taken, with nothing changed, if not. */
  ghost predicate TestedAt(o: Outcome, o': Outcome, l: seq<int>, c: Expr, block: seq<Stmt>, cmp: Comparer, n: int) {
    && (o.Fall? && |o.rs.vals| == MAXREGS ==>
          if Truthy(Eval(c, cmp, o.rs)) then Follows(o', [], ExecBlock(block, cmp, o.rs), n)
          else o'.Jump? && o'.at in l && Agree(o'.rs, o.rs, n, -1))
    && (!o.Fall? ==> o' == o)
  }

  ghost predicate TestedEffect(s: Snap, s': Snap, l: seq<int>, c: Expr, block: seq<Stmt>, cmp: Comparer, orgs: set<int>,
      n: int)
  {
    && (forall st: Start :: TestedAt(Flow(s, cmp, orgs, st), Flow(s', cmp, orgs, st), l, c, block, cmp, n))
    && OldExits(s, s', l, cmp, orgs)
  }

  /** The condition and the block of one arm, or of a loop. */
  method TestThenBlock(f: FuncState, c: Expr, block: seq<Stmt>, ghost es: seq<int>)
    returns (head: int, ghost l: seq<int>)
    requires Ready(f) && FitsExpr(c, f.nactvar) && FitsBlock(block, f.nactvar)
    requires forall j | j in es :: j in Outer(f.S())
    modifies f
    ensures Ready(f) && f.nactvar == old(f.nactvar) && f.orgs == old(f.orgs)
    ensures GrownBut(old(f.S()), f.S(), es, l) && IsList(f.code, head, l)
    ensures forall h: int :: IsList(old(f.code), h, es) ==> IsList(f.code, h, es)
    ensures (forall j | j in es :: j !in f.jl) && (forall j | j in l :: |old(f.code)| <= j)
    ensures TestedEffect(old(f.S()), f.S(), l, c, block, f.cmp, f.orgs, f.nactvar)
    decreases block, 1
  {
    hide WellFormed, IsList, NoDup, Newer, OldExits, Run;
    ghost var s0 := f.S();
    ghost var last := f.lasttarget;
    head, l := f.Condition(c);
    ghost var s1 := f.S();
    OldNewer(s0, s1, l, f.cmp, f.orgs, last);
    NewerLonger(s0, s1);
    assert GrownBut(s0, s1, es, l);
    assert forall j | j in l || j in es :: j in Outer(s1);
    assert Apart(l, es);
    Block(f, block);
    ghost var s2 := f.S();
    GrownTwice(s0, s1, s2, es, l);
    KeptList(s1, s2, head, l);
    KeptThrough(s0, s1, s2, es);
    hide Flow, Effect, KeptOn;
    TestedThen(s0, s1, s2, l, c, block, f.cmp, f.orgs, f.nactvar);
  }

  lemma {:induction false} NewerLonger(s: Snap, s': Snap)
    requires Newer(s, s')
    ensures |s.code| <= |s'.code|
  {
  }

  lemma {:induction false} TestedThen(s0: Snap, s1: Snap, s2: Snap, l: seq<int>, c: Expr, block: seq<Stmt>,
      cmp: Comparer, orgs: set<int>, n: int)
    requires forall st: Start :: ConditionAt(Flow(s0, cmp, orgs, st), Flow(s1, cmp, orgs, st), l, c, cmp, n)
    requires OldExits(s0, s1, l, cmp, orgs) && |s0.code| <= |s1.code| && forall j | j in l :: |s0.code| <= j
    requires Effect(s1, s2, [], OfBlock(block), cmp, orgs, n) && FitsBlock(block, n)
    ensures TestedEffect(s0, s2, l, c, block, cmp, orgs, n)
  {
    hide Flow, OldExits, Agree, FitsStmt;
    OldTwice(s0, s1, s2, l, cmp, orgs);
    forall st: Start ensures TestedAt(Flow(s0, cmp, orgs, st), Flow(s2, cmp, orgs, st), l, c, block, cmp, n) {
      var o, o1, o2 := Flow(s0, cmp, orgs, st), Flow(s1, cmp, orgs, st), Flow(s2, cmp, orgs, st);
      assert ConditionAt(o, o1, l, c, cmp, n);
      assert EffectAt(o1, o2, [], OfBlock(block), cmp, n);
      if o.Fall? && |o.rs.vals| == MAXREGS && o1.Fall? {
        AgreeFull(o1.rs, o.rs, n);
        BlockAgrees(block, cmp, o1.rs, o.rs, n);
        FollowsSame(o2, [], ExecBlock(block, cmp, o1.rs), ExecBlock(block, cmp, o.rs), n);
      }
    }
  }

  lemma {:induction false} KeptThrough(s0: Snap, s1: Snap, s2: Snap, es: seq<int>)
    requires Kept(s0, s1) && Grown(s1, s2, []) && forall j | j in es :: j in Outer(s0)
    ensures forall h: int :: IsList(s0.code, h, es) ==> IsList(s2.code, h, es)
    ensures forall j | j in es :: j !in s2.jl
  {
    forall h: int | IsList(s0.code, h, es) ensures IsList(s2.code, h, es) {
      ListKeptOn(s0, s1, Outer(s0), h, es);
      KeptList(s1, s2, h, es);
    }
  }

  lemma {:induction false} KeptList(s: Snap, s': Snap, head: int, l: seq<int>)
    requires Grown(s, s', []) && IsList(s.code, head, l) && forall j | j in l :: j in Outer(s)
    ensures IsList(s'.code, head, l)
  {
    ListKeptOn(s, s', Outer(s), head, l);
  }

  /** luaK_jump: all that would fall out leaves through the new jump and those
      it keeps on hold. */
  method JumpAway(f: FuncState, ghost es: seq<int>, ghost l: seq<int>, ghost s0: Snap)
    returns (j: int, ghost held: seq<int>)
    requires f.Valid() && (forall j | j in es :: j in Outer(s0)) && GrownBut(s0, f.S(), es, l)
    modifies f`code, f`jpc, f`pend, f`jl
    ensures f.Valid() && f.jpc == NO_JUMP && f.jl == [] && NoDup(held) && Apart(held, l) && Apart(es, held)
        && held == [|old(f.code)|] + old(f.jl)
    ensures IsList(f.code, j, held) && GrownBut(s0, f.S(), es, held + l) && forall j | j in es :: j in f.pend
    ensures forall h: int, m: seq<int> | IsList(old(f.code), h, m) && Owner(old(f.S()), m) :: IsList(f.code, h, m)
    ensures forall st: Start :: Raw(f.S(), f.cmp, f.orgs, st) == Held(Raw(old(f.S()), f.cmp, f.orgs, st), |old(f.code)|)
  {
    hide IsList, Run;
    ghost var s2 := f.S();
    ghost var last := f.lasttarget;
    OutOfJpc(s0, s2, es, l);
    assert forall j | j in s2.pend :: j < |s2.code|;
    j := f.JumpOp();
    held := [j] + s2.jl;
    ghost var s3 := f.S();
    assert f.code == s2.code + [Jmp(0, f.code[j].sbx)];
    assert s3 == Hold(s2, f.code[j].sbx);
    HoldFlow(s2, f.code[j].sbx, f.cmp, f.orgs, last);
    HeldApart(s0, s2, es, l, held);
    HoldGrown(s0, s2, s3, es, l, held);
    ListNone(f.code);
    forall h: int, m: seq<int> | IsList(s2.code, h, m) && Owner(s2, m) ensures IsList(f.code, h, m) {
      ListKeptOn(s2, s3, Outer(s2), h, m);
    }
  }

  /** The jumps in `m` are pending, and not in jpc. */
  ghost predicate Owner(s: Snap, m: seq<int>) {
    forall j | j in m :: j in Outer(s)
  }

  lemma {:induction false} OutOfJpc(s0: Snap, s: Snap, es: seq<int>, l: seq<int>)
    requires GrownBut(s0, s, es, l) && forall j | j in es :: j in Outer(s0)
    ensures Owner(s, es) && Owner(s, l) && Apart(es, l) && forall j | j in es :: j in s.pend
  {
  }

  lemma {:induction false} HeldApart(s0: Snap, s2: Snap, es: seq<int>, l: seq<int>, held: seq<int>)
    requires GrownBut(s0, s2, es, l) && (forall j | j in es :: j in Outer(s0)) && NoDup(s2.jl)
    requires forall j | j in s2.pend :: j < |s2.code|
    requires held == [|s2.code|] + s2.jl
    ensures NoDup(held) && Apart(held, l) && Apart(l, held) && Apart(es, held)
  {
    assert forall j :: j in held <==> j == |s2.code| || j in s2.jl;
    NoDupJoined([|s2.code|], s2.jl) by { assert forall j | j in [|s2.code|] :: j !in s2.jl; }
  }

  lemma {:induction false} HoldGrown(s0: Snap, s2: Snap, s3: Snap, es: seq<int>, l: seq<int>, held: seq<int>)
    requires GrownBut(s0, s2, es, l) && (forall j | j in es :: j in Outer(s0))
    requires KeptOn(s2, s3, Outer(s2)) && s3.pend == s2.pend + {|s2.code|} && s3.jl == [] && |s2.code| <= |s3.code|
    requires held == [|s2.code|] + s2.jl && NoDup(held) && Apart(held, l) && |s2.code| !in s2.pend
    ensures GrownBut(s0, s3, es, held + l)
  {
    assert forall j :: j in held <==> j == |s2.code| || j in s2.jl;
    assert forall j :: j in held + l <==> j in held || j in l;
    NoDupJoined(held, l);
    assert forall j | j in Outer(s0) - Elems(es) :: j in Outer(s2);
  }

  /** The exits on hold: old ones were there before. */
  lemma {:induction false} OldHeld(s0: Snap, s2: Snap, s3: Snap, l: seq<int>, held: seq<int>, cmp: Comparer,
      orgs: set<int>)
    requires OldExits(s0, s2, l, cmp, orgs) && s3.jl == [] && held == [|s2.code|] + s2.jl && |s0.code| <= |s2.code|
    requires forall st: Start :: Raw(s3, cmp, orgs, st) == Held(Raw(s2, cmp, orgs, st), |s2.code|)
    ensures OldExits(s0, s3, held + l, cmp, orgs)
  {
    hide Raw;
    forall st: Start | |st.rs.vals| == MAXREGS
      ensures OldAt(s0, s3, held + l, Raw(s0, cmp, orgs, st), Raw(s3, cmp, orgs, st))
    {
      assert OldAt(s0, s2, l, Raw(s0, cmp, orgs, st), Raw(s2, cmp, orgs, st));
      assert Raw(s3, cmp, orgs, st) == Held(Raw(s2, cmp, orgs, st), |s2.code|);
      assert forall j :: j in held + l <==> j == |s2.code| || j in s2.jl || j in l;
    }
  }

  /** The end of a block that is not the last: jump to the end of the whole
      statement, on the escape list. */
  method Escape(f: FuncState, escape: int, ghost es: seq<int>, ghost l: seq<int>, ghost s0: Snap)
    returns (escape': int, ghost held: seq<int>)
    requires f.Valid() && IsList(f.code, escape, es) && NoDup(es) && (forall j | j in es :: j in Outer(s0))
    requires GrownBut(s0, f.S(), es, l) && OldExits(s0, f.S(), l, f.cmp, f.orgs)
    modifies f`code, f`jpc, f`pend, f`jl
    ensures f.Valid() && f.jl == [] && NoDup(held) && Apart(held, l)
    ensures IsList(f.code, escape', es + held) && GrownBut(s0, f.S(), es, held + l)
    ensures forall h: int :: IsList(old(f.code), h, l) ==> IsList(f.code, h, l)
    ensures OldExits(s0, f.S(), held + l, f.cmp, f.orgs)
    ensures forall st: Start ::
      var o, o' := Flow(old(f.S()), f.cmp, f.orgs, st), Flow(f.S(), f.cmp, f.orgs, st);
      if o.Fall? then o'.Jump? && o'.at in held && o'.rs == o.rs else o' == o
  {
    hide IsList, Run, OldExits, GrownBut, WellFormed, NoDup, KeptOn;
    ghost var s2 := f.S();
    OutOfJpc(s0, s2, es, l);
    GrownLonger(s0, s2, es, l);
    var j;
    j, held := JumpAway(f, es, l, s0);
    ghost var s3 := f.S();
    OldHeld(s0, s2, s3, l, held, f.cmp, f.orgs);
    HeldFlow(s2, s3, f.cmp, f.orgs);
    assert IsList(f.code, escape, es);
    escape' := f.Concat(escape, j, es, held);
    EscapeDone(f, s0, s3, es, held, l);
  }

  lemma {:induction false} EscapeDone(f: FuncState, s0: Snap, s3: Snap, es: seq<int>, held: seq<int>, l: seq<int>)
    requires SnapOk(s3, f.orgs, f.lasttarget) && f.S() == s3.(code := f.code) && Relinked(s3.code, f.code, es)
        && s3.jl == []
    requires GrownBut(s0, s3, es, held + l) && (forall j | j in es :: j in Outer(s0) && j in s3.pend) && Apart(es, l)
    requires f.jpc == NO_JUMP && OldExits(s0, s3, held + l, f.cmp, f.orgs)
    ensures OldExits(s0, f.S(), held + l, f.cmp, f.orgs)
    ensures SnapOk(f.S(), f.orgs, f.lasttarget) && IsList(f.code, f.jpc, f.jl) && GrownBut(s0, f.S(), es, held + l)
    ensures forall h: int :: IsList(s3.code, h, l) ==> IsList(f.code, h, l)
    ensures forall st: Start ::
        Raw(f.S(), f.cmp, f.orgs, st) == Raw(s3, f.cmp, f.orgs, st)
          && Flow(f.S(), f.cmp, f.orgs, st) == Flow(s3, f.cmp, f.orgs, st)
  {
    RelinkFlow(s3, f.S(), es, f.cmp, f.orgs, f.lasttarget);
    assert held + l + [] == held + l;
    OldHere(s0, s3, f.S(), held + l, [], f.cmp, f.orgs);
    forall h: int | IsList(s3.code, h, l) ensures IsList(f.code, h, l) {
      ListMembers(s3.code, h, l);
      ListKept(s3.code, f.code, h, l);
    }
    assert forall j | j in Outer(s0) - Elems(es) :: j in Outer(s3) - Elems(es);
  }

  // ----- Facts about one arm -----

  lemma {:induction false} EndEffect(s: Snap, cmp: Comparer, orgs: set<int>, n: int)
    requires 0 <= n <= MAXREGS
    ensures Effect(s, s, [], OfArms(End), cmp, orgs, n)
  {
    OldNothing(s, cmp, orgs);
  }

  lemma {:induction false} ElseDone(s0: Snap, s1: Snap, es: seq<int>, escape: int, body: seq<Stmt>, cmp: Comparer,
      orgs: set<int>, n: int)
    requires Grown(s0, s1, []) && Effect(s0, s1, [], OfBlock(body), cmp, orgs, n)
    requires IsList(s0.code, escape, es) && forall j | j in es :: j in Outer(s0)
    ensures GrownBut(s0, s1, es, []) && IsList(s1.code, escape, es)
    ensures Effect(s0, s1, [], OfArms(Else(body)), cmp, orgs, n)
  {
    KeptList(s0, s1, escape, es);
    hide Flow, OldExits, Agree;
    forall st: Start
      ensures EffectAt(Flow(s0, cmp, orgs, st), Flow(s1, cmp, orgs, st), [], OfArms(Else(body)), cmp, n)
    {
      assert EffectAt(Flow(s0, cmp, orgs, st), Flow(s1, cmp, orgs, st), [], OfBlock(body), cmp, n);
    }
  }

  /** The exits of a false condition come to the end of the statement. */
  lemma {:induction false} LastArm(s0: Snap, s2: Snap, s3: Snap, cl: seq<int>, c: Expr, block: seq<Stmt>, cmp: Comparer,
      orgs: set<int>, n: int)
    requires TestedEffect(s0, s2, cl, c, block, cmp, orgs, n) && s3.jl == s2.jl + cl
    requires LeavesVia(s0, cmp, orgs, Outer(s0)) && forall j | j in cl :: j !in Outer(s0)
    requires forall st: Start ::
        Raw(s3, cmp, orgs, st) == Raw(s2, cmp, orgs, st)
          && Flow(s3, cmp, orgs, st) == Settled(Flow(s2, cmp, orgs, st), cl)
    ensures Effect(s0, s3, [], OfArms(Arm(c, block, End)), cmp, orgs, n)
  {
    assert [] + cl == cl;
    OldHere(s0, s2, s3, [], cl, cmp, orgs);
    hide Flow, OldExits, Agree, ExecArms, ExecBlock;
    forall st: Start
      ensures EffectAt(Flow(s0, cmp, orgs, st), Flow(s3, cmp, orgs, st), [], OfArms(Arm(c, block, End)), cmp, n)
    {
      var o, o2 := Flow(s0, cmp, orgs, st), Flow(s2, cmp, orgs, st);
      assert TestedAt(o, o2, cl, c, block, cmp, n);
      if o.Fall? { ArmsLast(c, block, cmp, o.rs); }
    }
  }

  lemma {:induction false} ArmsLast(c: Expr, block: seq<Stmt>, cmp: Comparer, rs: Regs)
    ensures ExecArms(Arm(c, block, End), cmp, rs) == if Truthy(Eval(c, cmp, rs)) then ExecBlock(block, cmp, rs)
        else Done(rs)
  {
    assert ExecArms(End, cmp, rs) == Done(rs);
  }

  /** Rewiring jpc leaves the escape list alone. */
  lemma {:induction false} RelinkedLists(s: Snap, s': Snap, es: seq<int>, escape: int)
    requires Relinked(s.code, s'.code, s.jl) && IsList(s.code, escape, es) && forall j | j in es :: j !in s.jl
    ensures IsList(s'.code, escape, es)
  {
    ListMembers(s.code, escape, es);
    ListKept(s.code, s'.code, escape, es);
  }

  /** Lists of other exits survive a luaK_patchtohere when jpc was empty. */
  lemma {:induction false} HereList(c: seq<Instr>, c': seq<Instr>, head: int, l: seq<int>)
    requires Relinked(c, c', []) && IsList(c, head, l)
    ensures IsList(c', head, l)
  {
    assert c' == c;
  }

  lemma {:induction false} BeforeRest(s0: Snap, s4: Snap, es: seq<int>, held: seq<int>)
    requires GrownBut(s0, s4, es, held) && NoDup(es) && forall j | j in es :: j in Outer(s0)
    ensures NoDup(es + held) && (forall j | j in es + held :: j in Outer(s4)) && |s0.code| <= |s4.code|
  {
    assert forall j :: j in es + held <==> j in es || j in held;
    NoDupJoined(es, held) by { assert forall j | j in es :: j !in held; }
  }

  lemma {:induction false} RestGrown(s0: Snap, s4: Snap, s5: Snap, es: seq<int>, held: seq<int>, l2: seq<int>)
    requires GrownBut(s0, s4, es, held) && GrownBut(s4, s5, es + held, l2)
    ensures GrownBut(s0, s5, es, held + l2) && Apart(held, l2) && Apart(held, s5.jl)
  {
    assert forall j :: j in es + held <==> j in es || j in held;
    assert forall j :: j in held + l2 <==> j in held || j in l2;
    assert forall j | j in held :: j in Outer(s4);
    NoDupJoined(held, l2) by { assert forall j | j in held :: j !in l2; }
    assert forall j | j in Outer(s0) - Elems(es) :: j in Outer(s4) - Elems(es + held);
  }

  /** All the way through an arm: o, o2, o3, o5 are the flows before it, after
      its block, after the escaping jump, and after the remaining arms. */
  lemma {:induction false} ArmAt(o: Outcome, o2: Outcome, o3: Outcome, o5: Outcome, cl: seq<int>, held: seq<int>,
      l2: seq<int>, c: Expr, block: seq<Stmt>, rest: Arms, cmp: Comparer, n: int)
    requires TestedAt(o, o2, cl, c, block, cmp, n) && FitsArms(rest, n)
    requires if o2.Fall? then o3.Jump? && o3.at in held && o3.rs == o2.rs else o3 == o2
    requires EffectAt(Settled(o3, cl), o5, l2, OfArms(rest), cmp, n)
    requires Apart(held, cl) && (o.Jump? ==> o.at !in cl)
    ensures EffectAt(o, o5, held + l2, OfArms(Arm(c, block, rest)), cmp, n)
  {
    if o.Fall? && |o.rs.vals| == MAXREGS {
      if Truthy(Eval(c, cmp, o.rs)) {
        assert o5 == o3;
      } else {
        assert Settled(o3, cl) == Fall(o2.rs);
        ArmsAgree(rest, cmp, o2.rs, o.rs, n);
      }
    }
  }

  lemma {:induction false} ArmEffect(s0: Snap, s2: Snap, s3: Snap, s4: Snap, s5: Snap, cl: seq<int>, held: seq<int>,
      l2: seq<int>, c: Expr, block: seq<Stmt>, rest: Arms, cmp: Comparer, orgs: set<int>, n: int)
    requires TestedEffect(s0, s2, cl, c, block, cmp, orgs, n) && FitsArms(rest, n)
    requires forall st: Start ::
      var o, o' := Flow(s2, cmp, orgs, st), Flow(s3, cmp, orgs, st);
      if o.Fall? then o'.Jump? && o'.at in held && o'.rs == o.rs else o' == o
    requires forall st: Start :: Flow(s4, cmp, orgs, st) == Settled(Flow(s3, cmp, orgs, st), cl)
    requires Effect(s4, s5, l2, OfArms(rest), cmp, orgs, n)
    requires Apart(held, cl) && LeavesVia(s0, cmp, orgs, Outer(s0)) && forall j | j in cl :: j !in Outer(s0)
    requires OldExits(s0, s5, held + l2, cmp, orgs)
    ensures Effect(s0, s5, held + l2, OfArms(Arm(c, block, rest)), cmp, orgs, n)
  {
    hide Flow, OldExits, Agree, FitsStmt;
    forall st: Start
      ensures EffectAt(Flow(s0, cmp, orgs, st), Flow(s5, cmp, orgs, st), held + l2, OfArms(Arm(c, block, rest)), cmp,
        n)
    {
      assert TestedAt(Flow(s0, cmp, orgs, st), Flow(s2, cmp, orgs, st), cl, c, block, cmp, n);
      assert EffectAt(Flow(s4, cmp, orgs, st), Flow(s5, cmp, orgs, st), l2, OfArms(rest), cmp, n);
      ArmAt(Flow(s0, cmp, orgs, st), Flow(s2, cmp, orgs, st), Flow(s3, cmp, orgs, st), Flow(s5, cmp, orgs, st),
            cl, held, l2, c, block, rest, cmp, n);
    }
  }

  /** Old exits after the remaining arms: those on hold stay where they were. */
  lemma {:induction false} OldRest(s0: Snap, s4: Snap, s5: Snap, held: seq<int>, l2: seq<int>, rest: Arms,
      cmp: Comparer, orgs: set<int>, n: int)
    requires OldExits(s0, s4, held, cmp, orgs) && Effect(s4, s5, l2, OfArms(rest), cmp, orgs, n)
        && |s0.code| <= |s4.code|
    requires Apart(held, l2) && Apart(held, s5.jl)
    ensures OldExits(s0, s5, held + l2, cmp, orgs)
  {
    hide Run;
    forall st: Start | |st.rs.vals| == MAXREGS
      ensures OldAt(s0, s5, held + l2, Raw(s0, cmp, orgs, st), Raw(s5, cmp, orgs, st))
    {
      assert OldAt(s0, s4, held, Raw(s0, cmp, orgs, st), Raw(s4, cmp, orgs, st));
      assert OldAt(s4, s5, l2, Raw(s4, cmp, orgs, st), Raw(s5, cmp, orgs, st));
      assert EffectAt(Flow(s4, cmp, orgs, st), Flow(s5, cmp, orgs, st), l2, OfArms(rest), cmp, n);
      assert forall j :: j in held + l2 <==> j in held || j in l2;
      assert Flow(s4, cmp, orgs, st).Fall? ==> |Flow(s4, cmp, orgs, st).rs.vals| == MAXREGS;
    }
  }

  /** The arms of an if statement; finished blocks leave through the escape
      list, which is extended. */
  method CompileArms(f: FuncState, a: Arms, escape: int, ghost es: seq<int>) returns (escape': int, ghost l: seq<int>)
    requires Ready(f) && FitsArms(a, f.nactvar)
    requires IsList(f.code, escape, es) && NoDup(es) && forall j | j in es :: j in Outer(f.S())
    modifies f
    ensures Ready(f) && f.nactvar == old(f.nactvar) && f.orgs == old(f.orgs)
    ensures GrownBut(old(f.S()), f.S(), es, l) && IsList(f.code, escape', es + l)
    ensures Effect(old(f.S()), f.S(), l, OfArms(a), f.cmp, f.orgs, f.nactvar)
    decreases a, 0
  {
    hide WellFormed, IsList, NoDup, GrownBut, Effect, TestedEffect, LeavesVia, OldExits, Run;
    ghost var s0 := f.S();
    escape', l := escape, [];
    assert es + [] == es;
    match a {
      case End =>
        GrownNothing(s0, es, f.orgs, f.lasttarget);
        EndEffect(s0, f.cmp, f.orgs, f.nactvar);
      case Else(body) =>
        Block(f, body);
        ElseDone(s0, f.S(), es, escape, body, f.cmp, f.orgs, f.nactvar);
      case Arm(c, block, rest) =>
        LeavesViaOuter(s0, f.cmp, f.orgs, f.lasttarget);
        var head, cl := TestThenBlock(f, c, block, es);
        ghost var s2 := f.S();
        if rest == End {
          assert [] + cl == cl;
          Here(f, head, [], cl, es, s0);
          RelinkedLists(s2, f.S(), es, escape);
          LastArm(s0, s2, f.S(), cl, c, block, f.cmp, f.orgs, f.nactvar);
        } else {
          escape', l := RestOfArms(f, c, block, rest, escape, head, es, cl, s0);
        }
    }
  }

  /** Behind the block of an arm that is not the last. */
  method RestOfArms(f: FuncState, c: Expr, block: seq<Stmt>, rest: Arms, escape: int, head: int, ghost es: seq<int>,
      ghost cl: seq<int>, ghost s0: Snap)
    returns (escape': int, ghost l: seq<int>)
    requires Ready(f) && FitsArms(rest, f.nactvar)
    requires IsList(f.code, escape, es) && IsList(f.code, head, cl) && NoDup(es) && forall j | j in es :: j in Outer(s0)
    requires GrownBut(s0, f.S(), es, cl) && TestedEffect(s0, f.S(), cl, c, block, f.cmp, f.orgs, f.nactvar)
    requires LeavesVia(s0, f.cmp, f.orgs, Outer(s0))
    modifies f
    ensures Ready(f) && f.nactvar == old(f.nactvar) && f.orgs == old(f.orgs)
    ensures GrownBut(s0, f.S(), es, l) && IsList(f.code, escape', es + l)
    ensures Effect(s0, f.S(), l, OfArms(Arm(c, block, rest)), f.cmp, f.orgs, f.nactvar)
    decreases rest, 1
  {
    hide WellFormed, IsList, NoDup, GrownBut, Effect, LeavesVia, OldExits, Run, Flow, KeptOn;
    ghost var s2 := f.S();
    ghost var held;
    escape', held := Escape(f, escape, es, cl, s0);
    ghost var s3 := f.S();
    Here(f, head, held, cl, es, s0);
    ghost var s4 := f.S();
    OldHere(s0, s3, s4, held, cl, f.cmp, f.orgs);
    HereList(s3.code, s4.code, escape', es + held);
    BeforeRest(s0, s4, es, held);
    ghost var l2;
    escape', l2 := CompileArms(f, rest, escape', es + held);
    l := held + l2;
    assert es + held + l2 == es + l;
    RestGrown(s0, s4, f.S(), es, held, l2);
    OldRest(s0, s4, f.S(), held, l2, rest, f.cmp, f.orgs, f.nactvar);
    ArmEffect(s0, s2, s3, s4, f.S(), cl, held, l2, c, block, rest, f.cmp, f.orgs, f.nactvar);
  }

  // ----- Loops -----

  /** cond tests a condition that ends in the constant nil as one that ends in the
      constant false: neither emits code before it is tested. */
  function NilAsFalse(x: Expr): Expr {
    match x
    case ENil => EFalse
    case EAnd(a, b) => EAnd(a, NilAsFalse(b))
    case EOr(a, b) => EOr(a, NilAsFalse(b))
    case _ => x
  }

  lemma {:induction false} NilAsFalseFits(x: Expr, n: int)
    ensures FitsExpr(NilAsFalse(x), n) == FitsExpr(x, n) && Registers(NilAsFalse(x)) == Registers(x)
  {
    match x
    case EAnd(a, b) => NilAsFalseFits(b, n);
    case EOr(a, b) => NilAsFalseFits(b, n);
    case _ =>
  }

  lemma {:induction false} NilAsFalseSame(x: Expr, cmp: Comparer, rs: Regs)
    ensures Truthy(Eval(NilAsFalse(x), cmp, rs)) == Truthy(Eval(x, cmp, rs))
  {
    match x
    case EAnd(a, b) => NilAsFalseSame(b, cmp, rs);
    case EOr(a, b) => NilAsFalseSame(b, cmp, rs);
    case _ =>
  }

  lemma {:induction false} TestedSame(s: Snap, s': Snap, l: seq<int>, c: Expr, block: seq<Stmt>, cmp: Comparer,
      orgs: set<int>, n: int)
    requires TestedEffect(s, s', l, NilAsFalse(c), block, cmp, orgs, n)
    ensures TestedEffect(s, s', l, c, block, cmp, orgs, n)
  {
    hide Flow, OldExits, Eval, Truthy;
    forall st: Start ensures TestedAt(Flow(s, cmp, orgs, st), Flow(s', cmp, orgs, st), l, c, block, cmp, n) {
      assert TestedAt(Flow(s, cmp, orgs, st), Flow(s', cmp, orgs, st), l, NilAsFalse(c), block, cmp, n);
      if Flow(s, cmp, orgs, st).Fall? { NilAsFalseSame(c, cmp, Flow(s, cmp, orgs, st).rs); }
    }
  }

  lemma {:induction false} ConditionSame(s: Snap, s': Snap, l: seq<int>, c: Expr, cmp: Comparer, orgs: set<int>, n: int)
    requires forall st: Start :: ConditionAt(Flow(s, cmp, orgs, st), Flow(s', cmp, orgs, st), l, NilAsFalse(c), cmp, n)
    ensures forall st: Start :: ConditionAt(Flow(s, cmp, orgs, st), Flow(s', cmp, orgs, st), l, c, cmp, n)
  {
    hide Flow, Eval, Truthy;
    forall st: Start ensures ConditionAt(Flow(s, cmp, orgs, st), Flow(s', cmp, orgs, st), l, c, cmp, n) {
      assert ConditionAt(Flow(s, cmp, orgs, st), Flow(s', cmp, orgs, st), l, NilAsFalse(c), cmp, n);
      if Flow(s, cmp, orgs, st).Fall? { NilAsFalseSame(c, cmp, Flow(s, cmp, orgs, st).rs); }
    }
  }

  /** luaK_getlabel at the start of a loop: runs may begin here from now on. */
  method OpenLoop(f: FuncState) returns (init: int)
    requires Ready(f)
    modifies f`lasttarget, f`orgs
    ensures Ready(f) && init == |f.code| == f.lasttarget && f.orgs == old(f.orgs) + {init}
  {
    hide WellFormed;
    LabelOk(f.S(), f.orgs, f.lasttarget);
    init := f.GetLabel();
    f.orgs := f.orgs + {init};
  }

  lemma {:induction false} LabelOk(s: Snap, orgs: set<int>, last: int)
    requires SnapOk(s, orgs, last)
    ensures SnapOk(s, orgs + {|s.code|}, |s.code|)
  {
    LaterTarget(s, orgs, last);
  }

  /** With the loop closed, its label is forgotten. */
  ghost method CloseLoop(f: FuncState, orgs: set<int>)
    requires Ready(f) && orgs <= f.orgs
    modifies f`orgs
    ensures Ready(f) && f.orgs == orgs
  {
    f.orgs := orgs;
  }

  /** A run that may begin at fewer places. */
  lemma {:induction false} Fewer(s: Snap, s': Snap, l: seq<int>, p: Piece, cmp: Comparer, orgs: set<int>,
      more: set<int>, n: int)
    requires Effect(s, s', l, p, cmp, more, n) && orgs <= more
    ensures Effect(s, s', l, p, cmp, orgs, n)
  {
    hide Run;
    forall st: Start
      ensures EffectAt(Flow(s, cmp, orgs, st), Flow(s', cmp, orgs, st), l, p, cmp, n)
      ensures |st.rs.vals| == MAXREGS ==> OldAt(s, s', l, Raw(s, cmp, orgs, st), Raw(s', cmp, orgs, st))
    {
      var there := Start(From(orgs, st), st.rs);
      assert From(more, there) == From(orgs, st);
      assert EffectAt(Flow(s, cmp, more, there), Flow(s', cmp, more, there), l, p, cmp, n);
      if |st.rs.vals| == MAXREGS {
        assert OldAt(s, s', l, Raw(s, cmp, more, there), Raw(s', cmp, more, there));
      }
    }
  }

  lemma {:induction false} FromLabel(s: Snap, cmp: Comparer, orgs: set<int>, rs: Regs)
    requires |s.code| in orgs
    ensures Raw(s, cmp, orgs, Start(|s.code|, rs)) == Fall(rs) && Flow(s, cmp, orgs, Start(|s.code|, rs)) == Fall(rs)
  {
  }

  /** whilestat. */
  method WhileStatement(f: FuncState, c: Expr, body: seq<Stmt>)
    requires Ready(f) && FitsExpr(c, f.nactvar) && FitsBlock(body, f.nactvar)
    modifies f
    ensures Ready(f) && f.nactvar == old(f.nactvar) && f.orgs == old(f.orgs)
    ensures Grown(old(f.S()), f.S(), [])
    ensures Effect(old(f.S()), f.S(), [], OfStmt(While(c, body)), f.cmp, f.orgs, f.nactvar)
    decreases body, 2
  {
    hide WellFormed, IsList, NoDup, GrownBut, Effect, LeavesVia, OldExits, Run, Flow, KeptOn, TestedEffect;
    ghost var s0, orgs := f.S(), f.orgs;
    var whileinit := OpenLoop(f);
    LeavesViaOuter(s0, f.cmp, f.orgs, f.lasttarget);
    NilAsFalseFits(c, f.nactvar);
    var condexit, cl := TestThenBlock(f, NilAsFalse(c), body, []);
    ghost var s2 := f.S();
    TestedSame(s0, s2, cl, c, body, f.cmp, f.orgs, f.nactvar);
    TestedOld(s0, s2, cl, c, body, f.cmp, f.orgs, f.nactvar);
    OutOfJpc(s0, s2, [], cl);
    GrownLonger(s0, s2, [], cl);
    var j, held := JumpAway(f, [], cl, s0);
    ghost var s3 := f.S();
    OldHeld(s0, s2, s3, cl, held, f.cmp, f.orgs);
    HeldFlow(s2, s3, f.cmp, f.orgs);
    HeldPending(s0, s3, held, cl);
    ListNone(f.code);
    assert Apart(f.jl, held);
    f.PatchList(j, whileinit, held);
    ghost var s4 := f.S();
    BackFlow(s3, Elems(held), whileinit, f.cmp, f.orgs, f.lasttarget);
    BackGrown(s0, s3, s4, condexit, held, cl);
    Here(f, condexit, [], cl, [], s0);
    WhileEffect(s0, s2, s3, s4, f.S(), held, cl, c, body, f.cmp, f.orgs, f.nactvar);
    Fewer(s0, f.S(), [], OfStmt(While(c, body)), f.cmp, orgs, f.orgs, f.nactvar);
    CloseLoop(f, orgs);
  }

  lemma {:induction false} TestedOld(s0: Snap, s2: Snap, cl: seq<int>, c: Expr, body: seq<Stmt>, cmp: Comparer,
      orgs: set<int>, n: int)
    requires TestedEffect(s0, s2, cl, c, body, cmp, orgs, n)
    ensures OldExits(s0, s2, cl, cmp, orgs)
  {
  }

  lemma {:induction false} HeldPending(s0: Snap, s3: Snap, held: seq<int>, cl: seq<int>)
    requires GrownBut(s0, s3, [], held + cl) && s3.jl == []
    ensures Elems(held) <= s3.pend && (forall j | j in Elems(held) :: j !in s3.jl) && [] + cl == cl && NoDup(cl)
    ensures forall j | j in held || j in cl :: j !in Outer(s0)
  {
    NoDupSplit(held, cl);
    assert forall j | j in held || j in cl :: j in held + cl;
    assert forall j | j in held :: j in s3.pend;
  }

  /** The jumps on hold have been sent back. */
  lemma {:induction false} BackGrown(s0: Snap, s3: Snap, s4: Snap, head: int, held: seq<int>, cl: seq<int>)
    requires GrownBut(s0, s3, [], held + cl) && s3.jl == [] && IsList(s3.code, head, cl) && Apart(held, cl) && NoDup(cl)
    requires KeptOn(s3, s4, Outer(s3) - Elems(held)) && s4.jl == [] && s4.pend == s3.pend - Elems(held)
        && |s4.code| == |s3.code|
    ensures GrownBut(s0, s4, [], [] + cl) && IsList(s4.code, head, cl)
  {
    hide IsList, KeptOn, NoDup, Apart;
    BackApart(s0, s3, held, cl);
    ListKeptOn(s3, s4, Outer(s3) - Elems(held), head, cl);
    KeptAfter(s0, s3, s4, Outer(s0) - Elems([]), Outer(s3) - Elems(held));
    assert [] + cl == cl;
    ApartNone(cl);
  }

  lemma {:induction false} ApartNone(l: seq<int>)
    ensures Apart(l, [])
  {
  }

  lemma {:induction false} BackApart(s0: Snap, s3: Snap, held: seq<int>, cl: seq<int>)
    requires GrownBut(s0, s3, [], held + cl) && s3.jl == [] && Apart(held, cl)
    ensures forall j | j in cl :: j in Outer(s3) - Elems(held)
    ensures Outer(s0) - Elems([]) <= Outer(s3) - Elems(held)
    ensures KeptOn(s0, s3,
        Outer(s0) - Elems([])) && forall j :: j in s3.pend - Elems(held) <==> j in Outer(s0) || j in cl
  {
    assert forall j :: j in held + cl <==> j in held || j in cl;
    assert forall j | j in cl || j in Outer(s0) :: j in Outer(s3) - Elems(held);
  }

  lemma {:induction false} KeptAfter(s0: Snap, s3: Snap, s4: Snap, o: set<int>, o': set<int>)
    requires KeptOn(s0, s3, o) && KeptOn(s3, s4, o') && o <= o'
    ensures KeptOn(s0, s4, o)
  {
  }

  /** Any number of turns of a while loop, from any place: s0, s2, s3, s4 are the
      code at its label, after the body, after the jump, and with that sent back. */
  lemma {:induction false} WhileAt(s0: Snap, s2: Snap, s3: Snap, s4: Snap, held: seq<int>, cl: seq<int>, c: Expr,
      body: seq<Stmt>, cmp: Comparer, orgs: set<int>, n: int, st: Start)
    requires |s0.code| in orgs && TestedEffect(s0, s2, cl, c, body, cmp, orgs, n) && FitsStmt(While(c, body), n)
    requires forall st: Start ::
      var o, o' := Flow(s2, cmp, orgs, st), Flow(s3, cmp, orgs, st);
      if o.Fall? then o'.Jump? && o'.at in held && o'.rs == o.rs else o' == o
    requires OldExits(s0, s3, held + cl, cmp, orgs) && s3.jl == s4.jl == [] && Apart(held, cl)
    requires forall st: Start :: Raw(s4, cmp, orgs, st) == Looping(s4, Elems(held), |s0.code|, cmp, orgs,
        Raw(s3, cmp, orgs, st))
    requires LeavesVia(s0, cmp, orgs, Outer(s0)) && forall j | j in held :: j !in Outer(s0)
    ensures EffectAt(Flow(s0, cmp, orgs, st), Flow(s4, cmp, orgs, st), cl, OfStmt(While(c, body)), cmp, n)
    decreases if Flow(s0, cmp, orgs, st).Fall? then Flow(s0, cmp, orgs, st).rs.turns
        else 0, if st.pc == |s0.code| then 0 else 1
  {
    hide Run, Agree, FitsStmt;
    var init := |s0.code|;
    var o, o2, o3, o4 := Flow(s0, cmp, orgs, st), Flow(s2, cmp, orgs, st), Flow(s3, cmp, orgs, st), Flow(s4, cmp, orgs,
        st);
    assert TestedAt(o, o2, cl, c, body, cmp, n);
    assert o3 == Raw(s3, cmp, orgs, st) && o4 == Raw(s4, cmp, orgs, st);
    if o.Fall? && |o.rs.vals| == MAXREGS && Truthy(Eval(c, cmp, o.rs)) && ExecBlock(body, cmp, o.rs).Done? {
      var rs1 := ExecBlock(body, cmp, o.rs).rs;
      AgreeFull(o3.rs, rs1, n);
      if o3.at < init {
        assert o3.at in held + cl;
        assert |st.rs.vals| == MAXREGS;
        assert OldAt(s0, s3, held + cl, Raw(s0, cmp, orgs, st), Raw(s3, cmp, orgs, st));
        FromLabel(s0, cmp, orgs, st.rs);
        FromLabel(s0, cmp, orgs, o3.rs);
        WhileAt(s0, s2, s3, s4, held, cl, c, body, cmp, orgs, n, Start(init, o3.rs));
      } else if o3.rs.turns > 0 {
        var rs' := o3.rs.(turns := o3.rs.turns - 1);
        FromLabel(s0, cmp, orgs, rs');
        WhileAt(s0, s2, s3, s4, held, cl, c, body, cmp, orgs, n, Start(init, rs'));
        AgainAgrees(While(c, body), cmp, o3.rs, rs1, n);
        FollowsSame(o4, cl, ExecStmt(While(c, body), cmp, rs'), ExecStmt(While(c, body), cmp,
            rs1.(turns := rs1.turns - 1)), n);
      }
    }
  }

  lemma {:induction false} WhileEffect(s0: Snap, s2: Snap, s3: Snap, s4: Snap, s5: Snap, held: seq<int>, cl: seq<int>,
      c: Expr, body: seq<Stmt>, cmp: Comparer, orgs: set<int>, n: int)
    requires |s0.code| in orgs && TestedEffect(s0, s2, cl, c, body, cmp, orgs, n) && FitsStmt(While(c, body), n)
    requires forall st: Start ::
      var o, o' := Flow(s2, cmp, orgs, st), Flow(s3, cmp, orgs, st);
      if o.Fall? then o'.Jump? && o'.at in held && o'.rs == o.rs else o' == o
    requires OldExits(s0, s3, held + cl, cmp, orgs) && s3.jl == s4.jl == [] && Apart(held, cl)
    requires forall st: Start :: Raw(s4, cmp, orgs, st) == Looping(s4, Elems(held), |s0.code|, cmp, orgs,
        Raw(s3, cmp, orgs, st))
    requires LeavesVia(s0, cmp, orgs, Outer(s0)) && (forall j | j in held || j in cl :: j !in Outer(s0))
        && forall j | j in cl :: |s0.code| <= j
    requires forall st: Start :: Flow(s5, cmp, orgs, st) == Settled(Flow(s4, cmp, orgs, st), cl)
    requires s5.jl == s4.jl + cl
    ensures Effect(s0, s5, [], OfStmt(While(c, body)), cmp, orgs, n)
  {
    hide Run, Agree, FitsStmt, TestedEffect, ExecStmt;
    forall st: Start
      ensures EffectAt(Flow(s0, cmp, orgs, st), Flow(s5, cmp, orgs, st), [], OfStmt(While(c, body)), cmp, n)
    {
      WhileAt(s0, s2, s3, s4, held, cl, c, body, cmp, orgs, n, st);
    }
    assert s5.jl == cl;
  }

  /** repeatstat. */
  method RepeatStatement(f: FuncState, body: seq<Stmt>, c: Expr)
    requires Ready(f) && FitsBlock(body, f.nactvar) && FitsExpr(c, f.nactvar)
    modifies f
    ensures Ready(f) && f.nactvar == old(f.nactvar) && f.orgs == old(f.orgs)
    ensures Grown(old(f.S()), f.S(), [])
    ensures Effect(old(f.S()), f.S(), [], OfStmt(Repeat(body, c)), f.cmp, f.orgs, f.nactvar)
    decreases body, 2
  {
    hide WellFormed, IsList, NoDup, GrownBut, Effect, LeavesVia, OldExits, Run, Flow, KeptOn, Newer, Apart;
    ghost var s0, orgs := f.S(), f.orgs;
    var repeatinit := OpenLoop(f);
    LeavesViaOuter(s0, f.cmp, f.orgs, f.lasttarget);
    Block(f, body);
    ghost var s1, last := f.S(), f.lasttarget;
    NilAsFalseFits(c, f.nactvar);
    var condexit, cl := f.Condition(NilAsFalse(c));
    ghost var s2 := f.S();
    ConditionSame(s1, s2, cl, c, f.cmp, f.orgs, f.nactvar);
    RepeatPending(s0, s1, s2, cl, f.orgs, f.lasttarget);
    f.PatchList(condexit, repeatinit, cl);
    ghost var s3 := f.S();
    BackFlow(s2, Elems(cl), repeatinit, f.cmp, f.orgs, f.lasttarget);
    RepeatGrown(s0, s1, s2, s3, cl);
    OldNewer(s1, s2, [], f.cmp, f.orgs, last);
    RepeatEffect(s0, s1, s2, s3, cl, c, body, f.cmp, f.orgs, f.nactvar);
    Fewer(s0, f.S(), [], OfStmt(Repeat(body, c)), f.cmp, orgs, f.orgs, f.nactvar);
    CloseLoop(f, orgs);
  }

  lemma {:induction false} RepeatPending(s0: Snap, s1: Snap, s2: Snap, cl: seq<int>, orgs: set<int>, last: int)
    requires Grown(s0, s1, []) && SnapOk(s2, orgs, last) && Newer(s1, s2) && Apart(cl, s2.jl)
    requires forall j | j in cl :: j in Outer(s2) && j !in Outer(s1) && |s1.code| <= j
    ensures Elems(cl) <= s2.pend && (forall j | j in Elems(cl) :: j !in s2.jl) && Apart(s2.jl, cl)
        && |s0.code| <= |s1.code| <= |s2.code|
    ensures |s2.code| == |s0.code| ==> cl == []
    ensures forall j | j in cl :: j !in Outer(s0) && |s0.code| <= j
  {
    assert forall j | j in cl :: |s1.code| <= j < |s2.code|;
    if cl != [] { assert cl[0] in cl && |s0.code| <= cl[0] < |s2.code|; }
  }

  lemma {:induction false} RepeatGrown(s0: Snap, s1: Snap, s2: Snap, s3: Snap, cl: seq<int>)
    requires Grown(s0, s1, []) && Kept(s1, s2) && |s1.code| <= |s2.code| == |s3.code|
    requires (forall j | j in s2.pend :: j in Outer(s1) || j in s2.jl || j in cl) && forall j | j in cl ::
        j in Outer(s2) && j !in Outer(s1)
    requires KeptOn(s2, s3, Outer(s2) - Elems(cl)) && s3.jl == s2.jl && s3.pend == s2.pend - Elems(cl)
        && forall j | j in s2.jl :: j in s2.pend
    ensures Grown(s0, s3, [])
  {
    assert Elems([]) == {};
    assert forall j :: j in Outer(s1) <==> j in Outer(s0);
    assert forall j | j in Outer(s1) :: j in Outer(s2) - Elems(cl);
  }

  /** Any number of turns of a repeat loop, from any place: s0, s1, s2, s3 are the
      code at its label, after the body, after the condition, and with its false
      exits sent back. */
  lemma {:induction false} RepeatAt(s0: Snap, s1: Snap, s2: Snap, s3: Snap, cl: seq<int>, c: Expr, body: seq<Stmt>,
      cmp: Comparer, orgs: set<int>, n: int, st: Start)
    requires |s0.code| in orgs && Effect(s0, s1, [], OfBlock(body), cmp, orgs, n) && FitsStmt(Repeat(body, c), n)
    requires forall st: Start :: ConditionAt(Flow(s1, cmp, orgs, st), Flow(s2, cmp, orgs, st), cl, c, cmp, n)
    requires s3.jl == s2.jl && Apart(cl, s2.jl) && forall j | j in cl :: j !in Outer(s0) && |s0.code| <= j
    requires forall st: Start :: Raw(s3, cmp, orgs, st) == Looping(s3, Elems(cl), |s0.code|, cmp, orgs,
        Raw(s2, cmp, orgs, st))
    requires LeavesVia(s0, cmp, orgs, Outer(s0))
    ensures EffectAt(Flow(s0, cmp, orgs, st), Flow(s3, cmp, orgs, st), [], OfStmt(Repeat(body, c)), cmp, n)
    decreases if Flow(s0, cmp, orgs, st).Fall? then Flow(s0, cmp, orgs, st).rs.turns else 0
  {
    hide Run, Agree, FitsExpr;
    var init := |s0.code|;
    var o, o1, o2, o3 := Flow(s0, cmp, orgs, st), Flow(s1, cmp, orgs, st), Flow(s2, cmp, orgs, st), Flow(s3, cmp, orgs,
        st);
    assert EffectAt(o, o1, [], OfBlock(body), cmp, n);
    assert ConditionAt(o1, o2, cl, c, cmp, n);
    assert o2 == Settled(Raw(s2, cmp, orgs, st), s2.jl) && o3 == Settled(Raw(s3, cmp, orgs, st), s2.jl);
    if o.Fall? && |o.rs.vals| == MAXREGS && ExecBlock(body, cmp, o.rs).Done? {
      var rs1 := ExecBlock(body, cmp, o.rs).rs;
      AgreeFull(o1.rs, rs1, n);
      FitsLocals(c, n);
      EvalAgrees(c, cmp, o1.rs, rs1, n);
      AgreeThrough(o2.rs, o1.rs, rs1, n);
      if !Truthy(Eval(c, cmp, rs1)) && o2.rs.turns > 0 {
        var rs' := o2.rs.(turns := o2.rs.turns - 1);
        FromLabel(s0, cmp, orgs, rs');
        RepeatAt(s0, s1, s2, s3, cl, c, body, cmp, orgs, n, Start(init, rs'));
        AgainAgrees(Repeat(body, c), cmp, o2.rs, rs1, n);
        FollowsSame(o3, [], ExecStmt(Repeat(body, c), cmp, rs'), ExecStmt(Repeat(body, c), cmp,
            rs1.(turns := rs1.turns - 1)), n);
      }
    }
  }

  lemma {:induction false} RepeatOld(s0: Snap, s2: Snap, s3: Snap, cl: seq<int>, cmp: Comparer, orgs: set<int>,
      st: Start)
    requires |s0.code| in orgs && OldExits(s0, s2, [], cmp, orgs) && s3.jl == s2.jl && forall j | j in cl ::
        |s0.code| <= j
    requires forall st: Start :: Raw(s3, cmp, orgs, st) == Looping(s3, Elems(cl), |s0.code|, cmp, orgs,
        Raw(s2, cmp, orgs, st))
    requires |st.rs.vals| == MAXREGS
    ensures OldAt(s0, s3, [], Raw(s0, cmp, orgs, st), Raw(s3, cmp, orgs, st))
    decreases st.rs.turns
  {
    var o2 := Raw(s2, cmp, orgs, st);
    assert OldAt(s0, s2, [], Raw(s0, cmp, orgs, st), o2);
    if o2.Jump? && o2.at in cl && o2.rs.turns > 0 {
      var rs' := o2.rs.(turns := o2.rs.turns - 1);
      FromLabel(s0, cmp, orgs, rs');
      RepeatOld(s0, s2, s3, cl, cmp, orgs, Start(|s0.code|, rs'));
    }
  }

  lemma {:induction false} RepeatEffect(s0: Snap, s1: Snap, s2: Snap, s3: Snap, cl: seq<int>, c: Expr, body: seq<Stmt>,
      cmp: Comparer, orgs: set<int>, n: int)
    requires |s0.code| in orgs && Effect(s0, s1, [], OfBlock(body), cmp, orgs, n) && FitsStmt(Repeat(body, c), n)
        && |s0.code| <= |s1.code|
    requires forall st: Start :: ConditionAt(Flow(s1, cmp, orgs, st), Flow(s2, cmp, orgs, st), cl, c, cmp, n)
    requires OldExits(s1, s2, [], cmp, orgs)
    requires s3.jl == s2.jl && Apart(cl, s2.jl) && forall j | j in cl :: j !in Outer(s0) && |s0.code| <= j
    requires forall st: Start :: Raw(s3, cmp, orgs, st) == Looping(s3, Elems(cl), |s0.code|, cmp, orgs,
        Raw(s2, cmp, orgs, st))
    requires LeavesVia(s0, cmp, orgs, Outer(s0))
    ensures Effect(s0, s3, [], OfStmt(Repeat(body, c)), cmp, orgs, n)
  {
    hide Run, Flow, Raw, EffectAt, OldAt, FitsStmt, LeavesVia, ConditionAt;
    OldTwice(s0, s1, s2, [], cmp, orgs);
    forall st: Start
      ensures EffectAt(Flow(s0, cmp, orgs, st), Flow(s3, cmp, orgs, st), [], OfStmt(Repeat(body, c)), cmp, n)
      ensures |st.rs.vals| == MAXREGS ==> OldAt(s0, s3, [], Raw(s0, cmp, orgs, st), Raw(s3, cmp, orgs, st))
    {
      RepeatAt(s0, s1, s2, s3, cl, c, body, cmp, orgs, n, st);
      if |st.rs.vals| == MAXREGS { RepeatOld(s0, s2, s3, cl, cmp, orgs, st); }
    }
  }

  // ----- Turns are a bound and no more -----

  function More(r: Course, d: nat): Course {
    if r.Done? then Done(r.rs.(turns := r.rs.turns + d)) else r
  }

  lemma {:induction false} EvalTurns(x: Expr, cmp: Comparer, rs: Regs, t: nat)
    ensures Eval(x, cmp, rs.(turns := t)) == Eval(x, cmp, rs)
  {
    match x
    case ENot(e) => EvalTurns(e, cmp, rs, t);
    case EAnd(a, b) => EvalTurns(a, cmp, rs, t); EvalTurns(b, cmp, rs, t);
    case EOr(a, b) => EvalTurns(a, cmp, rs, t); EvalTurns(b, cmp, rs, t);
    case ERel(_, a, b) => EvalTurns(a, cmp, rs, t); EvalTurns(b, cmp, rs, t);
    case _ =>
  }

  /** A block that ends within some turns ends the same way with more of them, and
      leaves those over. */
  lemma {:induction false} BlockMore(b: seq<Stmt>, cmp: Comparer, rs: Regs, d: nat)
    requires ExecBlock(b, cmp, rs).Done?
    ensures ExecBlock(b, cmp, rs.(turns := rs.turns + d)) == More(ExecBlock(b, cmp, rs), d)
    decreases rs.turns, b
  {
    if b != [] {
      BlockMore(b[..|b| - 1], cmp, rs, d);
      StmtMore(b[|b| - 1], cmp, ExecBlock(b[..|b| - 1], cmp, rs).rs, d);
    }
  }

  lemma {:induction false} StmtMore(s: Stmt, cmp: Comparer, rs: Regs, d: nat)
    requires ExecStmt(s, cmp, rs).Done?
    ensures ExecStmt(s, cmp, rs.(turns := rs.turns + d)) == More(ExecStmt(s, cmp, rs), d)
    decreases rs.turns, s, 1
  {
    hide Eval;
    match s
    case Assign(r, x) => EvalTurns(x, cmp, rs, rs.turns + d);
    case If(arms) => ArmsMore(arms, cmp, rs, d);
    case While(c, body) =>
      EvalTurns(c, cmp, rs, rs.turns + d);
      if Truthy(Eval(c, cmp, rs)) {
        BlockMore(body, cmp, rs, d);
        AgainMore(s, cmp, ExecBlock(body, cmp, rs).rs, d);
      }
    case Repeat(body, c) =>
      BlockMore(body, cmp, rs, d);
      var rs1 := ExecBlock(body, cmp, rs).rs;
      EvalTurns(c, cmp, rs1, rs1.turns + d);
      if !Truthy(Eval(c, cmp, rs1)) { AgainMore(s, cmp, rs1, d); }
  }

  lemma {:induction false} AgainMore(s: Stmt, cmp: Comparer, rs: Regs, d: nat)
    requires rs.turns > 0 && ExecStmt(s, cmp, rs.(turns := rs.turns - 1)).Done?
    ensures ExecStmt(s, cmp, rs.(turns := rs.turns - 1 + d)) == More(ExecStmt(s, cmp, rs.(turns := rs.turns - 1)), d)
    decreases rs.turns, s, 0
  {
    var rs' := rs.(turns := rs.turns - 1);
    StmtMore(s, cmp, rs', d);
    assert rs'.(turns := rs'.turns + d) == rs.(turns := rs.turns - 1 + d);
  }

  lemma {:induction false} ArmsMore(a: Arms, cmp: Comparer, rs: Regs, d: nat)
    requires ExecArms(a, cmp, rs).Done?
    ensures ExecArms(a, cmp, rs.(turns := rs.turns + d)) == More(ExecArms(a, cmp, rs), d)
    decreases rs.turns, a
  {
    match a
    case End =>
    case Else(body) => BlockMore(body, cmp, rs, d);
    case Arm(c, block, rest) =>
      EvalTurns(c, cmp, rs, rs.turns + d);
      if Truthy(Eval(c, cmp, rs)) { BlockMore(block, cmp, rs, d); } else { ArmsMore(rest, cmp, rs, d); }
  }

  // ----- Programs -----

  /** The code comes to its end, if it is given turns enough. */
  ghost predicate CodeEnds(code: seq<Instr>, k: seq<Value>, cmp: Comparer, vals: seq<Value>) {
    exists t: nat :: Run(code, {}, k, cmp, 0, Regs(vals, t)).Fall?
  }

  ghost predicate SourceEnds(b: seq<Stmt>, cmp: Comparer, vals: seq<Value>) {
    exists t: nat :: ExecBlock(b, cmp, Regs(vals, t)).Done?
  }

  lemma {:induction false} EndsAlike(code: seq<Instr>, k: seq<Value>, b: seq<Stmt>, cmp: Comparer, n: int,
      vals: seq<Value>)
    requires |vals| == MAXREGS
    requires forall rs: Regs | |rs.vals| == MAXREGS ::
      Follows(Run(code, {}, k, cmp, 0, rs), [], ExecBlock(b, cmp, rs), n)
    ensures CodeEnds(code, k, cmp, vals) <==> SourceEnds(b, cmp, vals)
  {
    hide Run, ExecBlock, Agree;
    forall t: nat ensures Run(code, {}, k, cmp, 0, Regs(vals, t)).Fall? <==> ExecBlock(b, cmp, Regs(vals, t)).Done? {
      assert Follows(Run(code, {}, k, cmp, 0, Regs(vals, t)), [], ExecBlock(b, cmp, Regs(vals, t)), n);
    }
    if t: nat :| Run(code, {}, k, cmp, 0, Regs(vals, t)).Fall? {
      assert ExecBlock(b, cmp, Regs(vals, t)).Done?;
    }
    if t: nat :| ExecBlock(b, cmp, Regs(vals, t)).Done? {
      assert Run(code, {}, k, cmp, 0, Regs(vals, t)).Fall?;
    }
  }

  /** A whole program of local assignments, if statements and loops: run on any
      locals, its finished code leaves exactly what the source says in them, after
      as many turns of its loops, and does not end if the source does not. */
  method CompileProgram(b: seq<Stmt>, nlocals: nat, ghost cmp: Comparer) returns (code: seq<Instr>, k: seq<Value>)
    requires nlocals <= MAXREGS && FitsBlock(b, nlocals)
    ensures forall rs: Regs | |rs.vals| == MAXREGS ::
      var o := Run(code, {}, k, cmp, 0, rs);
      match ExecBlock(b, cmp, rs)
      case Never => o == Spent
      case Done(rs') => o.Fall? && Agree(o.rs, rs', nlocals, -1)
    ensures forall vals: seq<Value> | |vals| == MAXREGS :: CodeEnds(code, k, cmp, vals) <==> SourceEnds(b, cmp, vals)
  {
    hide SnapOk, GrownBut, Effect, IsList, NoDup, Run, Agree;
    var f := new FuncState(nlocals, cmp);
    ghost var s0 := f.S();
    Block(f, b);
    ReadyFacts(f);
    Finished(s0, f.S(), b, cmp, f.lasttarget, nlocals);
    f.DischargeJpc();
    code, k := f.code, f.k;
    forall vals: seq<Value> | |vals| == MAXREGS
      ensures CodeEnds(code, k, cmp, vals) <==> SourceEnds(b, cmp, vals)
    {
      EndsAlike(code, k, b, cmp, nlocals, vals);
    }
  }

  /** What the contract of CompileProgram comes to for one comparison of two locals that
      hold numbers: the program ends, with just that boolean in the local assigned to. */
  lemma {:induction false} ComparisonProgram(code: seq<Instr>, k: seq<Value>, n: nat, cmp: Comparer, rs: Regs, r: nat,
      op: RelOp, p: nat, q: nat, x: int, y: int)
    requires r < n <= MAXREGS && p < n && q < n && |rs.vals| == MAXREGS && Orders(cmp)
    requires rs.vals[p] == Number(x) && rs.vals[q] == Number(y)
    requires var o := Run(code, {}, k, cmp, 0, rs);
      match ExecBlock([Assign(r, ERel(op, ELocal(p), ELocal(q)))], cmp, rs)
      case Never => o == Spent
      case Done(rs') => o.Fall? && Agree(o.rs, rs', n, -1)
    ensures var o := Run(code, {}, k, cmp, 0, rs);
      && o.Fall? && |o.rs.vals| == MAXREGS
      && o.rs.vals[r] == Bool(match op
           case Lt => x < y case Gt => x > y case Le => x <= y case Ge => x >= y case Eq => x == y case Ne => x != y)
      && forall j | 0 <= j < n && j != r :: o.rs.vals[j] == rs.vals[j]
  {
    hide Run, RelVal;
    var c := ERel(op, ELocal(p), ELocal(q));
    EvalNumbers(ELocal(p), ELocal(q), cmp, rs, x, y);
    StmtRuns(r, c, [], End, cmp, rs);
    var o, vals := Run(code, {}, k, cmp, 0, rs), rs.vals[r := Eval(c, cmp, rs)];
    forall j | 0 <= j < n ensures o.rs.vals[j] == vals[j] {
      assert Get(o.rs, j) == Get(rs.(vals := vals), j);
    }
  }

  /** ... and for a loop on such a comparison: if it ends, the comparison has become false. */
  lemma {:induction false} LoopProgram(code: seq<Instr>, k: seq<Value>, n: nat, cmp: Comparer, rs: Regs, p: nat,
      q: nat, body: seq<Stmt>)
    requires p < n <= MAXREGS && q < n && |rs.vals| == MAXREGS && Orders(cmp)
    requires var o := Run(code, {}, k, cmp, 0, rs);
      match ExecBlock([While(ERel(Lt, ELocal(p), ELocal(q)), body)], cmp, rs)
      case Never => o == Spent
      case Done(rs') => o.Fall? && Agree(o.rs, rs', n, -1)
    ensures var o := Run(code, {}, k, cmp, 0, rs);
      o.Fall? && o.rs.vals[p].Number? && o.rs.vals[q].Number? ==> o.rs.vals[p].n >= o.rs.vals[q].n
    ensures var o := Run(code, {}, k, cmp, 0, rs);
      rs.vals[p].Number? && rs.vals[q].Number? && rs.vals[p].n >= rs.vals[q].n ==>
        o.Fall? && o.rs.turns == rs.turns && forall j | 0 <= j < n :: o.rs.vals[j] == rs.vals[j]
  {
    hide Run, RelVal;
    var c := ERel(Lt, ELocal(p), ELocal(q));
    var o, r := Run(code, {}, k, cmp, 0, rs), ExecBlock([While(c, body)], cmp, rs);
    assert [While(c, body)][..0] == [];
    LoopEnds(c, body, cmp, rs);
    if r.Done? {
      forall j | 0 <= j < n ensures o.rs.vals[j] == r.rs.vals[j] { assert Get(o.rs, j) == Get(r.rs, j); }
      if o.rs.vals[p].Number? && o.rs.vals[q].Number? {
        EvalNumbers(ELocal(p), ELocal(q), cmp, r.rs, o.rs.vals[p].n, o.rs.vals[q].n);
      }
    }
    if rs.vals[p].Number? && rs.vals[q].Number? {
      EvalNumbers(ELocal(p), ELocal(q), cmp, rs, rs.vals[p].n, rs.vals[q].n);
      StmtRuns(p, c, body, End, cmp, rs);
    }
  }

  lemma {:induction false} EmptyFlow(cmp: Comparer, rs: Regs)
    ensures Flow(Snap([], {}, [], []), cmp, {}, Start(0, rs)) == Fall(rs)
  {
  }

  lemma {:induction false} ReadyFacts(f: FuncState)
    requires Ready(f)
    ensures IsList(f.code, f.jpc, f.jl) && NoDup(f.jl) && SnapOk(f.S(), f.orgs, f.lasttarget)
  {
  }

  lemma {:induction false} NothingPending(s0: Snap, s1: Snap)
    requires Grown(s0, s1, []) && s0.pend == {}
    ensures Outer(s1) == {}
  {
    assert forall j :: j !in Outer(s0);
    assert forall j :: j in s1.pend ==> j in s1.jl;
  }

  lemma {:induction false} Finished(s0: Snap, s1: Snap, b: seq<Stmt>, cmp: Comparer, last: int, n: int)
    requires s0 == Snap([], {}, [], []) && SnapOk(s1, {}, last)
    requires Grown(s0, s1, []) && Effect(s0, s1, [], OfBlock(b), cmp, {}, n)
    ensures forall rs: Regs | |rs.vals| == MAXREGS :: Follows(Run(Discharge(s1).code, {}, s1.k, cmp, 0, rs), [],
        ExecBlock(b, cmp, rs), n)
  {
    hide GrownBut, Run, Agree, WellFormed, Kept, OldExits;
    var d := Discharge(s1);
    NothingPending(s0, s1);
    DischargeFlow(s1, cmp, {}, last);
    assert d.pend == Outer(s1) && d.k == s1.k;
    forall rs: Regs | |rs.vals| == MAXREGS
      ensures Follows(Run(d.code, {}, s1.k, cmp, 0, rs), [], ExecBlock(b, cmp, rs), n)
    {
      var st := Start(0, rs);
      EmptyFlow(cmp, rs);
      assert EffectAt(Flow(s0, cmp, {}, st), Flow(s1, cmp, {}, st), [], OfBlock(b), cmp, n);
      assert Flow(d, cmp, {}, st) == Flow(s1, cmp, {}, st);
    }
  }
}
