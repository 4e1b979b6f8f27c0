/** How each code-generating step takes one description of an expression to
    the next: the meaning-preservation half of modules/lua/lcode.c. */
module LuaCodeHolds {
  import opened Common
  import opened LuaVm
  import opened LuaPatch
  import opened LuaCodeSpec
  import opened LuaCodeFlow

  ghost predicate LocalsBelow(x: Expr, n: int) {
    match x
    case ELocal(r) => r < n
    case ENot(e) => LocalsBelow(e, n)
    case EAnd(a, b) => LocalsBelow(a, n) && LocalsBelow(b, n)
    case EOr(a, b) => LocalsBelow(a, n) && LocalsBelow(b, n)
    case ERel(_, a, b) => LocalsBelow(a, n) && LocalsBelow(b, n)
    case _ => true
  }

  lemma {:induction false} EvalAgrees(x: Expr, cmp: Comparer, rs: Regs, rs1: Regs, base: int)
    requires LocalsBelow(x, base) && Agree(rs, rs1, base, -1)
    ensures Eval(x, cmp, rs) == Eval(x, cmp, rs1)
  {
    match x
    case ENot(e) => EvalAgrees(e, cmp, rs, rs1, base);
    case EAnd(a, b) => EvalAgrees(a, cmp, rs, rs1, base); EvalAgrees(b, cmp, rs, rs1, base);
    case EOr(a, b) => EvalAgrees(a, cmp, rs, rs1, base); EvalAgrees(b, cmp, rs, rs1, base);
    case ERel(_, a, b) => EvalAgrees(a, cmp, rs, rs1, base); EvalAgrees(b, cmp, rs, rs1, base);
    case _ =>
  }

  /** Control can leave unfinished code only through the jumps in `o`. */
  ghost predicate LeavesVia(s: Snap, cmp: Comparer, orgs: set<int>, o: set<int>) {
    forall st: Start :: Flow(s, cmp, orgs, st).Jump? ==> Flow(s, cmp, orgs, st).at in o
  }

  lemma {:induction false} LeavesViaOuter(s: Snap, cmp: Comparer, orgs: set<int>, last: int)
    requires SnapOk(s, orgs, last)
    ensures LeavesVia(s, cmp, orgs, Outer(s))
  {
    forall st: Start ensures Flow(s, cmp, orgs, st).Jump? ==> Flow(s, cmp, orgs, st).at in Outer(s) {
      RunExtended(s.code, s.pend, s.k, s.code, s.pend, s.k, cmp, orgs, last, From(orgs, st), st.rs);
    }
  }

  ghost predicate SameStores(s: Snap, s': Snap, l: seq<int>) {
    forall j | j in l :: HasValue(s'.code, j) == HasValue(s.code, j)
  }

  lemma {:induction false} StoresKept(s: Snap, s': Snap, o: set<int>, l: seq<int>)
    requires KeptOn(s, s', o) && forall j | j in l :: j in o
    ensures SameStores(s, s', l)
  {
  }

  /** A change that leaves flow, value and exits alone leaves the meaning alone. */
  lemma {:induction false} HoldsSame(s0: Snap, s: Snap, s': Snap, e: ExpDesc, e': ExpDesc, ts: seq<int>, fs: seq<int>,
      x: Expr, cmp: Comparer, orgs: set<int>, base: int, dst: int)
    requires Holds(s0, s, e, ts, fs, x, cmp, orgs, base, dst)
    requires (e'.kind == VJmp <==> e.kind == VJmp) && (e.kind == VJmp ==> e'.info == e.info)
    requires forall st: Start :: Flow(Body(s', e'), cmp, orgs, st) == Flow(Body(s, e), cmp, orgs, st)
    requires forall rs: Regs :: Denotes(s', e', rs) == Denotes(s, e, rs)
    requires SameStores(s, s', ts) && SameStores(s, s', fs) && SameStores(s, s', [e.info])
    ensures Holds(s0, s', e', ts, fs, x, cmp, orgs, base, dst)
  {
    assert e.info in [e.info];
    forall st: Start
      ensures Matches(Flow(s0, cmp, orgs, st), Flow(Body(s', e'), cmp, orgs, st), s', e', ts, fs, x, cmp, base, dst)
    {
      assert Matches(Flow(s0, cmp, orgs, st), Flow(Body(s, e), cmp, orgs, st), s, e, ts, fs, x, cmp, base, dst);
    }
  }

  /** The value now sits in `reg`. */
  lemma {:induction false} HoldsStored(s0: Snap, s: Snap, s': Snap, e: ExpDesc, ts: seq<int>, fs: seq<int>, x: Expr,
      cmp: Comparer, orgs: set<int>, base: int, reg: int, dst: int)
    requires Holds(s0, s, e, ts, fs, x, cmp, orgs, base, -1) && e.kind != VJmp
    requires 0 <= reg < MAXREGS && (reg >= base || dst == reg)
    requires SameStores(s, s', ts) && SameStores(s, s', fs)
    requires forall st: Start :: var o := Flow(Body(s, e), cmp, orgs, st);
               Stores(o, Flow(s', cmp, orgs, st), reg, if o.Fall? then Denotes(s, e, o.rs) else Nil)
    ensures Holds(s0, s', e.(kind := VNonReloc, info := reg), ts, fs, x, cmp, orgs, base, dst)
  {
    var e' := e.(kind := VNonReloc, info := reg);
    forall st: Start
      ensures Matches(Flow(s0, cmp, orgs, st), Flow(Body(s', e'), cmp, orgs, st), s', e', ts, fs, x, cmp, base, dst)
    {
      assert Matches(Flow(s0, cmp, orgs, st), Flow(Body(s, e), cmp, orgs, st), s, e, ts, fs, x, cmp, base, -1);
    }
  }

  // ----- Conditions -----

  /** Control falls out iff the condition has truth value `sense`; otherwise
      it leaves through `l`. */
  ghost predicate CondMatches(o: Outcome, o': Outcome, s': Snap, l: seq<int>, sense: bool, x: Expr, cmp: Comparer,
      base: int)
  {
    match o
    case Jump(_, _, _) | Spent | Stuck => o' == o
    case Fall(rs1) =>
      |rs1.vals| == MAXREGS ==>
        match o'
        case Spent | Stuck => false
        case Fall(rs) => Agree(rs, rs1, base, -1) && Truthy(Eval(x, cmp, rs1)) == sense
        case Jump(_, rs, _) => Agree(rs, rs1, base, -1) && ExitOk(s', l, !sense, o', Eval(x, cmp, rs1))
  }

  ghost predicate CondHolds(s: Snap, s': Snap, l: seq<int>, sense: bool, x: Expr, cmp: Comparer, orgs: set<int>,
      base: int)
  {
    forall st: Start :: CondMatches(Flow(s, cmp, orgs, st), Flow(s', cmp, orgs, st), s', l, sense, x, cmp, base)
  }

  /** As CondMatches, with the exits of the expression itself (`same`, of
      truth value `sense`; `other`, of the opposite one) still apart. */
  ghost predicate StageMatches(o: Outcome, o': Outcome, s': Snap, same: seq<int>, other: seq<int>, sense: bool, x: Expr,
      cmp: Comparer, base: int)
  {
    match o
    case Jump(_, _, _) | Spent | Stuck => o' == o
    case Fall(rs1) =>
      |rs1.vals| == MAXREGS ==>
        match o'
        case Spent | Stuck => false
        case Fall(rs) => Agree(rs, rs1, base, -1) && Truthy(Eval(x, cmp, rs1)) == sense
        case Jump(_, rs, _) =>
          && Agree(rs, rs1, base, -1)
          && (ExitOk(s', same, sense, o', Eval(x, cmp, rs1)) || ExitOk(s', other, !sense, o', Eval(x, cmp, rs1)))
  }

  ghost predicate StageHolds(s: Snap, s': Snap, same: seq<int>, other: seq<int>, sense: bool, x: Expr, cmp: Comparer,
      orgs: set<int>, base: int)
  {
    forall st: Start :: StageMatches(Flow(s, cmp, orgs, st), Flow(s', cmp, orgs, st), s', same, other, sense, x, cmp,
        base)
  }

  /** goiftrue / goiffalse on a constant that needs no test. */
  lemma {:induction false} StageConstant(s0: Snap, s: Snap, e: ExpDesc, ts: seq<int>, fs: seq<int>, sense: bool,
      x: Expr, cmp: Comparer, orgs: set<int>, base: int)
    requires Holds(s0, s, e, ts, fs, x, cmp, orgs, base, -1)
    requires e.kind != VJmp && e.kind != VReloc
    requires forall rs: Regs :: Truthy(Denotes(s, e, rs)) == sense
    ensures StageHolds(s0, s, if sense then ts else fs, if sense then fs else ts, sense, x, cmp, orgs, base)
  {
    forall st: Start
      ensures StageMatches(Flow(s0, cmp, orgs, st), Flow(s, cmp, orgs, st), s, if sense then ts else fs,
          if sense then fs else ts, sense, x, cmp, base)
    {
      assert Matches(Flow(s0, cmp, orgs, st), Flow(Body(s, e), cmp, orgs, st), s, e, ts, fs, x, cmp, base, -1);
    }
  }

  /** goiftrue / goiffalse on a comparison: invert it, or take it as it is. */
  lemma {:induction false} StageCompare(s0: Snap, s: Snap, s': Snap, e: ExpDesc, ts: seq<int>, fs: seq<int>,
      sense: bool, x: Expr, cmp: Comparer, orgs: set<int>, base: int, last: int)
    requires Holds(s0, s, e, ts, fs, x, cmp, orgs, base, -1) && LeavesVia(s0, cmp, orgs, Outer(s0))
    requires SnapOk(s, orgs, last) && e.kind == VJmp && ShapeOk(s, e, last) && e.info in s.pend && e.info !in Outer(s0)
    requires s' == if sense then s.(code := Inverted(s.code)) else s
    requires e.info !in ts && e.info !in fs
    ensures SnapOk(s', orgs, last) && Kept(s, s')
    ensures StageHolds(s0, s', if sense then ts else fs, (if sense then fs else ts) + [e.info], sense, x, cmp, orgs,
        base)
  {
    InvertFlow(s, e, cmp, orgs, last);
    forall st: Start
      ensures StageMatches(Flow(s0, cmp, orgs, st), Flow(s', cmp, orgs, st), s', if sense then ts else fs,
          (if sense then fs else ts) + [e.info], sense, x, cmp, base)
    {
      assert Matches(Flow(s0, cmp, orgs, st), Flow(Body(s, e), cmp, orgs, st), s, e, ts, fs, x, cmp, base, -1);
      StageCompareAt(Flow(s0, cmp, orgs, st), Flow(s, cmp, orgs, st), Flow(s', cmp, orgs, st), s, s', e, ts, fs, sense,
          x, cmp, base, Outer(s0));
    }
  }

  function Swapped(o: Outcome, at: int): Outcome {
    match o
    case Fall(rs) => Jump(at, rs, NotStored)
    case Jump(j, rs, v) => if j == at then Fall(rs) else o
    case Spent | Stuck => o
  }

  lemma {:induction false} StageCompareAt(o: Outcome, o1: Outcome, o2: Outcome, s: Snap, s': Snap, e: ExpDesc,
      ts: seq<int>, fs: seq<int>, sense: bool, x: Expr, cmp: Comparer, base: int, outer: set<int>)
    requires Matches(o, o1, s, e, ts, fs, x, cmp, base, -1) && e.kind == VJmp
    requires o2 == if sense then Swapped(o1, e.info) else o1
    requires (o.Jump? ==> o.at in outer) && e.info !in outer && e.info !in ts && e.info !in fs
    requires (forall j: int :: HasValue(s'.code, j) == HasValue(s.code, j)) && !HasValue(s.code, e.info)
    ensures StageMatches(o, o2, s', if sense then ts else fs, (if sense then fs else ts) + [e.info], sense, x, cmp,
        base)
  {
    var other := (if sense then fs else ts) + [e.info];
    assert e.info in other && forall j | j in (if sense then fs else ts) :: j in other;
  }

  /** jumponcond: test the value and jump away unless it has the wanted sense.
      `b` is the code before the test, where the value is Denotes(s, e, _). */
  lemma {:induction false} StageTest(s0: Snap, s: Snap, b: Snap, t: Instr, e: ExpDesc, ts: seq<int>, fs: seq<int>,
      sense: bool, x: Expr, cmp: Comparer, orgs: set<int>, base: int, last: int)
    requires Holds(s0, s, e, ts, fs, x, cmp, orgs, base, -1) && e.kind != VJmp
    requires SnapOk(b, orgs, last) && b.jl == [] && (t.Test? || t.TestSet?)
    requires forall st: Start :: Flow(b, cmp, orgs, st) == Flow(Body(s, e), cmp, orgs, st)
    requires SameStores(s, b, ts) && SameStores(s, b, fs)
    requires forall j | j in ts || j in fs :: j < |b.code|
    requires t.TestSet? ==> (t.c == 0) == sense && forall rs: Regs :: Denotes(s, e, rs) == Get(rs, t.b)
    requires t.Test? ==> (t.c != 0) == sense && forall rs: Regs :: Denotes(s, e, rs) == Bool(!Truthy(Get(rs, t.a)))
    ensures SnapOk(AppendCond(b, t), orgs, last) && Kept(b, AppendCond(b, t))
    ensures StageHolds(s0, AppendCond(b, t), if sense then ts else fs, (if sense then fs else ts) + [|b.code| + 1],
        sense, x, cmp, orgs, base)
  {
    var a := AppendCond(b, t);
    AppendCondFlow(b, t, cmp, orgs, last);
    assert SameStores(s, a, ts) && SameStores(s, a, fs) by {
      assert forall j | j < |b.code| :: HasValue(a.code, j) == HasValue(b.code, j);
    }
    forall st: Start
      ensures StageMatches(Flow(s0, cmp, orgs, st), Flow(a, cmp, orgs, st), a, if sense then ts else fs,
          (if sense then fs else ts) + [|b.code| + 1], sense, x, cmp, base)
    {
      assert Matches(Flow(s0, cmp, orgs, st), Flow(Body(s, e), cmp, orgs, st), s, e, ts, fs, x, cmp, base, -1);
      StageTestAt(Flow(s0, cmp, orgs, st), Flow(b, cmp, orgs, st), s, a, |b.code| + 1, b.k, t, e, ts, fs, sense, x, cmp,
          base);
    }
  }

  lemma {:induction false} StageTestAt(o: Outcome, o1: Outcome, s: Snap, a: Snap, at: int, k: seq<Value>, t: Instr,
      e: ExpDesc, ts: seq<int>, fs: seq<int>, sense: bool, x: Expr, cmp: Comparer, base: int)
    requires Matches(o, o1, s, e, ts, fs, x, cmp, base, -1) && e.kind != VJmp && (t.Test? || t.TestSet?)
    requires t.TestSet? ==> (t.c == 0) == sense && forall rs: Regs :: Denotes(s, e, rs) == Get(rs, t.b)
    requires t.Test? ==> (t.c != 0) == sense && forall rs: Regs :: Denotes(s, e, rs) == Bool(!Truthy(Get(rs, t.a)))
    requires SameStores(s, a, ts) && SameStores(s, a, fs) && HasValue(a.code, at) == t.TestSet?
    ensures StageMatches(o, Branch(o1, t, at, k, cmp), a, if sense then ts else fs, (if sense then fs else ts) + [at],
        sense, x, cmp, base)
  {
    var other := (if sense then fs else ts) + [at];
    assert at in other && forall j | j in (if sense then fs else ts) :: j in other;
    if o.Fall? && o1.Fall? {
      assert t.TestSet? ==> Denotes(s, e, o1.rs) == Get(o1.rs, t.b);
      assert t.Test? ==> Denotes(s, e, o1.rs) == Bool(!Truthy(Get(o1.rs, t.a)));
    }
  }

  /** Gather the exits of one sense, and let those of the other come here. */
  lemma {:induction false} CondGathered(s0: Snap, s: Snap, s': Snap, same: seq<int>, other: seq<int>, sense: bool,
      x: Expr, cmp: Comparer, orgs: set<int>, base: int)
    requires StageHolds(s0, s, same, other, sense, x, cmp, orgs, base)
    requires forall st: Start :: Flow(s'.(jl := s.jl), cmp, orgs, st) == Flow(s, cmp, orgs, st)
    requires s'.jl == s.jl + same && SameStores(s, s', other) && Apart(other, s.jl + same)
    requires LeavesVia(s0, cmp, orgs, Outer(s0)) && forall j | j in same :: j !in Outer(s0)
    ensures CondHolds(s0, s', other, sense, x, cmp, orgs, base)
  {
    forall st: Start
      ensures CondMatches(Flow(s0, cmp, orgs, st), Flow(s', cmp, orgs, st), s', other, sense, x, cmp, base)
    {
      assert StageMatches(Flow(s0, cmp, orgs, st), Flow(s, cmp, orgs, st), s, same, other, sense, x, cmp, base);
      assert Flow(s'.(jl := s.jl), cmp, orgs, st) == Flow(s, cmp, orgs, st);
      var r := Run(s'.code, s'.pend, s'.k, cmp, From(orgs, st), st.rs);
      assert Flow(s', cmp, orgs, st) == Settled(r, s.jl + same);
      assert Flow(s'.(jl := s.jl), cmp, orgs, st) == Settled(r, s.jl);
      assert r.Jump? ==> (r.at in s.jl + same <==> r.at in s.jl || r.at in same);
    }
  }

  // ----- not -----

  /** The exits stand for `x`, the value at the end for its negation. */
  ghost predicate HalfNot(s: Snap, s': Snap, e: ExpDesc, ts: seq<int>, fs: seq<int>, x: Expr, cmp: Comparer,
      orgs: set<int>, base: int)
  {
    forall st: Start :: HalfNotMatches(Flow(s, cmp, orgs, st), Flow(Body(s', e), cmp, orgs, st), s', e, ts, fs, x, cmp,
        base)
  }

  ghost predicate HalfNotMatches(o: Outcome, o': Outcome, s': Snap, e: ExpDesc, ts: seq<int>, fs: seq<int>, x: Expr,
      cmp: Comparer, base: int)
  {
    match o
    case Jump(_, _, _) | Spent | Stuck => o' == o
    case Fall(rs1) =>
      |rs1.vals| == MAXREGS ==>
        var v := Eval(x, cmp, rs1);
        match o'
        case Spent | Stuck => false
        case Fall(rs) => Agree(rs, rs1, base, -1) && Denotes(s', e, rs) == Bool(!Truthy(v))
        case Jump(j, rs, stored) =>
          && Agree(rs, rs1, base, -1)
          && (|| ExitOk(s', ts, true, o', v)
              || ExitOk(s', fs, false, o', v)
              || (e.kind == VJmp && j == e.info && stored == NotStored && !HasValue(s'.code, j) && !Truthy(v)))
  }

  lemma {:induction false} HalfNotValue(s0: Snap, s: Snap, s': Snap, e: ExpDesc, e': ExpDesc, ts: seq<int>,
      fs: seq<int>, x: Expr, cmp: Comparer, orgs: set<int>, base: int)
    requires Holds(s0, s, e, ts, fs, x, cmp, orgs, base, -1) && e.kind != VJmp && e'.kind != VJmp
    requires forall st: Start :: Flow(Body(s', e'), cmp, orgs, st) == Flow(Body(s, e), cmp, orgs, st)
    requires forall rs: Regs :: Denotes(s', e', rs) == Bool(!Truthy(Denotes(s, e, rs)))
    requires SameStores(s, s', ts) && SameStores(s, s', fs)
    ensures HalfNot(s0, s', e', ts, fs, x, cmp, orgs, base)
  {
    forall st: Start
      ensures HalfNotMatches(Flow(s0, cmp, orgs, st), Flow(Body(s', e'), cmp, orgs, st), s', e', ts, fs, x, cmp, base)
    {
      assert Matches(Flow(s0, cmp, orgs, st), Flow(Body(s, e), cmp, orgs, st), s, e, ts, fs, x, cmp, base, -1);
    }
  }

  lemma {:induction false} HalfNotCompare(s0: Snap, s: Snap, e: ExpDesc, ts: seq<int>, fs: seq<int>, x: Expr,
      cmp: Comparer, orgs: set<int>, base: int, last: int)
    requires Holds(s0, s, e, ts, fs, x, cmp, orgs, base, -1) && LeavesVia(s0, cmp, orgs, Outer(s0))
    requires SnapOk(s, orgs, last) && e.kind == VJmp && ShapeOk(s, e, last) && e.info in s.pend && e.info !in Outer(s0)
    requires e.info !in ts && e.info !in fs
    ensures HalfNot(s0, s.(code := Inverted(s.code)), e, ts, fs, x, cmp, orgs, base)
  {
    InvertFlow(s, e, cmp, orgs, last);
    var d := s.(code := Inverted(s.code));
    forall st: Start
      ensures HalfNotMatches(Flow(s0, cmp, orgs, st), Flow(Body(d, e), cmp, orgs, st), d, e, ts, fs, x, cmp, base)
    {
      assert Matches(Flow(s0, cmp, orgs, st), Flow(Body(s, e), cmp, orgs, st), s, e, ts, fs, x, cmp, base, -1);
      assert !HasValue(s.code, e.info);
    }
  }

  /** codenot ends by swapping the exits and taking their values away. */
  lemma {:induction false} NotHolds(s0: Snap, s: Snap, e: ExpDesc, ts: seq<int>, fs: seq<int>, l: set<int>, x: Expr,
      cmp: Comparer, orgs: set<int>, base: int, last: int)
    requires HalfNot(s0, s, e, ts, fs, x, cmp, orgs, base) && LeavesVia(s0, cmp, orgs, Outer(s0))
    requires SnapOk(Body(s, e), orgs, last) && (e.kind == VReloc ==> 0 <= e.info < |s.code| && s.code[e.info].NotI?)
    requires l == Elems(ts) + Elems(fs) && l <= Outer(s) && Outer(s0) !! l
    requires e.kind == VJmp ==> e.info !in l
    ensures Holds(s0, s.(code := Devalued(s.code, l)), e, fs, ts, ENot(x), cmp, orgs, base, -1)
  {
    var d := s.(code := Devalued(s.code, l));
    var b := Body(s, e);
    DevalueFlow(b, l, cmp, orgs, last);
    assert Body(d, e) == b.(code := Devalued(b.code, l)) by {
      assert Body(d, e).code == Devalued(b.code, l);
    }
    assert forall j | j in l :: !HasValue(d.code, j);
    assert forall j | j !in l :: HasValue(d.code, j) == HasValue(s.code, j);
    forall st: Start
      ensures Matches(Flow(s0, cmp, orgs, st), Flow(Body(d, e), cmp, orgs, st), d, e, fs, ts, ENot(x), cmp, base, -1)
    {
      assert HalfNotMatches(Flow(s0, cmp, orgs, st), Flow(b, cmp, orgs, st), s, e, ts, fs, x, cmp, base);
      NotAt(Flow(s0, cmp, orgs, st), Flow(b, cmp, orgs, st), Flow(Body(d, e), cmp, orgs, st), s, d, e, ts, fs, l, x,
          cmp, base);
    }
  }

  lemma {:induction false} NotAt(o: Outcome, o1: Outcome, o2: Outcome, s: Snap, d: Snap, e: ExpDesc, ts: seq<int>,
      fs: seq<int>, l: set<int>, x: Expr, cmp: Comparer, base: int)
    requires HalfNotMatches(o, o1, s, e, ts, fs, x, cmp, base)
    requires l == Elems(ts) + Elems(fs) && (o.Jump? ==> o.at !in l) && (e.kind == VJmp ==> e.info !in l)
    requires o2 == if o1.Jump? && o1.at in l then Jump(o1.at, o1.rs, NotStored) else o1
    requires forall j | j in l :: !HasValue(d.code, j)
    requires forall j | j !in l :: HasValue(d.code, j) == HasValue(s.code, j)
    requires forall rs: Regs :: Denotes(d, e, rs) == Denotes(s, e, rs)
    ensures Matches(o, o2, d, e, fs, ts, ENot(x), cmp, base, -1)
  {
    assert e.info in [e.info];
  }

  // ----- and, or -----

  lemma {:induction false} AgreeFull(rs: Regs, rs1: Regs, n: int)
    requires Agree(rs, rs1, n, -1)
    ensures |rs.vals| == MAXREGS && |rs1.vals| == MAXREGS && rs.turns == rs1.turns && Agree(rs1, rs, n, -1)
  {
  }

  lemma {:induction false} AgreeThrough(rs: Regs, rs1: Regs, rs2: Regs, n: int)
    requires Agree(rs, rs1, n, -1) && Agree(rs1, rs2, n, -1)
    ensures Agree(rs, rs2, n, -1) && rs.turns == rs2.turns
  {
    forall q | 0 <= q < n ensures Get(rs, q) == Get(rs2, q) { assert Get(rs, q) == Get(rs1, q) == Get(rs2, q); }
  }

  lemma {:induction false} EvalLogic(sense: bool, a: Expr, b: Expr, cmp: Comparer, rs: Regs)
    ensures Eval(if sense then EAnd(a, b) else EOr(a, b), cmp, rs) == if Truthy(Eval(a, cmp, rs)) == sense then Eval(b,
        cmp, rs) else Eval(a, cmp, rs)
  {
  }

  lemma {:induction false} LogicAt(o: Outcome, o1: Outcome, o2: Outcome, s1: Snap, s2: Snap, s3: Snap, l: seq<int>,
      e: ExpDesc, e': ExpDesc, ts: seq<int>, fs: seq<int>, sense: bool, a: Expr, b: Expr, cmp: Comparer, base: int)
    requires CondMatches(o, o1, s1, l, sense, a, cmp, base) && Matches(o1, o2, s2, e, ts, fs, b, cmp, base, -1)
        && LocalsBelow(b, base)
    requires SameStores(s1, s3, l) && SameStores(s2, s3, ts) && SameStores(s2, s3, fs) && SameStores(s2, s3, [e.info])
    requires e'.kind == e.kind && e'.info == e.info && (o2.Fall? ==> Denotes(s3, e', o2.rs) == Denotes(s2, e, o2.rs))
    ensures Matches(o, o2, s3, e', if sense then ts else ts + l, if sense then fs + l else fs, if sense then EAnd(a,
        b) else EOr(a, b), cmp, base, -1)
  {
    hide Agree, Eval;
    assert e.info in [e.info];
    if o.Fall? { EvalLogic(sense, a, b, cmp, o.rs); }
    assert forall j | j in (if sense then fs else ts) || j in l :: j in (if sense then fs + l else ts + l);
    if o.Fall? && |o.rs.vals| == MAXREGS && o1.Fall? {
      EvalAgrees(b, cmp, o1.rs, o.rs, base);
      AgreeFull(o1.rs, o.rs, base);
      if o2.Fall? || o2.Jump? { AgreeThrough(o2.rs, o1.rs, o.rs, base); }
    }
  }

  lemma {:induction false} LogicHolds(s0: Snap, s1: Snap, s2: Snap, s3: Snap, l: seq<int>, e: ExpDesc, e': ExpDesc,
      ts: seq<int>, fs: seq<int>, sense: bool, a: Expr, b: Expr, cmp: Comparer, orgs: set<int>, base: int)
    requires CondHolds(s0, s1, l, sense, a, cmp, orgs, base)
    requires Holds(s1, s2, e, ts, fs, b, cmp, orgs, base, -1)
    requires LocalsBelow(b, base)
    requires SameStores(s1, s3, l) && SameStores(s2, s3, ts) && SameStores(s2, s3, fs) && SameStores(s2, s3, [e.info])
    requires e'.kind == e.kind && e'.info == e.info && e'.nval == e.nval
    requires forall st: Start :: Flow(Body(s3, e'), cmp, orgs, st) == Flow(Body(s2, e), cmp, orgs, st)
    requires forall rs: Regs :: Denotes(s3, e', rs) == Denotes(s2, e, rs)
    ensures Holds(s0, s3, e', if sense then ts else ts + l, if sense then fs + l else fs,
                  if sense then EAnd(a, b) else EOr(a, b), cmp, orgs, base, -1)
  {
    hide Flow, Body, Denotes, SameStores, Matches, CondMatches;
    var x := if sense then EAnd(a, b) else EOr(a, b);
    var ts', fs' := if sense then ts else ts + l, if sense then fs + l else fs;
    forall st: Start
      ensures Matches(Flow(s0, cmp, orgs, st), Flow(Body(s3, e'), cmp, orgs, st), s3, e', ts', fs', x, cmp, base, -1)
    {
      var o1, o2 := Flow(s1, cmp, orgs, st), Flow(Body(s2, e), cmp, orgs, st);
      assert CondMatches(Flow(s0, cmp, orgs, st), o1, s1, l, sense, a, cmp, base);
      assert Matches(o1, o2, s2, e, ts, fs, b, cmp, base, -1);
      LogicAt(Flow(s0, cmp, orgs, st), o1, o2, s1, s2, s3, l, e, e', ts, fs, sense, a, b, cmp, base);
    }
  }

  // ----- Comparisons -----

  predicate RKOk(e: ExpDesc) {
    e.kind == VNonReloc || (e.kind == VK && 0 <= e.info < BITRK)
  }

  function RKOf(e: ExpDesc): int {
    if e.kind == VK then e.info + BITRK else e.info
  }

  /** The test codecomp emits: `>` and `>=` exchange their operands. */
  function CompareInstr(op: RelOp, o1: int, o2: int): Instr {
    match op
    case Eq => Cmp(CEq, 1, o1, o2)
    case Ne => Cmp(CEq, 0, o1, o2)
    case Lt => Cmp(CLt, 1, o1, o2)
    case Le => Cmp(CLe, 1, o1, o2)
    case Gt => Cmp(CLt, 1, o2, o1)
    case Ge => Cmp(CLe, 1, o2, o1)
  }

  lemma {:induction false} CompareHolds(s0: Snap, s1: Snap, s2: Snap, e1: ExpDesc, e2: ExpDesc, a: Expr, b: Expr,
      op: RelOp, t: Instr, e: ExpDesc, cmp: Comparer, orgs: set<int>, base: int, base2: int, last: int)
    requires Holds(s0, s1, e1, [], [], a, cmp, orgs, base, -1) && RKOk(e1) && base <= base2 && LocalsBelow(b, base)
    requires e1.kind == VNonReloc ==> 0 <= e1.info < base2
    requires e1.kind == VK ==> e1.info < |s1.k|
    requires Holds(s1, s2, e2, [], [], b, cmp, orgs, base2, -1) && RKOk(e2) && s1.k <= s2.k
    requires e2.kind == VNonReloc ==> 0 <= e2.info < BITRK
    requires e2.kind == VK ==> e2.info < |s2.k|
    requires base2 <= BITRK && SnapOk(s2, orgs, last)
    requires t == CompareInstr(op, RKOf(e1), RKOf(e2))
    requires e.kind == VJmp && e.info == |s2.code| + 1
    ensures var s3 := AppendCond(Discharge(s2), t);
      && SnapOk(s3, orgs, last) && Kept(s2, s3)
      && Holds(s0, s3, e, [], [], ERel(op, a, b), cmp, orgs, base, -1)
  {
    hide Matches, Run, Newer;
    var s3 := AppendCond(Discharge(s2), t);
    DischargeFlow(s2, cmp, orgs, last);
    AppendCondFlow(Discharge(s2), t, cmp, orgs, last);
    assert !HasValue(s3.code, e.info);
    forall st: Start
      ensures Matches(Flow(s0, cmp, orgs, st), Flow(Body(s3, e), cmp, orgs, st), s3, e, [], [], ERel(op, a, b), cmp,
          base, -1)
    {
      var o, o1, o2 := Flow(s0, cmp, orgs, st), Flow(s1, cmp, orgs, st), Flow(s2, cmp, orgs, st);
      assert Matches(o, Flow(Body(s1, e1), cmp, orgs, st), s1, e1, [], [], a, cmp, base, -1);
      assert Matches(o1, Flow(Body(s2, e2), cmp, orgs, st), s2, e2, [], [], b, cmp, base2, -1);
      assert Body(s1, e1) == s1 && Body(s2, e2) == s2;
      if o2.Fall? {
        ComparePasses(op, RKOf(e1), RKOf(e2), s2.k, cmp, o2.rs);
      }
      CompareAt(o, o1, o2, s1, s2, s3, e1, e2, a, b, op, t, e, cmp, base, base2);
    }
  }

  lemma {:induction false} ComparePasses(op: RelOp, o1: int, o2: int, k: seq<Value>, cmp: Comparer, rs: Regs)
    ensures Passes(CompareInstr(op, o1, o2), k, cmp, rs) == RelVal(op, cmp, RK(k, rs, o1), RK(k, rs, o2))
  {
  }

  lemma {:induction false} CompareAt(o: Outcome, o1: Outcome, o2: Outcome, s1: Snap, s2: Snap, s3: Snap, e1: ExpDesc,
      e2: ExpDesc, a: Expr, b: Expr, op: RelOp, t: Instr, e: ExpDesc, cmp: Comparer, base: int, base2: int)
    requires Matches(o, o1, s1, e1, [], [], a, cmp, base, -1) && RKOk(e1) && base <= base2 && LocalsBelow(b, base)
    requires e1.kind == VNonReloc ==> 0 <= e1.info < base2 <= BITRK
    requires e1.kind == VK ==> e1.info < |s1.k|
    requires Matches(o1, o2, s2, e2, [], [], b, cmp, base2, -1) && RKOk(e2) && s1.k <= s2.k
    requires e2.kind == VNonReloc ==> 0 <= e2.info < BITRK
    requires t.Cmp? && (o2.Fall? ==> Passes(t, s2.k, cmp, o2.rs) == RelVal(op, cmp, RK(s2.k, o2.rs, RKOf(e1)),
        RK(s2.k, o2.rs, RKOf(e2))))
    requires e.kind == VJmp && !HasValue(s3.code, e.info)
    ensures Matches(o, Branch(o2, t, e.info, s2.k, cmp), s3, e, [], [], ERel(op, a, b), cmp, base, -1)
  {
    hide Passes, RelVal;
    if o.Fall? && |o.rs.vals| == MAXREGS {
      EvalAgrees(b, cmp, o1.rs, o.rs, base);
      assert Denotes(s1, e1, o1.rs) == RK(s2.k, o2.rs, RKOf(e1));
      assert Denotes(s2, e2, o2.rs) == RK(s2.k, o2.rs, RKOf(e2));
      assert Eval(ERel(op, a, b), cmp, o.rs) == Bool(Passes(t, s2.k, cmp, o2.rs));
      assert e.info in [e.info];
    }
  }

  // ----- Putting an expression into a register -----

  /** Every exit brings its value to the register: `s'` is the finished code. */
  lemma {:induction false} FinishHoldsAt(o: Outcome, o1: Outcome, o2: Outcome, s: Snap, s': Snap, e: ExpDesc,
      e': ExpDesc, ts: seq<int>, fs: seq<int>, x: Expr, cmp: Comparer, outer: set<int>, base: int, reg: int, dst: int)
    requires Matches(o, o1, s, e, ts, fs, x, cmp, base, dst) && Finished(o1, o2, s.code, e, ts, fs, reg)
    requires (e.kind == VNonReloc && e.info == reg) || e.kind == VJmp
    requires 0 <= reg < MAXREGS && (reg >= base || dst == reg) && e' == ExpDesc(VNonReloc, reg, e.nval, NO_JUMP,
        NO_JUMP)
    requires o.Jump? ==> o.at in outer
    requires forall j | j in outer :: j !in ts && j !in fs && j !in Own(e)
    requires forall j | j in fs :: j !in ts && j !in Own(e)
    ensures Matches(o, o2, s', e', [], [], x, cmp, base, dst)
  {
    assert e.info in [e.info];
  }

  lemma {:induction false} FinishHolds(s0: Snap, s: Snap, s': Snap, e: ExpDesc, ts: seq<int>, fs: seq<int>, x: Expr,
      cmp: Comparer, orgs: set<int>, base: int, reg: int, dst: int)
    requires Holds(s0, s, e, ts, fs, x, cmp, orgs, base, dst)
    requires (e.kind == VNonReloc && e.info == reg) || e.kind == VJmp
    requires 0 <= reg < MAXREGS && (reg >= base || dst == reg)
    requires forall st: Start :: Finished(Flow(s, cmp, orgs, st), Flow(s', cmp, orgs, st), s.code, e, ts, fs, reg)
    requires LeavesVia(s0, cmp, orgs, Outer(s0))
    requires forall j | j in Outer(s0) :: j !in ts && j !in fs && j !in Own(e)
    requires forall j | j in fs :: j !in ts && j !in Own(e)
    ensures Holds(s0, s', ExpDesc(VNonReloc, reg, e.nval, NO_JUMP, NO_JUMP), [], [], x, cmp, orgs, base, dst)
  {
    hide Flow, Matches, Finished;
    var e' := ExpDesc(VNonReloc, reg, e.nval, NO_JUMP, NO_JUMP);
    forall st: Start
      ensures Matches(Flow(s0, cmp, orgs, st), Flow(Body(s', e'), cmp, orgs, st), s', e', [], [], x, cmp, base, dst)
    {
      assert Matches(Flow(s0, cmp, orgs, st), Flow(Body(s, e), cmp, orgs, st), s, e, ts, fs, x, cmp, base, dst);
      assert Finished(Flow(s, cmp, orgs, st), Flow(s', cmp, orgs, st), s.code, e, ts, fs, reg);
      FinishHoldsAt(Flow(s0, cmp, orgs, st), Flow(s, cmp, orgs, st), Flow(s', cmp, orgs, st), s, s', e, e', ts, fs, x,
          cmp, Outer(s0), base, reg, dst);
    }
  }

  /** Exits in `ts`, `fs` and the comparison's own jump come out with the
      stored value, or with the boolean of their list, in `reg`. */
  ghost predicate Finished(o: Outcome, o': Outcome, code: seq<Instr>, e: ExpDesc, ts: seq<int>, fs: seq<int>,
      reg: int)
  {
    match o
    case Fall(rs) => o' == Fall(if e.kind == VJmp then Put(rs, reg, Bool(false)) else rs)
    case Jump(j, rs, v) =>
      if j in ts || j in fs || (e.kind == VJmp && j == e.info) then
        (v.Stored? <==> HasValue(code, j)) ==>
        && o'.Fall? && |o'.rs.vals| == |rs.vals| && o'.rs.turns == rs.turns
        && (0 <= reg < |rs.vals| ==> Get(o'.rs, reg) == if v.Stored? then v.value else Bool(j !in fs))
        && forall r: int | r != reg :: Get(o'.rs, r) == Get(rs, r)
      else o' == o
    case Spent | Stuck => o' == o
  }

  // ----- Who owns which pending jump -----

  /** The pending jumps around a descriptor: those of others are untouched,
      and its two lists are threaded through the code. */
  ghost predicate Linked(s0: Snap, s: Snap, e: ExpDesc, ts: seq<int>, fs: seq<int>) {
    && Kept(s0, s) && Owned(s0, s, ts, fs, Own(e))
    && IsList(s.code, e.t, ts) && IsList(s.code, e.f, fs)
  }

  lemma {:induction false} ListKeptOn(s: Snap, s': Snap, o: set<int>, head: int, l: seq<int>)
    requires IsList(s.code, head, l) && KeptOn(s, s', o) && forall j | j in l :: j in o
    ensures IsList(s'.code, head, l)
  {
    ListKept(s.code, s'.code, head, l);
  }

  /** Emitting code after a descriptor that is not a comparison sends jpc on
      its way and leaves everything else linked as it was. */
  lemma {:induction false} LinkedMoved(s0: Snap, s: Snap, s': Snap, e: ExpDesc, e': ExpDesc, ts: seq<int>, fs: seq<int>)
    requires Linked(s0, s, e, ts, fs) && e.kind != VJmp && e'.kind != VJmp && e'.t == e.t && e'.f == e.f
    requires Kept(s, s') && s'.jl == [] && s'.pend == Outer(s) && |s.code| <= |s'.code|
    ensures Linked(s0, s', e', ts, fs)
    ensures SameStores(s, s', ts) && SameStores(s, s', fs)
  {
    ListKeptOn(s, s', Outer(s), e.t, ts);
    ListKeptOn(s, s', Outer(s), e.f, fs);
  }

  lemma {:induction false} HoldsWeaker(s0: Snap, s: Snap, e: ExpDesc, ts: seq<int>, fs: seq<int>, x: Expr,
      cmp: Comparer, orgs: set<int>, base: int, dst: int)
    requires Holds(s0, s, e, ts, fs, x, cmp, orgs, base, -1)
    ensures Holds(s0, s, e, ts, fs, x, cmp, orgs, base, dst)
  {
    forall st: Start
      ensures Matches(Flow(s0, cmp, orgs, st), Flow(Body(s, e), cmp, orgs, st), s, e, ts, fs, x, cmp, base, dst)
    {
      assert Matches(Flow(s0, cmp, orgs, st), Flow(Body(s, e), cmp, orgs, st), s, e, ts, fs, x, cmp, base, -1);
    }
  }

  /** A local already is in a register (luaK_dischargevars). */
  lemma {:induction false} HoldsLocal(s0: Snap, s: Snap, e: ExpDesc, ts: seq<int>, fs: seq<int>, x: Expr, cmp: Comparer,
      orgs: set<int>, base: int)
    requires Holds(s0, s, e, ts, fs, x, cmp, orgs, base, -1)
    ensures e.kind == VLocal ==> Holds(s0, s, e.(kind := VNonReloc), ts, fs, x, cmp, orgs, base, -1)
  {
    if e.kind == VLocal {
      HoldsSame(s0, s, s, e, e.(kind := VNonReloc), ts, fs, x, cmp, orgs, base, -1);
    }
  }

  lemma {:induction false} BodyOk(s: Snap, e: ExpDesc, orgs: set<int>, last: int)
    requires SnapOk(s, orgs, last) && ShapeOk(s, e, last)
    ensures SnapOk(Body(s, e), orgs, last) && Kept(s, Body(s, e)) && Outer(Body(s, e)) == Outer(s)
    ensures forall j | j in s.pend :: j < |Body(s, e).code|
  {
    if e.kind == VReloc {
      var b := Body(s, e);
      assert forall j | j in s.pend :: j != |s.code| - 1;
      forall i | 0 <= i < |b.code| ensures WellFormedAt(b.code, b.pend, b.k, last, i) {
        assert WellFormedAt(s.code, s.pend, s.k, last, i);
      }
    }
  }

  /** New constants do not change what code does. */
  lemma {:induction false} MoreConstantsFlow(s: Snap, k': seq<Value>, cmp: Comparer, orgs: set<int>, last: int)
    requires SnapOk(s, orgs, last) && s.k <= k'
    ensures SnapOk(s.(k := k'), orgs, last)
    ensures forall st: Start :: Flow(s.(k := k'), cmp, orgs, st) == Flow(s, cmp, orgs, st)
  {
    forall i | 0 <= i < |s.code| ensures WellFormedAt(s.code, s.pend, k', last, i) {
      assert WellFormedAt(s.code, s.pend, s.k, last, i);
    }
    forall st: Start ensures Flow(s.(k := k'), cmp, orgs, st) == Flow(s, cmp, orgs, st) {
      RunExtended(s.code, s.pend, s.k, s.code, s.pend, k', cmp, orgs, last, From(orgs, st), st.rs);
      var o := Run(s.code, s.pend, s.k, cmp, From(orgs, st), st.rs);
      assert o.Jump? ==> ResumeStep(o, s.code, s.pend) == Leave(o);
    }
  }

  lemma {:induction false} MoreConstantsLinked(s0: Snap, s: Snap, k': seq<Value>, e: ExpDesc, ts: seq<int>,
      fs: seq<int>, last: int)
    requires ShapeOk(s, e, last) && Linked(s0, s, e, ts, fs) && s.k <= k'
    ensures ShapeOk(s.(k := k'), e, last) && Linked(s0, s.(k := k'), e, ts, fs)
  {
    assert Outer(s.(k := k')) == Outer(s);
  }

  lemma {:induction false} MoreConstants(s0: Snap, s: Snap, k': seq<Value>, e: ExpDesc, ts: seq<int>, fs: seq<int>,
      x: Expr, cmp: Comparer, orgs: set<int>, last: int, base: int, dst: int)
    requires SnapOk(s, orgs, last) && ShapeOk(s, e, last) && s.k <= k'
    requires Holds(s0, s, e, ts, fs, x, cmp, orgs, base, dst) && (e.kind == VK ==> 0 <= e.info < |s.k|)
    ensures SnapOk(s.(k := k'), orgs, last) && Holds(s0, s.(k := k'), e, ts, fs, x, cmp, orgs, base, dst)
  {
    var s' := s.(k := k');
    BodyOk(s, e, orgs, last);
    MoreConstantsFlow(s, k', cmp, orgs, last);
    MoreConstantsFlow(Body(s, e), k', cmp, orgs, last);
    assert Body(s', e) == Body(s, e).(k := k');
    HoldsSame(s0, s, s', e, e, ts, fs, x, cmp, orgs, base, dst);
  }

  /** The instruction that puts what a descriptor denotes into a register. */
  ghost predicate Loads(i: Instr, k: seq<Value>, s: Snap, e: ExpDesc, reg: int) {
    && !TMode(i) && !i.Jmp? && (i.LoadBool? ==> i.c == 0) && OperandsOk(i, |k|)
    && forall rs: Regs :: Simple(i, k, rs) == Put(rs, reg, Denotes(s, e, rs))
  }

  lemma {:induction false} EmitHolds(s0: Snap, s: Snap, i: Instr, k': seq<Value>, e: ExpDesc, ts: seq<int>,
      fs: seq<int>, x: Expr, cmp: Comparer, orgs: set<int>, last: int, base: int, reg: int, dst: int)
    requires SnapOk(s, orgs, last) && ShapeOk(s, e, last) && Linked(s0, s, e, ts, fs) && e.kind != VJmp
    requires Holds(s0, s, e, ts, fs, x, cmp, orgs, base, -1)
    requires 0 <= reg < MAXREGS && (reg >= base || dst == reg)
    requires s.k <= k' && Loads(i, k', s, e, reg)
    ensures var s' := Append(Discharge(Body(s, e)), i, k'); var e' := e.(kind := VNonReloc, info := reg);
      SnapOk(s', orgs, last) && Linked(s0, s', e', ts, fs) && Holds(s0, s', e', ts, fs, x, cmp, orgs, base, dst)
  {
    var b := Body(s, e);
    var s' := Append(Discharge(b), i, k');
    BodyOk(s, e, orgs, last);
    DischargeFlow(b, cmp, orgs, last);
    AppendPlain(Discharge(b), i, k', cmp, orgs, last);
    LinkedMoved(s0, s, s', e, e.(kind := VNonReloc, info := reg), ts, fs);
    forall st: Start ensures
      var o := Flow(b, cmp, orgs, st);
      Stores(o, Flow(s', cmp, orgs, st), reg, if o.Fall? then Denotes(s, e, o.rs) else Nil)
    {
      assert Flow(s', cmp, orgs, st) == Then(Flow(b, cmp, orgs, st), i, k');
    }
    HoldsStored(s0, s, s', e, ts, fs, x, cmp, orgs, base, reg, dst);
  }

  /** Patching the false exits and then the true ones, with the two loads (if
      needed) as the last two instructions. */
  function PatchBoth(w: Snap, fs: set<int>, ts: set<int>, reg: int, pf: int, pt: int): Snap {
    PatchSnap(PatchSnap(w, fs, |w.code|, reg, pf), ts, |w.code|, reg, pt)
  }

  /** The registers after a patched exit of truth value `sense`. */
  function ExitRegs(code: seq<Instr>, o: Outcome, reg: int, sense: bool): Regs
    requires o.Jump?
  {
    if HasValue(code, o.at) then Delivered(code, o, reg) else Put(o.rs, reg, Bool(sense))
  }

  ghost predicate LoadAt(w: Snap, l: set<int>, reg: int, at: int, sense: bool) {
    forall j | j in l && !HasValue(w.code, j) ::
      && 0 <= j < at < |w.code|
      && (if sense then at == |w.code| - 1 && w.code[at] == LoadBool(reg, 1, 0)
          else at == |w.code| - 2 && w.code[at] == LoadBool(reg, 0, 1))
  }

  lemma {:induction false} PatchOne(w: Snap, l: set<int>, reg: int, at: int, sense: bool, cmp: Comparer, orgs: set<int>)
    requires SnapOk(w, orgs, |w.code|) && l <= w.pend && (forall j | j in l :: j !in w.jl)
    requires LoadAt(w, l, reg, at, sense)
    ensures var d := PatchSnap(w, l, |w.code|, reg, at);
      && SnapOk(d, orgs, |w.code|) && KeptOn(w, d, Outer(w) - l) && |d.code| == |w.code|
      && (forall i | 0 <= i < |w.code| && w.code[i].LoadBool? :: d.code[i] == w.code[i])
      && forall st: Start :: Flow(d, cmp, orgs, st) ==
           var o := Flow(w, cmp, orgs, st);
           if o.Jump? && o.at in l then Fall(ExitRegs(w.code, o, reg, sense)) else o
  {
    var d := PatchSnap(w, l, |w.code|, reg, at);
    PatchFlow(w, l, |w.code|, reg, at, cmp, orgs, |w.code|);
    forall st: Start ensures Flow(d, cmp, orgs, st) ==
      var o := Flow(w, cmp, orgs, st);
      if o.Jump? && o.at in l then Fall(ExitRegs(w.code, o, reg, sense)) else o
    {
      var o := Flow(w, cmp, orgs, st);
      if o.Jump? && o.at in l {
        LandAt(d, w, o, reg, at, sense, cmp);
      }
    }
  }

  lemma {:induction false} LandAt(d: Snap, w: Snap, o: Outcome, reg: int, at: int, sense: bool, cmp: Comparer)
    requires o.Jump? && |d.code| == |w.code|
    requires !HasValue(w.code, o.at) ==>
      0 <= at && if sense then at == |d.code| - 1 && d.code[at] == LoadBool(reg, 1, 0)
                 else at == |d.code| - 2 && d.code[at] == LoadBool(reg, 0, 1)
    ensures Settled(Run(d.code, d.pend, d.k, cmp, Target(w.code, o.at, |w.code|, at), Delivered(w.code, o, reg)), d.jl)
            == Fall(ExitRegs(w.code, o, reg, sense))
  {
    if !HasValue(w.code, o.at) {
      var rs := Put(o.rs, reg, Bool(sense));
      assert Step(d.code, d.pend, d.k, cmp, at, o.rs) == Next(|d.code|, rs);
      assert Run(d.code, d.pend, d.k, cmp, |d.code|, rs) == Fall(rs);
    }
  }

  /** Patching the false exits leaves the true ones as they were. */
  lemma {:induction false} OthersKept(w: Snap, fs: set<int>, ts: set<int>, reg: int, pf: int, pt: int)
    requires fs <= w.pend && ts <= w.pend && fs !! ts && (forall j | j in fs || j in ts :: j !in w.jl)
        && LoadAt(w, ts, reg, pt, true)
    requires var m := PatchSnap(w, fs, |w.code|, reg, pf); KeptOn(w, m, Outer(w) - fs) && forall i | 0 <= i < |w.code|
        && w.code[i].LoadBool? :: m.code[i] == w.code[i]
    ensures var m := PatchSnap(w, fs, |w.code|, reg, pf);
      && ts <= m.pend && (forall j | j in ts :: j !in m.jl) && LoadAt(m, ts, reg, pt, true)
      && (forall j | j in ts ::
          HasValue(m.code, j) == HasValue(w.code, j) && (HasValue(w.code, j) ==> m.code[j - 1] == w.code[j - 1]))
  {
    assert forall j | j in ts :: j in Outer(w) - fs;
  }

  lemma {:induction false} PatchBothFlow(w: Snap, fs: set<int>, ts: set<int>, reg: int, pf: int, pt: int, cmp: Comparer,
      orgs: set<int>)
    requires SnapOk(w, orgs, |w.code|) && fs <= w.pend && ts <= w.pend && fs !! ts
    requires forall j | j in fs || j in ts :: j !in w.jl
    requires LoadAt(w, fs, reg, pf, false) && LoadAt(w, ts, reg, pt, true)
    ensures var d := PatchBoth(w, fs, ts, reg, pf, pt);
      && SnapOk(d, orgs, |w.code|) && KeptOn(w, d, Outer(w) - fs - ts)
      && forall st: Start :: Flow(d, cmp, orgs, st) ==
           var o := Flow(w, cmp, orgs, st);
           if o.Jump? && (o.at in fs || o.at in ts) then Fall(ExitRegs(w.code, o, reg, o.at in ts)) else o
  {
    var m := PatchSnap(w, fs, |w.code|, reg, pf);
    var d := PatchBoth(w, fs, ts, reg, pf, pt);
    hide Flow, WellFormed, LoadAt, HasValue, Patched;
    PatchOne(w, fs, reg, pf, false, cmp, orgs);
    OthersKept(w, fs, ts, reg, pf, pt);
    PatchOne(m, ts, reg, pt, true, cmp, orgs);
    forall st: Start ensures Flow(d, cmp, orgs, st) ==
      var o := Flow(w, cmp, orgs, st);
      if o.Jump? && (o.at in fs || o.at in ts) then Fall(ExitRegs(w.code, o, reg, o.at in ts)) else o
    {
      var o := Flow(w, cmp, orgs, st);
      if o.Jump? && o.at in ts {
        assert Flow(m, cmp, orgs, st) == o;
        assert ExitRegs(m.code, o, reg, true) == ExitRegs(w.code, o, reg, true);
      }
    }
  }

  /** A flow that carries a value carries the operand of its TESTSET. */
  ghost predicate Carries(s: Snap, cmp: Comparer, orgs: set<int>) {
    forall st: Start :: var o := Flow(s, cmp, orgs, st);
      o.Jump? && o.stored.Stored? && HasValue(s.code, o.at) ==> 0 <= o.at < |s.code| && o.stored.value == Get(o.rs,
          s.code[o.at - 1].b)
  }

  lemma {:induction false} FlowCarries(s: Snap, cmp: Comparer, orgs: set<int>, last: int)
    requires SnapOk(s, orgs, last)
    ensures Carries(s, cmp, orgs)
  {
    forall st: Start ensures
      var o := Flow(s, cmp, orgs, st);
      o.Jump? && o.stored.Stored? && HasValue(s.code, o.at) ==> 0 <= o.at < |s.code| && o.stored.value == Get(o.rs,
          s.code[o.at - 1].b)
    {
      RunExtended(s.code, s.pend, s.k, s.code, s.pend, s.k, cmp, orgs, last, From(orgs, st), st.rs);
    }
  }

  lemma {:induction false} FinishAt(o: Outcome, o': Outcome, code: seq<Instr>, wcode: seq<Instr>, e: ExpDesc,
      ts: seq<int>, fs: seq<int>, f: set<int>, t: set<int>, reg: int)
    requires f == Elems(fs) && t == Elems(ts + Own(e)) && f !! t && code <= wcode && 0 <= reg < MAXREGS
    requires o.Jump? && o.stored.Stored? && HasValue(code, o.at) ==> 0 <= o.at < |code| && o.stored.value == Get(o.rs,
        code[o.at - 1].b)
    requires o.Jump? && (o.at in f || o.at in t) ==> o.at < |code|
    requires o' == match o
                   case Fall(rs) => Fall(if e.kind == VJmp then Put(rs, reg, Bool(false)) else rs)
                   case Jump(j, _, _) => if j in f || j in t then Fall(ExitRegs(wcode, o, reg, j in t)) else o
                   case Spent | Stuck => o
    ensures Finished(o, o', code, e, ts, fs, reg)
  {
    if o.Jump? {
      var j := o.at;
      assert j in t <==> j in ts || (e.kind == VJmp && j == e.info);
      if j in f || j in t {
        assert HasValue(wcode, j) == HasValue(code, j);
        assert HasValue(code, j) ==> wcode[j - 1] == code[j - 1];
      }
    }
  }

  /** A comparison that falls through is false. */
  function FalseIfLast(o: Outcome, e: ExpDesc, reg: int): Outcome {
    if o.Fall? && e.kind == VJmp then Fall(Put(o.rs, reg, Bool(false))) else o
  }

  lemma {:induction false} ExitsApart(s0: Snap, s: Snap, w: Snap, e: ExpDesc, ts: seq<int>, fs: seq<int>, f: set<int>,
      t: set<int>)
    requires Owned(s0, s, ts, fs, Own(e)) && f == Elems(fs) && t == Elems(ts + Own(e)) && Kept(s, w)
    ensures f !! t && f <= w.pend && t <= w.pend && forall j | j in f || j in t :: j in Outer(s) && j !in w.jl
  {
    hide Newer;
    assert forall j | j in ts + Own(e) :: j in ts || j in Own(e);
    forall j | j in f || j in t ensures j in Outer(s) && j in w.pend && !(j in f && j in t) {
      assert j in fs || j in ts + Own(e);
    }
  }

  lemma {:induction false} ExitsThere(s0: Snap, s: Snap, e: ExpDesc, ts: seq<int>, fs: seq<int>, f: set<int>,
      t: set<int>, orgs: set<int>, last: int)
    requires SnapOk(s, orgs, last) && Owned(s0, s, ts, fs, Own(e)) && f == Elems(fs) && t == Elems(ts + Own(e))
    ensures forall j | j in f || j in t :: j < |s.code|
    ensures forall j | j in Outer(s0) :: j !in ts && j !in fs && j !in Own(e)
    ensures forall j | j in fs :: j !in ts && j !in Own(e)
  {
    hide Newer;
    assert forall j | j in ts + Own(e) :: j in ts || j in Own(e);
    assert forall j | j in fs || j in ts || j in Own(e) :: j in s.pend;
  }

  /** exp2reg: from the described code `s`, extended to `w` by the loads (if
      some exit needs one), to the finished code. */
  lemma {:induction false} ExpToReg(s0: Snap, s: Snap, w: Snap, e: ExpDesc, ts: seq<int>, fs: seq<int>, f: set<int>,
      t: set<int>, x: Expr, cmp: Comparer, orgs: set<int>, base: int, reg: int, dst: int, last: int, pf: int, pt: int)
    requires Holds(s0, s, e, ts, fs, x, cmp, orgs, base, dst) && LeavesVia(s0, cmp, orgs, Outer(s0))
    requires (e.kind == VNonReloc && e.info == reg) || e.kind == VJmp
    requires 0 <= reg < MAXREGS && (reg >= base || dst == reg)
    requires SnapOk(s, orgs, last) && Kept(s0, s) && Owned(s0, s, ts, fs, Own(e))
    requires f == Elems(fs) && t == Elems(ts + Own(e))
    requires SnapOk(w, orgs, |w.code|) && Kept(s, w) && s.code <= w.code
    requires LoadAt(w, f, reg, pf, false) && LoadAt(w, t, reg, pt, true)
    requires forall st: Start :: Flow(w, cmp, orgs, st) == FalseIfLast(Flow(s, cmp, orgs, st), e, reg)
    ensures var d := PatchBoth(w, f, t, reg, pf, pt);
      && SnapOk(d, orgs, |w.code|) && KeptOn(w, d, Outer(w) - f - t)
      && Holds(s0, d, ExpDesc(VNonReloc, reg, e.nval, NO_JUMP, NO_JUMP), [], [], x, cmp, orgs, base, dst)
  {
    var d := PatchBoth(w, f, t, reg, pf, pt);
    ExitsApart(s0, s, w, e, ts, fs, f, t);
    ExitsThere(s0, s, e, ts, fs, f, t, orgs, last);
    hide Flow, Owned, KeptOn, LoadAt, Holds, LeavesVia, Finished;
    PatchBothFlow(w, f, t, reg, pf, pt, cmp, orgs);
    FlowCarries(s, cmp, orgs, last);
    forall st: Start ensures Finished(Flow(s, cmp, orgs, st), Flow(d, cmp, orgs, st), s.code, e, ts, fs, reg) {
      FinishAt(Flow(s, cmp, orgs, st), Flow(d, cmp, orgs, st), s.code, w.code, e, ts, fs, f, t, reg);
    }
    FinishHolds(s0, s, d, e, ts, fs, x, cmp, orgs, base, reg, dst);
  }

  /** After patching every exit, only the jumps of others and jpc are pending. */
  lemma {:induction false} FinishLinked(s0: Snap, s: Snap, w: Snap, d: Snap, e: ExpDesc, e': ExpDesc, ts: seq<int>,
      fs: seq<int>, f: set<int>, t: set<int>, extra: seq<int>)
    requires Kept(s0, s) && Owned(s0, s, ts, fs, Own(e))
    requires f == Elems(fs) && t == Elems(ts + Own(e))
    requires w.pend == s.pend + Elems(extra) && w.jl == extra + s.jl && forall j | j in extra :: j !in s.pend
    requires w.k == s.k && d.k == s.k && d.jl == w.jl && d.pend == w.pend - f - t
    requires Kept(s, w) && KeptOn(w, d, Outer(w) - f - t)
    requires e'.kind == VNonReloc && e'.t == NO_JUMP && e'.f == NO_JUMP
    requires |s.code| <= |d.code| && (forall j | j in extra :: |s.code| <= j) && (forall j | j in s.pend ::
        j < |s.code|)
    requires f + t != {} || (d.code == s.code && extra == [])
    ensures Linked(s0, d, e', [], [])
  {
    FinishNewer(s0, s, d, e, ts, fs, f, t, extra);
    assert forall j | j in ts + Own(e) :: j in ts || j in Own(e);
    assert forall j | j in Outer(s0) :: j in Outer(w) - f - t;
    assert forall j :: j in w.jl <==> j in s.jl || j in extra;
  }

  lemma {:induction false} NoElements(s: set<int>)
    ensures (forall j :: j !in s) ==> s == {}
  {
    if forall j :: j !in s { assert s <= {}; }
  }

  lemma {:induction false} AnyOf(s: set<int>) returns (j: int)
    requires s != {}
    ensures j in s
  {
    NoElements(s);
    j :| j in s;
  }

  lemma {:induction false} FinishNewer(s0: Snap, s: Snap, d: Snap, e: ExpDesc, ts: seq<int>, fs: seq<int>, f: set<int>,
      t: set<int>, extra: seq<int>)
    requires Owned(s0, s, ts, fs, Own(e)) && f == Elems(fs) && t == Elems(ts + Own(e)) && (forall j | j in s.pend ::
        j < |s.code|)
    requires d.jl == extra + s.jl && d.pend == s.pend + Elems(extra) - f - t && |s.code| <= |d.code|
        && forall j | j in extra :: |s.code| <= j
    requires f + t != {} || (d.code == s.code && extra == [])
    ensures Newer(s0, d)
  {
    assert forall j | j in ts + Own(e) :: j in ts || j in Own(e);
    if f + t != {} {
      var j := AnyOf(f + t);
      assert j in s.pend && |s0.code| <= j < |s.code|;
      assert forall i | i in s.jl :: |s0.code| <= i;
    } else {
      assert f <= f + t && t <= f + t;
      assert d.jl == s.jl && d.pend == s.pend;
    }
  }

  /** What exp2reg starts from once a comparison's own jump is in its list. */
  ghost predicate Ready(s0: Snap, s: Snap, e: ExpDesc, ts: seq<int>, fs: seq<int>, x: Expr, cmp: Comparer,
      orgs: set<int>, last: int, base: int, dst: int)
  {
    && SnapOk(s, orgs, last) && Kept(s0, s) && Owned(s0, s, ts, fs, Own(e))
    && LeavesVia(s0, cmp, orgs, Outer(s0))
    && (e.kind == VNonReloc || (e.kind == VJmp && s.jl == [] && !HasValue(s.code, e.info)))
    && Holds(s0, s, e, ts, fs, x, cmp, orgs, base, dst)
  }

  function Result(e: ExpDesc, reg: int): ExpDesc {
    ExpDesc(VNonReloc, reg, e.nval, NO_JUMP, NO_JUMP)
  }

  /** The jump of a comparison joins its true exits. */
  lemma {:induction false} TrueGathered(s0: Snap, s: Snap, s': Snap, e: ExpDesc, ts: seq<int>, fs: seq<int>, x: Expr,
      cmp: Comparer, orgs: set<int>, last: int, base: int, dst: int)
    requires SnapOk(s, orgs, last) && Linked(s0, s, e, ts, fs) && ShapeOk(s, e, last) && e.kind == VJmp
    requires LeavesVia(s0, cmp, orgs, Outer(s0)) && Holds(s0, s, e, ts, fs, x, cmp, orgs, base, dst)
    requires s' == s.(code := s'.code) && Relinked(s.code, s'.code, ts)
    ensures SnapOk(s', orgs, last) && Ready(s0, s', e, ts, fs, x, cmp, orgs, last, base, dst)
        && IsList(s'.code, e.f, fs)
  {
    hide Holds, LeavesVia, WellFormed;
    assert forall j | j in ts :: j in s.pend;
    HoldsRelinked(s0, s, s', e, ts, fs, ts, x, cmp, orgs, last, base, dst);
    ListMembers(s.code, e.f, fs);
    ListKept(s.code, s'.code, e.f, fs);
    assert forall j | j in Outer(s0) :: j in Outer(s) - Elems(ts);
  }

  lemma {:induction false} FinishedPlain(s0: Snap, s: Snap, e: ExpDesc, ts: seq<int>, fs: seq<int>, x: Expr,
      cmp: Comparer, orgs: set<int>, last: int, base: int, reg: int, dst: int)
    requires Ready(s0, s, e, ts, fs, x, cmp, orgs, last, base, dst)
    requires 0 <= reg < MAXREGS && (reg >= base || dst == reg) && (e.kind == VNonReloc && e.info == reg)
    requires forall j | j in ts + Own(e) || j in fs :: HasValue(s.code, j)
    ensures var d := PatchBoth(s, Elems(fs), Elems(ts + Own(e)), reg, NO_JUMP, NO_JUMP);
      && SnapOk(d, orgs, |d.code|) && Linked(s0, d, Result(e, reg), [], [])
      && Holds(s0, d, Result(e, reg), [], [], x, cmp, orgs, base, dst)
  {
    var d := PatchBoth(s, Elems(fs), Elems(ts + Own(e)), reg, NO_JUMP, NO_JUMP);
    LaterTarget(s, orgs, last);
    ExpToReg(s0, s, s, e, ts, fs, Elems(fs), Elems(ts + Own(e)), x, cmp, orgs, base, reg, dst, last, NO_JUMP, NO_JUMP);
    assert s.jl == [] + s.jl && s.pend == s.pend + Elems([]);
    if Elems(fs) + Elems(ts + Own(e)) == {} {
      assert Elems(fs) <= Elems(fs) + Elems(ts + Own(e)) && Elems(ts + Own(e)) <= Elems(fs) + Elems(ts + Own(e));
      assert d.code == s.code;
    }
    FinishLinked(s0, s, s, d, e, Result(e, reg), ts, fs, Elems(fs), Elems(ts + Own(e)), []);
  }

  lemma {:induction false} LaterTarget(s: Snap, orgs: set<int>, last: int)
    requires SnapOk(s, orgs, last)
    ensures SnapOk(s, orgs, |s.code|) && Kept(s, s)
  {
    forall i | 0 <= i < |s.code| ensures WellFormedAt(s.code, s.pend, s.k, |s.code|, i) {
      assert WellFormedAt(s.code, s.pend, s.k, last, i);
    }
  }

  lemma {:induction false} LoadsReady(s: Snap, e: ExpDesc, f: set<int>, t: set<int>, reg: int, link: int, cmp: Comparer,
      orgs: set<int>, last: int)
    requires SnapOk(s, orgs, last) && f <= s.pend && t <= s.pend && (e.kind == VJmp ==> s.jl == [])
    ensures var w := WithLoads(s, e.kind != VJmp, link, reg);
      && SnapOk(w, orgs, |w.code|) && Kept(s, w) && s.code <= w.code
      && LoadAt(w, f, reg, |w.code| - 2, false) && LoadAt(w, t, reg, |w.code| - 1, true)
      && forall st: Start :: Flow(w, cmp, orgs, st) == FalseIfLast(Flow(s, cmp, orgs, st), e, reg)
  {
    LoadsFlow(s, e.kind != VJmp, link, reg, cmp, orgs, last);
  }

  lemma {:induction false} FinishedLoads(s0: Snap, s: Snap, e: ExpDesc, ts: seq<int>, fs: seq<int>, x: Expr,
      cmp: Comparer, orgs: set<int>, last: int, base: int, reg: int, dst: int, link: int)
    requires Ready(s0, s, e, ts, fs, x, cmp, orgs, last, base, dst)
    requires 0 <= reg < MAXREGS && (reg >= base || dst == reg) && (e.kind == VNonReloc ==> e.info == reg)
    requires exists j :: j in ts + Own(e) || j in fs
    ensures var w := WithLoads(s, e.kind != VJmp, link, reg);
      var d := PatchBoth(w, Elems(fs), Elems(ts + Own(e)), reg, |w.code| - 2, |w.code| - 1);
      && SnapOk(d, orgs, |d.code|) && Linked(s0, d, Result(e, reg), [], [])
      && Holds(s0, d, Result(e, reg), [], [], x, cmp, orgs, base, dst)
  {
    var w := WithLoads(s, e.kind != VJmp, link, reg);
    var f, t := Elems(fs), Elems(ts + Own(e));
    ExitsPending(s0, s, e, ts, fs, orgs, last);
    hide Holds, WellFormed, LoadAt, LeavesVia, Kept, Owned, PatchBoth, Newer;
    LoadsReady(s, e, f, t, reg, link, cmp, orgs, last);
    ExpToReg(s0, s, w, e, ts, fs, f, t, x, cmp, orgs, base, reg, dst, last, |w.code| - 2, |w.code| - 1);
    LoadsLinked(s0, s, PatchBoth(w, f, t, reg, |w.code| - 2, |w.code| - 1), e, ts, fs, reg, link);
  }

  lemma {:induction false} ExitsPending(s0: Snap, s: Snap, e: ExpDesc, ts: seq<int>, fs: seq<int>, orgs: set<int>,
      last: int)
    requires SnapOk(s, orgs, last) && Owned(s0, s, ts, fs, Own(e))
    ensures Elems(fs) <= s.pend && Elems(ts + Own(e)) <= s.pend && forall j | j in s.pend :: j < |s.code|
  {
    assert forall j | j in ts + Own(e) :: j in ts || j in Own(e);
    assert forall j | j in fs :: j in s.pend;
    assert forall j | j in ts + Own(e) :: j in s.pend;
  }

  lemma {:induction false} LoadsLinked(s0: Snap, s: Snap, d: Snap, e: ExpDesc, ts: seq<int>, fs: seq<int>, reg: int,
      link: int)
    requires Kept(s0, s) && Owned(s0, s, ts, fs, Own(e)) && (forall j | j in s.pend :: j < |s.code|)
    requires Elems(fs) <= s.pend && Elems(ts + Own(e)) <= s.pend && exists j :: j in ts + Own(e) || j in fs
    requires var w := WithLoads(s, e.kind != VJmp, link, reg);
      && Kept(s, w) && KeptOn(w, d, Outer(w) - Elems(fs) - Elems(ts + Own(e)))
      && |d.code| == |w.code| && d.k == w.k && d.jl == w.jl && d.pend == w.pend - Elems(fs) - Elems(ts + Own(e))
    ensures Linked(s0, d, Result(e, reg), [], [])
  {
    hide Kept, Owned, KeptOn, Newer;
    var w, f, t := WithLoads(s, e.kind != VJmp, link, reg), Elems(fs), Elems(ts + Own(e));
    var extra := if e.kind != VJmp then [|s.code|] else [];
    assert w.jl == extra + s.jl && w.pend == s.pend + Elems(extra);
    var j :| j in ts + Own(e) || j in fs;
    assert j in f + t && j < |s.code|;
    FinishLinked(s0, s, w, d, e, Result(e, reg), ts, fs, f, t, extra);
  }

  /** Rewiring pending jumps does not change what a descriptor stands for. */
  lemma {:induction false} RelinkBody(s: Snap, s': Snap, e: ExpDesc, l: seq<int>, cmp: Comparer, orgs: set<int>,
      last: int)
    requires SnapOk(s, orgs, last) && ShapeOk(s, e, last)
    requires s' == s.(code := s'.code) && Relinked(s.code, s'.code, l) && forall j | j in l :: j in s.pend
    ensures SnapOk(s', orgs, last) && KeptOn(s, s', Outer(s) - Elems(l))
    ensures forall j: int :: HasValue(s'.code, j) == HasValue(s.code, j)
    ensures forall rs: Regs :: Denotes(s', e, rs) == Denotes(s, e, rs)
    ensures forall st: Start :: Flow(Body(s', e), cmp, orgs, st) == Flow(Body(s, e), cmp, orgs, st)
  {
    BodyOk(s, e, orgs, last);
    RelinkFlow(s, s', l, cmp, orgs, last);
    RelinkFlow(Body(s, e), Body(s', e), l, cmp, orgs, last);
  }

  lemma {:induction false} HoldsRelinked(s0: Snap, s: Snap, s': Snap, e: ExpDesc, ts: seq<int>, fs: seq<int>,
      l: seq<int>, x: Expr, cmp: Comparer, orgs: set<int>, last: int, base: int, dst: int)
    requires Holds(s0, s, e, ts, fs, x, cmp, orgs, base, dst)
    requires SnapOk(s, orgs, last) && ShapeOk(s, e, last)
    requires s' == s.(code := s'.code) && Relinked(s.code, s'.code, l) && forall j | j in l :: j in s.pend
    ensures SnapOk(s', orgs, last) && KeptOn(s, s', Outer(s) - Elems(l))
    ensures forall j: int :: HasValue(s'.code, j) == HasValue(s.code, j)
    ensures Holds(s0, s', e, ts, fs, x, cmp, orgs, base, dst)
  {
    RelinkBody(s, s', e, l, cmp, orgs, last);
    HoldsSame(s0, s, s', e, e, ts, fs, x, cmp, orgs, base, dst);
  }

  // ----- Finishing a condition -----

  /** Between the test and the gathering of its exits: `pl` is the new jump. */
  ghost predicate Staged(s0: Snap, s: Snap, same: seq<int>, other: seq<int>, pl: seq<int>, sense: bool, x: Expr,
      cmp: Comparer, orgs: set<int>, last: int, base: int)
  {
    && SnapOk(s, orgs, last) && Kept(s0, s) && Owned(s0, s, same, other, pl)
    && LeavesVia(s0, cmp, orgs, Outer(s0))
    && StageHolds(s0, s, same, other + pl, sense, x, cmp, orgs, base)
  }

  ghost predicate CondReady(s0: Snap, s: Snap, l: seq<int>, sense: bool, x: Expr, cmp: Comparer, orgs: set<int>,
      base: int)
  {
    && SnapOk(s, orgs, |s.code|) && Kept(s0, s) && Owned(s0, s, [], l, [])
    && LeavesVia(s0, cmp, orgs, Outer(s0))
    && CondHolds(s0, s, l, sense, x, cmp, orgs, base)
  }

  lemma {:induction false} CondNewer(s0: Snap, s: Snap, s2: Snap, same: seq<int>, other: seq<int>, pl: seq<int>)
    requires Owned(s0, s, same, other, pl) && s2.jl == s.jl + same && s2.pend == s.pend && |s2.code| == |s.code|
    requires (forall j | j in s.pend :: j < |s.code|) && (other + same != [] || Relinked(s.code, s2.code, s.jl))
    ensures Newer(s0, s2)
  {
    assert forall j | j in other + same :: j in other || j in same;
    assert forall j :: j in s2.jl <==> j in s.jl || j in same;
    if other + same != [] {
      var j := (other + same)[0];
      assert j in other + same && j in s.pend && |s0.code| <= j < |s.code|;
    }
  }

  lemma {:induction false} CondOwned(s0: Snap, s: Snap, s2: Snap, same: seq<int>, other: seq<int>, pl: seq<int>)
    requires Kept(s0, s) && Owned(s0, s, same, other, pl) && NoDup(s.jl)
    requires s2.jl == s.jl + same && s2.pend == s.pend && s2.k == s.k && (forall j | j in s.pend :: j < |s.code|)
    requires other + same != [] || Relinked(s.code, s2.code, s.jl)
    requires |s2.code| == |s.code| && KeptOn(s, s2, Outer(s) - Elems(other) - Elems(s.jl) - Elems(same))
    ensures Kept(s0, s2) && Owned(s0, s2, [], other + pl, []) && NoDup(s2.jl)
    ensures forall j | j in s2.jl :: j in s2.pend
  {
    CondNewer(s0, s, s2, same, other, pl);
    NoDupJoined(other, pl) by { assert forall j | j in other :: j !in pl; }
    NoDupJoined(s.jl, same) by { assert forall j | j in s.jl :: j !in same; }
    assert forall j | j in Outer(s0) :: j in Outer(s) - Elems(other) - Elems(s.jl) - Elems(same);
    assert forall j :: j in s.jl + same <==> j in s.jl || j in same;
    assert forall j :: j in other + pl <==> j in other || j in pl;
  }

  /** The new jump joins the exits of the other sense; those of the same sense
      come here. `s1` is the code after the first list operation. */
  lemma {:induction false} CondDone(s0: Snap, s: Snap, c1: seq<Instr>, s2: Snap, same: seq<int>, other: seq<int>,
      pl: seq<int>, sense: bool, x: Expr, cmp: Comparer, orgs: set<int>, last: int, base: int)
    requires Staged(s0, s, same, other, pl, sense, x, cmp, orgs, last, base)
    requires Relinked(s.code, c1, other) && Relinked(c1, s2.code, s.jl)
    requires s2 == s.(code := s2.code, jl := s.jl + same)
    ensures CondReady(s0, s2, other + pl, sense, x, cmp, orgs, base)
  {
    var s1 := s.(code := c1);
    var u := s2.(jl := s.jl);
    RelinkFlow(s, s1, other, cmp, orgs, last);
    RelinkFlow(s1, u, s.jl, cmp, orgs, last);
    assert SnapOk(u, orgs, last);
    if other + same == [] {
      assert Relinked(s.code, u.code, s.jl);
    }
    CondDoneRest(s0, s, u, s2, same, other, pl, sense, x, cmp, orgs, last, base);
  }

  lemma {:induction false} CondDoneRest(s0: Snap, s: Snap, u: Snap, s2: Snap, same: seq<int>, other: seq<int>,
      pl: seq<int>, sense: bool, x: Expr, cmp: Comparer, orgs: set<int>, last: int, base: int)
    requires Staged(s0, s, same, other, pl, sense, x, cmp, orgs, last, base)
    requires SnapOk(u, orgs, last) && s2 == u.(jl := s.jl + same) && u.jl == s.jl && u.pend == s.pend && u.k == s.k
        && |u.code| == |s.code|
    requires KeptOn(s, u, Outer(s) - Elems(other) - Elems(s.jl)) && (other + same != []
        || Relinked(s.code, u.code, s.jl))
    requires forall j: int :: HasValue(u.code, j) == HasValue(s.code, j)
    requires forall st: Start :: Flow(u, cmp, orgs, st) == Flow(s, cmp, orgs, st)
    ensures CondReady(s0, s2, other + pl, sense, x, cmp, orgs, base)
  {
    assert KeptOn(s, s2, Outer(s) - Elems(other) - Elems(s.jl) - Elems(same)) by {
      assert forall j :: j in s2.jl <==> j in s.jl || j in same;
    }
    CondOwned(s0, s, s2, same, other, pl);
    LaterTarget(u, orgs, last);
    assert Apart(other + pl, s.jl + same) by {
      assert forall j :: j in s.jl + same <==> j in s.jl || j in same;
      assert forall j :: j in other + pl <==> j in other || j in pl;
    }
    CondGathered(s0, s, s2, same, other + pl, sense, x, cmp, orgs, base);
  }

  lemma {:induction false} SameLinks(s0: Snap, s: Snap, e: ExpDesc, e': ExpDesc, ts: seq<int>, fs: seq<int>)
    requires Linked(s0, s, e, ts, fs) && Own(e') == Own(e) && e'.t == e.t && e'.f == e.f
    ensures Linked(s0, s, e', ts, fs)
  {
  }

  /** hasjumps is false only when both lists are empty. */
  lemma {:induction false} NoJumps(s0: Snap, s: Snap, e: ExpDesc, ts: seq<int>, fs: seq<int>)
    requires Linked(s0, s, e, ts, fs) && e.t == e.f
    ensures ts == [] && fs == [] && e.t == NO_JUMP
  {
    assert e.t in ts ==> e.t !in fs;
  }

  // ----- jumponcond, snapshot by snapshot -----

  /** A NOT just emitted is taken back and its operand tested instead. */
  lemma {:induction false} StagedNot(s0: Snap, s: Snap, e: ExpDesc, ts: seq<int>, fs: seq<int>, sense: bool, x: Expr,
      cmp: Comparer, orgs: set<int>, last: int, base: int)
    requires Holds(s0, s, e, ts, fs, x, cmp, orgs, base, -1) && LeavesVia(s0, cmp, orgs, Outer(s0))
    requires SnapOk(s, orgs, last) && ShapeOk(s, e, last) && e.kind == VReloc
    requires Kept(s0, s) && Owned(s0, s, ts, fs, [])
    ensures var t := Test(s.code[e.info].b, if sense then 1 else 0);
      var a := AppendCond(Body(s, e), t);
      Staged(s0, a, if sense then ts else fs, if sense then fs else ts, [e.info + 1], sense, x, cmp, orgs, last, base)
          && Kept(s, a)
  {
    var t := Test(s.code[e.info].b, if sense then 1 else 0);
    var b := Body(s, e);
    var a := AppendCond(b, t);
    BodyOk(s, e, orgs, last);
    assert SameStores(s, b, ts) && SameStores(s, b, fs);
    StageTest(s0, s, b, t, e, ts, fs, sense, x, cmp, orgs, base, last);
    assert Kept(s, a) by { hide Holds, StageHolds, WellFormed; }
    StagedOwned(s0, s, a, ts, fs, sense, e.info + 1);
  }

  lemma {:induction false} StagedOwned(s0: Snap, s: Snap, a: Snap, ts: seq<int>, fs: seq<int>, sense: bool, at: int)
    requires Kept(s0, s) && Owned(s0, s, ts, fs, []) && Kept(s, a)
    requires a.pend == Outer(s) + {at} && a.jl == [] && at !in s.pend && |s.code| <= at <= |a.code|
    ensures Kept(s0, a) && Owned(s0, a, if sense then ts else fs, if sense then fs else ts, [at])
    ensures SameStores(s, a, ts) && SameStores(s, a, fs)
  {
    assert forall j | j in ts || j in fs || j in Outer(s0) :: j in Outer(s);
  }

  /** The value is in a register: TESTSET it. */
  lemma {:induction false} StagedSet(s0: Snap, s: Snap, e: ExpDesc, ts: seq<int>, fs: seq<int>, sense: bool, x: Expr,
      cmp: Comparer, orgs: set<int>, last: int, base: int)
    requires Holds(s0, s, e, ts, fs, x, cmp, orgs, base, -1) && LeavesVia(s0, cmp, orgs, Outer(s0))
    requires SnapOk(s, orgs, last) && e.kind == VNonReloc
    requires Kept(s0, s) && Owned(s0, s, ts, fs, [])
    ensures var t := TestSet(NO_REG, e.info, if sense then 0 else 1);
      var a := AppendCond(Discharge(s), t);
      Staged(s0, a, if sense then ts else fs, if sense then fs else ts, [|s.code| + 1], sense, x, cmp, orgs, last, base)
          && Kept(s, a)
  {
    var t := TestSet(NO_REG, e.info, if sense then 0 else 1);
    var b := Discharge(s);
    var a := AppendCond(b, t);
    DischargeFlow(s, cmp, orgs, last);
    assert forall j | j in ts || j in fs :: j in Outer(s) && j < |s.code|;
    assert SameStores(s, b, ts) && SameStores(s, b, fs);
    StageTest(s0, s, b, t, e, ts, fs, sense, x, cmp, orgs, base, last);
    assert Kept(s, a) by { hide Holds, StageHolds, WellFormed; }
    assert |s.code| + 1 !in s.pend;
    StagedOwned(s0, s, a, ts, fs, sense, |s.code| + 1);
  }

  lemma {:induction false} StagedCompare(s0: Snap, s: Snap, e: ExpDesc, ts: seq<int>, fs: seq<int>, sense: bool,
      x: Expr, cmp: Comparer, orgs: set<int>, last: int, base: int)
    requires Holds(s0, s, e, ts, fs, x, cmp, orgs, base, -1) && LeavesVia(s0, cmp, orgs, Outer(s0))
    requires SnapOk(s, orgs, last) && ShapeOk(s, e, last) && e.kind == VJmp
    requires Kept(s0, s) && Owned(s0, s, ts, fs, [e.info])
    ensures var a := if sense then s.(code := Inverted(s.code)) else s;
      Staged(s0, a, if sense then ts else fs, if sense then fs else ts, [e.info], sense, x, cmp, orgs, last, base)
          && Kept(s, a)
  {
    var a := if sense then s.(code := Inverted(s.code)) else s;
    assert e.info in [e.info];
    StageCompare(s0, s, a, e, ts, fs, sense, x, cmp, orgs, base, last);
    assert Kept(s0, a) && Owned(s0, a, if sense then ts else fs, if sense then fs else ts, [e.info]) by {
      hide Holds, StageHolds, WellFormed, LeavesVia, Newer;
      assert Outer(a) == Outer(s);
    }
  }

  lemma {:induction false} StagedConstant(s0: Snap, s: Snap, e: ExpDesc, ts: seq<int>, fs: seq<int>, sense: bool,
      x: Expr, cmp: Comparer, orgs: set<int>, last: int, base: int)
    requires Holds(s0, s, e, ts, fs, x, cmp, orgs, base, -1) && LeavesVia(s0, cmp, orgs, Outer(s0))
    requires SnapOk(s, orgs, last) && e.kind != VJmp && e.kind != VReloc
    requires Kept(s0, s) && Owned(s0, s, ts, fs, [])
    requires forall rs: Regs :: Truthy(Denotes(s, e, rs)) == sense
    ensures Staged(s0, s, if sense then ts else fs, if sense then fs else ts, [], sense, x, cmp, orgs, last, base)
  {
    StageConstant(s0, s, e, ts, fs, sense, x, cmp, orgs, base);
    var other := if sense then fs else ts;
    assert other + [] == other;
  }

  // ----- codenot, snapshot by snapshot -----

  /** Half-way through codenot. */
  ghost predicate HalfDone(s0: Snap, s: Snap, e: ExpDesc, ts: seq<int>, fs: seq<int>, x: Expr, cmp: Comparer,
      orgs: set<int>, last: int, base: int)
  {
    && SnapOk(s, orgs, last) && ShapeOk(s, e, last) && Linked(s0, s, e, ts, fs)
    && LeavesVia(s0, cmp, orgs, Outer(s0))
    && HalfNot(s0, s, e, ts, fs, x, cmp, orgs, base)
  }

  lemma {:induction false} HalfConstant(s0: Snap, s: Snap, e: ExpDesc, e': ExpDesc, ts: seq<int>, fs: seq<int>, x: Expr,
      cmp: Comparer, orgs: set<int>, last: int, base: int)
    requires Holds(s0, s, e, ts, fs, x, cmp, orgs, base, -1) && LeavesVia(s0, cmp, orgs, Outer(s0))
    requires SnapOk(s, orgs, last) && Linked(s0, s, e, ts, fs)
    requires e.kind != VJmp && e.kind != VReloc && e' == e.(kind := e'.kind)
    requires (e'.kind == VTrue && e.kind in {VNil, VFalse}) ||
             (e'.kind == VFalse && forall rs: Regs :: Truthy(Denotes(s, e, rs)))
    ensures HalfDone(s0, s, e', ts, fs, x, cmp, orgs, last, base)
  {
    SameLinks(s0, s, e, e', ts, fs);
    HalfNotValue(s0, s, s, e, e', ts, fs, x, cmp, orgs, base);
  }

  lemma {:induction false} HalfCompare(s0: Snap, s: Snap, e: ExpDesc, ts: seq<int>, fs: seq<int>, x: Expr,
      cmp: Comparer, orgs: set<int>, last: int, base: int)
    requires Holds(s0, s, e, ts, fs, x, cmp, orgs, base, -1) && LeavesVia(s0, cmp, orgs, Outer(s0))
    requires SnapOk(s, orgs, last) && Linked(s0, s, e, ts, fs) && e.kind == VJmp && ShapeOk(s, e, last)
    ensures HalfDone(s0, s.(code := Inverted(s.code)), e, ts, fs, x, cmp, orgs, last, base)
  {
    var d := s.(code := Inverted(s.code));
    assert e.info in [e.info];
    HalfNotCompare(s0, s, e, ts, fs, x, cmp, orgs, base, last);
    InvertFlow(s, e, cmp, orgs, last);
    assert Linked(s0, d, e, ts, fs) by {
      hide Holds, HalfNot, WellFormed, LeavesVia, Newer;
      assert Outer(d) == Outer(s);
      ListKeptOn(s, d, Outer(s), e.t, ts);
      ListKeptOn(s, d, Outer(s), e.f, fs);
    }
  }

  lemma {:induction false} HalfValue(s0: Snap, s: Snap, e: ExpDesc, ts: seq<int>, fs: seq<int>, x: Expr, cmp: Comparer,
      orgs: set<int>, last: int, base: int)
    requires Holds(s0, s, e, ts, fs, x, cmp, orgs, base, -1) && LeavesVia(s0, cmp, orgs, Outer(s0))
    requires SnapOk(s, orgs, last) && Linked(s0, s, e, ts, fs) && e.kind == VNonReloc
    ensures HalfDone(s0, Append(Discharge(s), NotI(0, e.info), s.k), e.(kind := VReloc, info := |s.code|), ts, fs, x,
        cmp, orgs, last, base)
  {
    var i := NotI(0, e.info);
    var d := Append(Discharge(s), i, s.k);
    var e' := e.(kind := VReloc, info := |s.code|);
    DischargeFlow(s, cmp, orgs, last);
    AppendPlain(Discharge(s), i, s.k, cmp, orgs, last);
    LinkedMoved(s0, s, d, e, e', ts, fs);
    assert Body(d, e') == Discharge(s) by { assert Body(d, e').code == Discharge(s).code; }
    HalfNotValue(s0, s, d, e, e', ts, fs, x, cmp, orgs, base);
  }

  lemma {:induction false} DevaluedTwice(c: seq<Instr>, a: set<int>, b: set<int>)
    ensures Devalued(Devalued(c, a), b) == Devalued(c, a + b)
  {
  }

  lemma {:induction false} NotDone(s0: Snap, s: Snap, e: ExpDesc, ts: seq<int>, fs: seq<int>, x: Expr, cmp: Comparer,
      orgs: set<int>, last: int, base: int)
    requires HalfDone(s0, s, e, ts, fs, x, cmp, orgs, last, base)
    ensures var d := s.(code := Devalued(s.code, Elems(ts) + Elems(fs))); var e' := e.(t := e.f, f := e.t);
      && SnapOk(d, orgs, last) && ShapeOk(d, e', last) && Linked(s0, d, e', fs, ts)
      && Holds(s0, d, e', fs, ts, ENot(x), cmp, orgs, base, -1)
  {
    var l := Elems(ts) + Elems(fs);
    var d := s.(code := Devalued(s.code, l));
    var e' := e.(t := e.f, f := e.t);
    assert l <= Outer(s) && Outer(s0) !! l && (e.kind == VJmp ==> e.info !in l) by {
      hide WellFormed, HalfNot, IsList, LeavesVia, Newer;
      assert e.info in [e.info];
      assert forall j | j in l :: j in Outer(s) && j !in Outer(s0);
    }
    BodyOk(s, e, orgs, last);
    NotHolds(s0, s, e, ts, fs, l, x, cmp, orgs, base, last);
    DevalueFlow(s, l, cmp, orgs, last);
    HoldsSwapped(s0, d, e, e', fs, ts, ENot(x), cmp, orgs, base);
    NotLinked(s0, s, d, e, e', ts, fs, l);
  }

  lemma {:induction false} HoldsSwapped(s0: Snap, d: Snap, e: ExpDesc, e': ExpDesc, ts: seq<int>, fs: seq<int>, x: Expr,
      cmp: Comparer, orgs: set<int>, base: int)
    requires Holds(s0, d, e, ts, fs, x, cmp, orgs, base, -1) && e' == e.(t := e'.t, f := e'.f)
    ensures Holds(s0, d, e', ts, fs, x, cmp, orgs, base, -1)
  {
    HoldsSame(s0, d, d, e, e', ts, fs, x, cmp, orgs, base, -1);
  }

  lemma {:induction false} NotLinked(s0: Snap, s: Snap, d: Snap, e: ExpDesc, e': ExpDesc, ts: seq<int>, fs: seq<int>,
      l: set<int>)
    requires Linked(s0, s, e, ts, fs) && e' == e.(t := e.f, f := e.t)
    requires l == Elems(ts) + Elems(fs) && d == s.(code := Devalued(s.code, l)) && KeptOn(s, d, Outer(s) - l)
    requires Outer(s0) !! l
    ensures Linked(s0, d, e', fs, ts)
  {
    ListMembers(s.code, e.t, ts);
    ListMembers(s.code, e.f, fs);
    assert forall j | j in l && 0 <= j < |s.code| && s.code[j].Jmp? :: d.code[j] == s.code[j];
    ListKept(s.code, d.code, e.t, ts);
    ListKept(s.code, d.code, e.f, fs);
    assert forall j | j in Outer(s0) :: j in Outer(s) - l;
  }

  // ----- posfix, snapshot by snapshot -----

  /** `and` / `or` after both operands: the exits of the first join those of
      the second (`keep`, rewired into `c3`). */
  lemma {:induction false} LogicDone(s0: Snap, s1: Snap, s2: Snap, c3: seq<Instr>, l: seq<int>, e: ExpDesc, e': ExpDesc,
      ts: seq<int>, fs: seq<int>, sense: bool, a: Expr, b: Expr, cmp: Comparer, orgs: set<int>, last: int, base: int)
    requires CondReady(s0, s1, l, sense, a, cmp, orgs, base)
    requires Holds(s1, s2, e, ts, fs, b, cmp, orgs, base, -1) && LocalsBelow(b, base)
    requires SnapOk(s2, orgs, last) && ShapeOk(s2, e, last) && Linked(s1, s2, e, ts, fs)
    requires Relinked(s2.code, c3, if sense then fs else ts)
    requires e' == if sense then e.(f := e'.f) else e.(t := e'.t)
    requires IsList(c3, if sense then e'.f else e'.t, (if sense then fs else ts) + l)
    ensures var s3 := s2.(code := c3);
      var ts', fs' := if sense then ts else ts + l, if sense then fs + l else fs;
      && SnapOk(s3, orgs, last) && ShapeOk(s3, e', last) && Linked(s0, s3, e', ts', fs')
      && Holds(s0, s3, e', ts', fs', if sense then EAnd(a, b) else EOr(a, b), cmp, orgs, base, -1)
  {
    hide Holds, CondHolds, LeavesVia, Flow, Denotes, WellFormed, Owned, KeptOn, IsList;
    var s3 := s2.(code := c3);
    var keep := if sense then fs else ts;
    LogicFacts(s0, s1, s2, s3, l, e, e', ts, fs, keep);
    RelinkBody(s2, s3, e, keep, cmp, orgs, last);
    LogicMeaning(s0, s1, s2, s3, l, e, e', ts, fs, sense, a, b, cmp, orgs, base);
    LogicLinked(s0, s1, s2, s3, l, e, e', ts, fs, sense);
    LogicShape(s2, s3, e, e', keep, last);
  }

  lemma {:induction false} LogicFacts(s0: Snap, s1: Snap, s2: Snap, s3: Snap, l: seq<int>, e: ExpDesc, e': ExpDesc,
      ts: seq<int>, fs: seq<int>, keep: seq<int>)
    requires Owned(s0, s1, [], l, []) && Kept(s1, s2) && Owned(s1, s2, ts, fs, Own(e)) && (keep == ts || keep == fs)
    requires |s3.code| == |s2.code| && Relinked(s2.code, s3.code, keep)
    ensures (forall j | j in keep :: j in s2.pend) && SameStores(s1, s3, l) && (e.kind == VJmp ==> e.info !in keep)
  {
    hide Newer;
    assert forall j | j in l :: j in Outer(s1);
    StoresKept(s1, s2, Outer(s1), l);
    assert e.info in [e.info];
  }

  /** Rewiring exits does not touch the comparison or test at the end. */
  lemma {:induction false} LogicShape(s2: Snap, s3: Snap, e: ExpDesc, e': ExpDesc, keep: seq<int>, last: int)
    requires ShapeOk(s2, e, last) && s3 == s2.(code := s3.code) && Relinked(s2.code, s3.code, keep)
    requires (e.kind == VJmp ==> e.info !in keep) && e'.kind == e.kind && e'.info == e.info
    ensures ShapeOk(s3, e', last)
  {
  }

  lemma {:induction false} LogicMeaning(s0: Snap, s1: Snap, s2: Snap, s3: Snap, l: seq<int>, e: ExpDesc, e': ExpDesc,
      ts: seq<int>, fs: seq<int>, sense: bool, a: Expr, b: Expr, cmp: Comparer, orgs: set<int>, base: int)
    requires CondHolds(s0, s1, l, sense, a, cmp, orgs, base) && SameStores(s1, s3, l)
    requires Holds(s1, s2, e, ts, fs, b, cmp, orgs, base, -1) && LocalsBelow(b, base)
    requires e'.kind == e.kind && e'.info == e.info && e'.nval == e.nval
    requires forall j: int :: HasValue(s3.code, j) == HasValue(s2.code, j)
    requires forall rs: Regs :: Denotes(s3, e, rs) == Denotes(s2, e, rs)
    requires forall st: Start :: Flow(Body(s3, e), cmp, orgs, st) == Flow(Body(s2, e), cmp, orgs, st)
    ensures Holds(s0, s3, e', if sense then ts else ts + l, if sense then fs + l else fs,
                  if sense then EAnd(a, b) else EOr(a, b), cmp, orgs, base, -1)
  {
    assert Body(s3, e') == Body(s3, e);
    forall rs: Regs ensures Denotes(s3, e', rs) == Denotes(s2, e, rs) {
      assert Denotes(s3, e', rs) == Denotes(s3, e, rs);
    }
    hide Holds, CondHolds, Flow, Newer;
    LogicHolds(s0, s1, s2, s3, l, e, e', ts, fs, sense, a, b, cmp, orgs, base);
  }

  lemma {:induction false} LogicLinked(s0: Snap, s1: Snap, s2: Snap, s3: Snap, l: seq<int>, e: ExpDesc, e': ExpDesc,
      ts: seq<int>, fs: seq<int>, sense: bool)
    requires Kept(s0, s1) && Owned(s0, s1, [], l, []) && Linked(s1, s2, e, ts, fs)
    requires s3 == s2.(code := s3.code) && Relinked(s2.code, s3.code, if sense then fs else ts)
    requires KeptOn(s2, s3, Outer(s2) - Elems(if sense then fs else ts))
    requires e' == if sense then e.(f := e'.f) else e.(t := e'.t)
    requires IsList(s3.code, if sense then e'.f else e'.t, (if sense then fs else ts) + l)
    ensures Linked(s0, s3, e', if sense then ts else ts + l, if sense then fs + l else fs)
  {
    ListMembers(s2.code, e.t, ts);
    ListMembers(s2.code, e.f, fs);
    LogicOwned(s0, s1, s2, s3, l, e, ts, fs, sense);
    hide Owned, Newer;
    if sense {
      ListKept(s2.code, s3.code, e.t, ts);
    } else {
      ListKept(s2.code, s3.code, e.f, fs);
    }
  }

  lemma {:induction false} NewerLogic(s0: Snap, s1: Snap, s2: Snap, s3: Snap, keep: seq<int>)
    requires Newer(s0, s1) && Newer(s1, s2) && s3 == s2.(code := s3.code) && Relinked(s2.code, s3.code, keep)
    requires forall j | j in keep :: |s1.code| <= j < |s2.code|
    ensures Newer(s0, s3)
  {
    if keep == [] {
      assert s3.code == s2.code;
    } else {
      assert keep[0] in keep;
    }
  }

  lemma {:induction false} LogicOwned(s0: Snap, s1: Snap, s2: Snap, s3: Snap, l: seq<int>, e: ExpDesc, ts: seq<int>,
      fs: seq<int>, sense: bool)
    requires Kept(s0, s1) && Owned(s0, s1, [], l, []) && Kept(s1, s2) && Owned(s1, s2, ts, fs, Own(e))
    requires s3.jl == s2.jl && s3.pend == s2.pend && s3.k == s2.k && |s3.code| == |s2.code|
    requires KeptOn(s2, s3, Outer(s2) - Elems(if sense then fs else ts))
    requires Relinked(s2.code, s3.code, if sense then fs else ts) && forall j | j in ts || j in fs :: j < |s2.code|
    ensures Kept(s0, s3) && Owned(s0, s3, if sense then ts else ts + l, if sense then fs + l else fs, Own(e))
    ensures Apart(ts, fs)
  {
    var keep := if sense then fs else ts;
    NewerLogic(s0, s1, s2, s3, keep);
    assert forall j | j in l :: j in Outer(s1);
    assert forall j :: j in keep + l <==> j in keep || j in l;
    NoDupJoined(keep, l) by { assert forall j | j in keep :: j !in l; }
    assert Kept(s0, s3) by {
      hide Owned, Newer;
      assert forall j | j in Outer(s0) :: j in Outer(s1) && j in Outer(s2) && j !in keep;
    }
  }

  lemma {:induction false} CompareLinked(s0: Snap, s1: Snap, s2: Snap, s3: Snap, e1: ExpDesc, e2: ExpDesc, e: ExpDesc)
    requires Linked(s0, s1, e1, [], []) && Linked(s1, s2, e2, [], []) && e1.kind != VJmp && e2.kind != VJmp
    requires Kept(s2, s3) && s3.jl == [] && s3.pend == Outer(s2) + {e.info} && e.info !in s2.pend
    requires e.kind == VJmp && e.t == NO_JUMP && e.f == NO_JUMP && |s2.code| <= e.info <= |s3.code|
    ensures Linked(s0, s3, e, [], []) && s1.k <= s2.k
  {
    assert Own(e1) == [] && Own(e2) == [];
    assert forall j :: j in Outer(s1) <==> j in Outer(s0);
    assert forall j :: j in Outer(s2) <==> j in Outer(s1);
    assert forall j :: j in [e.info] <==> j == e.info;
  }

  // ----- Constants and locals -----

  lemma {:induction false} SimpleHolds(s: Snap, s': Snap, e: ExpDesc, x: Expr, cmp: Comparer, orgs: set<int>, base: int)
    requires s' == s.(k := s'.k) && e.kind != VJmp && e.kind != VReloc
    requires forall st: Start :: Flow(s', cmp, orgs, st) == Flow(s, cmp, orgs, st)
    requires forall rs: Regs :: Denotes(s', e, rs) == Eval(x, cmp, rs)
    ensures Holds(s, s', e, [], [], x, cmp, orgs, base, -1)
  {
    assert Body(s', e) == s';
  }
}
