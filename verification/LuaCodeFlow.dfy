/** How each elementary change to unfinished code changes its flow. */
module LuaCodeFlow {
  import opened Common
  import opened LuaVm
  import opened LuaPatch
  import opened LuaCodeSpec

  // ----- Giving exits their targets -----

  /** The registers after a patched exit: a stored value goes to `reg`. */
  function Delivered(code: seq<Instr>, o: Outcome, reg: int): Regs
    requires o.Jump?
  {
    if o.stored.Stored? && HasValue(code, o.at) && reg != NO_REG && reg != code[o.at - 1].b
    then Put(o.rs, reg, o.stored.value) else o.rs
  }

  function PatchSnap(s: Snap, l: set<int>, vtarget: int, reg: int, dtarget: int): Snap {
    s.(code := Patched(s.code, l, vtarget, reg, dtarget), pend := s.pend - l)
  }

  lemma {:induction false} PatchStatic(s: Snap, l: set<int>, vtarget: int, reg: int, dtarget: int, orgs: set<int>,
      last: int)
    requires SnapOk(s, orgs, last) && l <= s.pend && (forall j | j in l :: j !in s.jl)
    requires forall j | j in l :: 0 <= Target(s.code, j, vtarget, dtarget) <= last
    ensures var d := PatchSnap(s, l, vtarget, reg, dtarget);
      && SnapOk(d, orgs, last) && KeptOn(s, d, Outer(s) - l)
      && Extends(s.code, s.pend, s.k, d.code, d.pend, d.k)
  {
    var d := PatchSnap(s, l, vtarget, reg, dtarget);
    forall i | 0 <= i < |s.code|
      ensures MayBecome(s.code[i], d.code[i], i in s.pend, i + 1 in s.pend)
      ensures WellFormedAt(d.code, d.pend, d.k, last, i)
    {
      assert WellFormedAt(s.code, s.pend, s.k, last, i);
    }
  }

  /** A patched exit goes to its target with its value delivered. */
  lemma {:induction false} PatchedExit(s: Snap, l: set<int>, vtarget: int, reg: int, dtarget: int, o: Outcome)
    requires o.Jump? && Genuine(o, s.code, s.pend) && s.code[o.at].Jmp?
    ensures var d := PatchSnap(s, l, vtarget, reg, dtarget);
      ResumeStep(o, d.code, d.pend) ==
        if o.at in l then Land(o.at, Target(s.code, o.at, vtarget, dtarget), Delivered(s.code, o, reg)) else Leave(o)
  {
  }

  /** A run that leaves through the exits in `l` goes on at their targets. */
  function Patching(s: Snap, l: set<int>, vtarget: int, reg: int, dtarget: int, cmp: Comparer, o: Outcome): Outcome {
    if !o.Jump? || o.at !in l then o
    else
      var d := PatchSnap(s, l, vtarget, reg, dtarget);
      match Land(o.at, Target(s.code, o.at, vtarget, dtarget), Delivered(s.code, o, reg))
      case Leave(o') => o'
      case Next(pc, rs) => Run(d.code, d.pend, d.k, cmp, pc, rs)
  }

  lemma {:induction false} PatchedFlow(s: Snap, l: set<int>, vtarget: int, reg: int, dtarget: int, cmp: Comparer,
      orgs: set<int>, last: int)
    requires SnapOk(s, orgs, last) && l <= s.pend && (forall j | j in l :: j !in s.jl)
    requires forall j | j in l :: 0 <= Target(s.code, j, vtarget, dtarget) <= last
    ensures var d := PatchSnap(s, l, vtarget, reg, dtarget);
      && SnapOk(d, orgs, last) && KeptOn(s, d, Outer(s) - l)
      && forall st: Start :: Raw(d, cmp, orgs, st) == Patching(s, l, vtarget, reg, dtarget, cmp, Raw(s, cmp, orgs, st))
  {
    var d := PatchSnap(s, l, vtarget, reg, dtarget);
    PatchStatic(s, l, vtarget, reg, dtarget, orgs, last);
    forall st: Start
      ensures Raw(d, cmp, orgs, st) == Patching(s, l, vtarget, reg, dtarget, cmp, Raw(s, cmp, orgs, st))
    {
      RunExtended(s.code, s.pend, s.k, d.code, d.pend, d.k, cmp, orgs, last, From(orgs, st), st.rs);
      var o := Raw(s, cmp, orgs, st);
      if o.Jump? {
        PatchedExit(s, l, vtarget, reg, dtarget, o);
      }
    }
  }

  /** Targets further on. */
  lemma {:induction false} PatchFlow(s: Snap, l: set<int>, vtarget: int, reg: int, dtarget: int, cmp: Comparer,
      orgs: set<int>, last: int)
    requires SnapOk(s, orgs, last) && l <= s.pend && (forall j | j in l :: j !in s.jl)
    requires forall j | j in l :: j < Target(s.code, j, vtarget, dtarget) <= last
    ensures var d := PatchSnap(s, l, vtarget, reg, dtarget);
      && SnapOk(d, orgs, last) && KeptOn(s, d, Outer(s) - l)
      && forall st: Start :: Flow(d, cmp, orgs, st) ==
           var o := Flow(s, cmp, orgs, st);
           if o.Jump? && o.at in l then
             Settled(Run(d.code, d.pend, d.k, cmp, Target(s.code, o.at, vtarget, dtarget), Delivered(s.code, o, reg)),
                 d.jl)
           else o
  {
    PatchedFlow(s, l, vtarget, reg, dtarget, cmp, orgs, last);
    var d := PatchSnap(s, l, vtarget, reg, dtarget);
    hide Target, Delivered, Run, SnapOk, KeptOn;
    forall st: Start ensures Flow(d, cmp, orgs, st) ==
      var o := Flow(s, cmp, orgs, st);
      if o.Jump? && o.at in l then
        Settled(Run(d.code, d.pend, d.k, cmp, Target(s.code, o.at, vtarget, dtarget), Delivered(s.code, o, reg)), d.jl)
      else o
    {
      assert Raw(d, cmp, orgs, st) == Patching(s, l, vtarget, reg, dtarget, cmp, Raw(s, cmp, orgs, st));
    }
  }

  /** A run that comes to a jump in `l` goes on at `init`; going back takes a turn. */
  function Looping(d: Snap, l: set<int>, init: int, cmp: Comparer, orgs: set<int>, o: Outcome): Outcome {
    if !o.Jump? || o.at !in l then o
    else if o.at < init then Raw(d, cmp, orgs, Start(init, o.rs))
    else if o.rs.turns == 0 then Spent
    else Raw(d, cmp, orgs, Start(init, o.rs.(turns := o.rs.turns - 1)))
  }

  /** luaK_patchlist to a label. */
  lemma {:induction false} BackFlow(s: Snap, l: set<int>, init: int, cmp: Comparer, orgs: set<int>, last: int)
    requires SnapOk(s, orgs, last) && l <= s.pend && (forall j | j in l :: j !in s.jl) && init in orgs
    ensures var d := PatchSnap(s, l, init, NO_REG, init);
      && SnapOk(d, orgs, last) && KeptOn(s, d, Outer(s) - l)
      && forall st: Start :: Raw(d, cmp, orgs, st) == Looping(d, l, init, cmp, orgs, Raw(s, cmp, orgs, st))
  {
    PatchedFlow(s, l, init, NO_REG, init, cmp, orgs, last);
  }

  // ----- New instructions -----

  /** dischargejpc: the jumps in jpc go to the current end, keeping no value. */
  function Discharge(s: Snap): Snap {
    PatchSnap(s, Elems(s.jl), |s.code|, NO_REG, |s.code|).(jl := [])
  }

  lemma {:induction false} DischargeNone(s: Snap)
    requires s.jl == []
    ensures Discharge(s) == s
  {
    assert Discharge(s).code == s.code;
    assert Discharge(s).pend == s.pend;
  }

  lemma {:induction false} DischargeFlow(s: Snap, cmp: Comparer, orgs: set<int>, last: int)
    requires SnapOk(s, orgs, last)
    ensures SnapOk(Discharge(s), orgs, last) && Kept(s, Discharge(s))
    ensures forall st: Start :: Flow(Discharge(s), cmp, orgs, st) == Flow(s, cmp, orgs, st)
  {
    if s.jl == [] {
      DischargeNone(s);
    } else {
      var u := s.(jl := []);
      assert forall j | j in Elems(s.jl) :: j in s.pend;
      PatchFlow(u, Elems(s.jl), |s.code|, NO_REG, |s.code|, cmp, orgs, last);
    }
  }

  function Append(s: Snap, i: Instr, k': seq<Value>): Snap {
    Snap(s.code + [i], s.pend, s.jl, k')
  }

  /** What an instruction that neither tests nor jumps adds to the flow. */
  function Then(o: Outcome, i: Instr, k: seq<Value>): Outcome {
    if o.Fall? then Fall(Simple(i, k, o.rs)) else o
  }

  lemma {:induction false} AppendPlain(s: Snap, i: Instr, k': seq<Value>, cmp: Comparer, orgs: set<int>, last: int)
    requires SnapOk(s, orgs, last) && s.jl == [] && s.k <= k'
    requires !TMode(i) && !i.Jmp? && (i.LoadBool? ==> i.c == 0) && OperandsOk(i, |k'|)
    ensures SnapOk(Append(s, i, k'), orgs, last) && Kept(s, Append(s, i, k'))
    ensures forall st: Start :: Flow(Append(s, i, k'), cmp, orgs, st) == Then(Flow(s, cmp, orgs, st), i, k')
  {
    var a := Append(s, i, k');
    forall x | 0 <= x < |s.code| ensures WellFormedAt(a.code, a.pend, a.k, last, x) {
      assert WellFormedAt(s.code, s.pend, s.k, last, x);
    }
    forall st: Start ensures Flow(a, cmp, orgs, st) == Then(Flow(s, cmp, orgs, st), i, k') {
      RunExtended(s.code, s.pend, s.k, a.code, a.pend, a.k, cmp, orgs, last, From(orgs, st), st.rs);
      var o := Run(s.code, s.pend, s.k, cmp, From(orgs, st), st.rs);
      if o.Fall? {
        assert a.code[|s.code|] == i;
        assert Run(a.code, a.pend, a.k, cmp, |s.code| + 1, Simple(i, k', o.rs)) == Fall(Simple(i, k', o.rs));
      }
    }
  }

  /** A test followed by a new pending jump. */
  function AppendCond(s: Snap, t: Instr): Snap {
    Snap(s.code + [t, Jmp(0, NO_JUMP)], s.pend + {|s.code| + 1}, s.jl, s.k)
  }

  function Branch(o: Outcome, t: Instr, at: int, k: seq<Value>, cmp: Comparer): Outcome
    requires TMode(t)
  {
    if o.Fall? && Passes(t, k, cmp, o.rs) then Jump(at, o.rs, if t.TestSet? then Stored(Get(o.rs, t.b)) else NotStored)
    else o
  }

  lemma {:induction false} AppendCondOk(s: Snap, t: Instr, orgs: set<int>, last: int)
    requires SnapOk(s, orgs, last) && s.jl == [] && TMode(t) && OperandsOk(t, |s.k|)
    ensures var a := AppendCond(s, t);
      SnapOk(a, orgs, last) && Kept(s, a) && Extends(s.code, s.pend, s.k, a.code, a.pend, a.k)
  {
    var a := AppendCond(s, t);
    forall x | 0 <= x < |a.code| ensures WellFormedAt(a.code, a.pend, a.k, last, x) {
      if x < |s.code| { assert WellFormedAt(s.code, s.pend, s.k, last, x); }
    }
  }

  lemma {:induction false} AppendCondAt(s: Snap, t: Instr, cmp: Comparer, orgs: set<int>, last: int, st: Start)
    requires SnapOk(s, orgs, last) && s.jl == [] && TMode(t)
    requires var a := AppendCond(s, t); Extends(s.code, s.pend, s.k, a.code, a.pend, a.k)
    ensures Flow(AppendCond(s, t), cmp, orgs, st) == Branch(Flow(s, cmp, orgs, st), t, |s.code| + 1, s.k, cmp)
  {
    var a, n := AppendCond(s, t), |s.code|;
    RunExtended(s.code, s.pend, s.k, a.code, a.pend, a.k, cmp, orgs, last, From(orgs, st), st.rs);
    var o := Raw(s, cmp, orgs, st);
    if o.Fall? {
      assert a.code[n] == t && a.code[n + 1] == Jmp(0, NO_JUMP);
      assert Run(a.code, a.pend, a.k, cmp, n + 2, o.rs) == Fall(o.rs);
      assert Run(a.code, a.pend, a.k, cmp, n, o.rs) == Branch(o, t, n + 1, s.k, cmp);
    } else if o.Jump? {
      assert o.at < n && a.code[o.at] == s.code[o.at];
    }
  }

  lemma {:induction false} AppendCondFlow(s: Snap, t: Instr, cmp: Comparer, orgs: set<int>, last: int)
    requires SnapOk(s, orgs, last) && s.jl == []
    requires TMode(t) && OperandsOk(t, |s.k|)
    ensures SnapOk(AppendCond(s, t), orgs, last) && Kept(s, AppendCond(s, t))
    ensures forall st: Start :: Flow(AppendCond(s, t), cmp, orgs, st) == Branch(Flow(s, cmp, orgs, st), t, |s.code| + 1,
        s.k, cmp)
  {
    hide SnapOk, KeptOn, Flow, Branch, Extends;
    AppendCondOk(s, t, orgs, last);
    forall st: Start
      ensures Flow(AppendCond(s, t), cmp, orgs, st) == Branch(Flow(s, cmp, orgs, st), t, |s.code| + 1, s.k, cmp)
    {
      AppendCondAt(s, t, cmp, orgs, last, st);
    }
  }

  // ----- Changes that do not move the end of the code -----

  /** removevalues: the exits in `l` no longer carry a value. */
  lemma {:induction false} DevalueFlow(s: Snap, l: set<int>, cmp: Comparer, orgs: set<int>, last: int)
    requires SnapOk(s, orgs, last) && l <= Outer(s)
    ensures var d := s.(code := Devalued(s.code, l));
      && SnapOk(d, orgs, last) && KeptOn(s, d, Outer(s) - l)
      && (forall j | j in l :: d.code[j] == s.code[j] && !HasValue(d.code, j))
      && forall st: Start :: Flow(d, cmp, orgs, st) ==
           var o := Flow(s, cmp, orgs, st);
           if o.Jump? && o.at in l then Jump(o.at, o.rs, NotStored) else o
  {
    var d := s.(code := Devalued(s.code, l));
    DevaluedOk(s, l, orgs, last);
    forall st: Start ensures Flow(d, cmp, orgs, st) ==
      var o := Flow(s, cmp, orgs, st);
      if o.Jump? && o.at in l then Jump(o.at, o.rs, NotStored) else o
    {
      RunExtended(s.code, s.pend, s.k, d.code, d.pend, d.k, cmp, orgs, last, From(orgs, st), st.rs);
    }
  }

  lemma {:induction false} DevaluedOk(s: Snap, l: set<int>, orgs: set<int>, last: int)
    requires SnapOk(s, orgs, last) && l <= Outer(s)
    ensures var d := s.(code := Devalued(s.code, l));
      && SnapOk(d, orgs, last) && KeptOn(s, d, Outer(s) - l) && Extends(s.code, s.pend, s.k, d.code, d.pend, d.k)
      && (forall j | j in l :: d.code[j] == s.code[j] && !HasValue(d.code, j))
  {
    var d := s.(code := Devalued(s.code, l));
    forall i | 0 <= i < |s.code|
      ensures MayBecome(s.code[i], d.code[i], i in s.pend, i + 1 in s.pend)
      ensures WellFormedAt(d.code, d.pend, d.k, last, i)
    {
      assert WellFormedAt(s.code, s.pend, s.k, last, i);
    }
  }

  lemma {:induction false} RelinkFlow(s: Snap, s': Snap, l: seq<int>, cmp: Comparer, orgs: set<int>, last: int)
    requires SnapOk(s, orgs, last) && s' == s.(code := s'.code) && Relinked(s.code, s'.code, l)
    requires forall j | j in l :: j in s.pend
    ensures SnapOk(s', orgs, last) && KeptOn(s, s', Outer(s) - Elems(l))
    ensures forall j: int :: HasValue(s'.code, j) == HasValue(s.code, j)
    ensures forall st: Start ::
        Raw(s', cmp, orgs, st) == Raw(s, cmp, orgs, st) && Flow(s', cmp, orgs, st) == Flow(s, cmp, orgs, st)
  {
    forall i | 0 <= i < |s.code|
      ensures MayBecome(s.code[i], s'.code[i], i in s.pend, i + 1 in s.pend)
      ensures WellFormedAt(s'.code, s'.pend, s'.k, last, i)
    {
      assert WellFormedAt(s.code, s.pend, s.k, last, i);
      if TMode(s.code[i]) { assert s'.code[i + 1].Jmp?; }
    }
    forall st: Start ensures Raw(s', cmp, orgs, st) == Raw(s, cmp, orgs, st) {
      RunExtended(s.code, s.pend, s.k, s'.code, s'.pend, s'.k, cmp, orgs, last, From(orgs, st), st.rs);
    }
  }

  /** invertjump: the comparison before the last jump accepts the other result. */
  function Inverted(code: seq<Instr>): seq<Instr>
    requires |code| >= 2 && code[|code| - 2].Cmp?
  {
    var i := code[|code| - 2];
    code[|code| - 2 := Cmp(i.op, if i.a == 0 then 1 else 0, i.b, i.c)]
  }

  /** The code before the comparison. */
  function BeforeCompare(s: Snap): Snap
    requires |s.code| >= 2
  {
    Snap(s.code[..|s.code| - 2], s.pend - {|s.code| - 1}, [], s.k)
  }

  lemma {:induction false} CompareIsLast(s: Snap, e: ExpDesc, orgs: set<int>, last: int)
    requires SnapOk(s, orgs, last) && e.kind == VJmp && ShapeOk(s, e, last) && e.info in s.pend
    ensures var n := |s.code| - 2; var s0 := BeforeCompare(s);
      && s.code[n].Cmp? && OperandsOk(s.code[n], |s.k|) && SnapOk(s0, orgs, last) && e.info == n + 1
          && e.info !in s0.pend && s.jl == []
      && AppendCond(s0, s.code[n]) == s && AppendCond(s0, Inverted(s.code)[n]) == s.(code := Inverted(s.code))
  {
    var n, s0 := |s.code| - 2, BeforeCompare(s);
    forall x | 0 <= x < n ensures WellFormedAt(s0.code, s0.pend, s0.k, last, x) {
      assert WellFormedAt(s.code, s.pend, s.k, last, x);
    }
    forall j | j in s0.pend ensures 0 <= j < n && s0.code[j].Jmp? {
      assert j != n;
    }
    assert WellFormedAt(s.code, s.pend, s.k, last, n);
  }

  lemma {:induction false} InvertFlow(s: Snap, e: ExpDesc, cmp: Comparer, orgs: set<int>, last: int)
    requires SnapOk(s, orgs, last) && e.kind == VJmp && ShapeOk(s, e, last) && e.info in s.pend
    ensures var d := s.(code := Inverted(s.code));
      && SnapOk(d, orgs, last) && Kept(s, d) && ShapeOk(d, e, last)
      && (forall j: int :: HasValue(d.code, j) == HasValue(s.code, j))
      && forall st: Start :: Flow(d, cmp, orgs, st) ==
           match Flow(s, cmp, orgs, st)
           case Fall(rs) => Jump(e.info, rs, NotStored)
           case Jump(j, rs, v) => if j == e.info then Fall(rs) else Jump(j, rs, v)
           case Spent => Spent
           case Stuck => Stuck
  {
    CompareIsLast(s, e, orgs, last);
    var s0, n := BeforeCompare(s), |s.code| - 2;
    hide WellFormed, Flow, BeforeCompare, AppendCond;
    AppendCondFlow(s0, s.code[n], cmp, orgs, last);
    AppendCondFlow(s0, Inverted(s.code)[n], cmp, orgs, last);
    forall st: Start ensures Flow(s0, cmp, orgs, st).Jump? ==> Flow(s0, cmp, orgs, st).at in s0.pend {
      FlowPending(s0, cmp, orgs, last, st);
    }
  }

  lemma {:induction false} FlowPending(s: Snap, cmp: Comparer, orgs: set<int>, last: int, st: Start)
    requires SnapOk(s, orgs, last)
    ensures Flow(s, cmp, orgs, st).Jump? ==> Flow(s, cmp, orgs, st).at in s.pend
  {
    RunExtended(s.code, s.pend, s.k, s.code, s.pend, s.k, cmp, orgs, last, From(orgs, st), st.rs);
  }

  // ----- Putting a value into a register -----

  /** Control that falls out has put `v` into `reg`; nothing else changes. */
  ghost predicate Stores(o: Outcome, o': Outcome, reg: int, v: Value) {
    match o
    case Fall(rs) =>
      && o'.Fall? && |o'.rs.vals| == |rs.vals| && o'.rs.turns == rs.turns
      && (0 <= reg < |rs.vals| ==> Get(o'.rs, reg) == v)
      && forall r: int | r != reg :: Get(o'.rs, r) == Get(rs, r)
    case _ => o' == o
  }

  /** luaK_nil joins the new range with that of a LOADNIL just before. */
  lemma {:induction false} NilFlow(s: Snap, from: int, len: int, reg: int, cmp: Comparer, orgs: set<int>, last: int)
    requires SnapOk(s, orgs, last) && s.jl == [] && last < |s.code|
    requires s.code[|s.code| - 1].LoadNil?
    requires var i := s.code[|s.code| - 1];
             (from == i.a && len == i.b && i.a <= reg <= i.a + i.b) ||
             (from == reg && from + len == i.a + i.b && reg == i.a - 1) ||
             (from == i.a && from + len == reg && reg == i.a + i.b + 1)
    ensures var d := s.(code := s.code[|s.code| - 1 := LoadNil(from, len)]);
      && SnapOk(d, orgs, last) && Kept(s, d)
      && forall st: Start :: Stores(Flow(s, cmp, orgs, st), Flow(d, cmp, orgs, st), reg, Nil)
  {
    var n := |s.code| - 1;
    var i := s.code[n];
    var d := s.(code := s.code[n := LoadNil(from, len)]);
    var s0 := s.(code := s.code[..n]);
    assert WellFormedAt(s.code, s.pend, s.k, last, n);
    forall x | 0 <= x < n ensures WellFormedAt(s0.code, s0.pend, s0.k, last, x) {
      assert WellFormedAt(s.code, s.pend, s.k, last, x);
    }
    assert SnapOk(s0, orgs, last);
    assert Append(s0, i, s.k) == s;
    assert Append(s0, LoadNil(from, len), s.k) == d;
    AppendPlain(s0, i, s.k, cmp, orgs, last);
    AppendPlain(s0, LoadNil(from, len), s.k, cmp, orgs, last);
    forall st: Start ensures Stores(Flow(s, cmp, orgs, st), Flow(d, cmp, orgs, st), reg, Nil) {
      var o := Flow(s0, cmp, orgs, st);
      if o.Fall? {
        PutNilsAt(o.rs, from, len, 0);
        PutNilsAt(o.rs, i.a, i.b, 0);
        forall r: int
          ensures Get(PutNils(o.rs, from, len), r) == if r == reg then Nil else Get(PutNils(o.rs, i.a, i.b), r)
        {
          PutNilsAt(o.rs, from, len, r);
          PutNilsAt(o.rs, i.a, i.b, r);
        }
      }
    }
  }

  // ----- The two LOADBOOLs at the end of a boolean expression -----

  /** exp2reg when some exit carries no value: `viaJump` for an expression
      that already ends in a value, whose flow must skip the two loads. */
  function WithLoads(s: Snap, viaJump: bool, link: int, reg: int): Snap {
    var n := |s.code|;
    if viaJump then
      Snap(s.code + [Jmp(0, link), LoadBool(reg, 0, 1), LoadBool(reg, 1, 0)], s.pend + {n}, [n] + s.jl, s.k)
    else
      Snap(s.code + [LoadBool(reg, 0, 1), LoadBool(reg, 1, 0)], s.pend, s.jl, s.k)
  }

  lemma {:induction false} LoadsOk(s: Snap, viaJump: bool, link: int, reg: int, orgs: set<int>, last: int)
    requires SnapOk(s, orgs, last) && (!viaJump ==> s.jl == [])
    ensures var w := WithLoads(s, viaJump, link, reg);
      SnapOk(w, orgs, |w.code|) && Kept(s, w) && Extends(s.code, s.pend, s.k, w.code, w.pend, w.k)
  {
    var w := WithLoads(s, viaJump, link, reg);
    forall i | 0 <= i < |w.code| ensures WellFormedAt(w.code, w.pend, w.k, |w.code|, i) {
      if i < |s.code| { assert WellFormedAt(s.code, s.pend, s.k, last, i); }
    }
  }

  function Loaded(o: Outcome, viaJump: bool, reg: int): Outcome {
    if o.Fall? && !viaJump then Fall(Put(o.rs, reg, Bool(false))) else o
  }

  lemma {:induction false} LoadsAt(s: Snap, viaJump: bool, link: int, reg: int, cmp: Comparer, orgs: set<int>,
      last: int, st: Start)
    requires SnapOk(s, orgs, last) && (!viaJump ==> s.jl == [])
    requires var w := WithLoads(s, viaJump, link, reg); Extends(s.code, s.pend, s.k, w.code, w.pend, w.k)
    ensures Flow(WithLoads(s, viaJump, link, reg), cmp, orgs, st) == Loaded(Flow(s, cmp, orgs, st), viaJump, reg)
  {
    var w, n := WithLoads(s, viaJump, link, reg), |s.code|;
    RunExtended(s.code, s.pend, s.k, w.code, w.pend, w.k, cmp, orgs, last, From(orgs, st), st.rs);
    var o := Raw(s, cmp, orgs, st);
    if o.Fall? {
      if viaJump {
        assert w.code[n] == Jmp(0, link);
        assert Run(w.code, w.pend, w.k, cmp, n, o.rs) == Jump(n, o.rs, NotStored);
        assert n in w.jl;
      } else {
        assert w.code[n] == LoadBool(reg, 0, 1);
        assert Run(w.code, w.pend, w.k, cmp, n + 2, Put(o.rs, reg, Bool(false))) == Fall(Put(o.rs, reg, Bool(false)));
      }
    } else if o.Jump? {
      assert w.code[o.at] == s.code[o.at];
      assert o.at in s.jl <==> o.at in w.jl;
    }
  }

  lemma {:induction false} LoadsFlow(s: Snap, viaJump: bool, link: int, reg: int, cmp: Comparer, orgs: set<int>,
      last: int)
    requires SnapOk(s, orgs, last) && (!viaJump ==> s.jl == [])
    ensures var w := WithLoads(s, viaJump, link, reg);
      && SnapOk(w, orgs, |w.code|) && Kept(s, w)
      && forall st: Start :: Flow(w, cmp, orgs, st) == Loaded(Flow(s, cmp, orgs, st), viaJump, reg)
  {
    hide SnapOk, KeptOn, Flow, Loaded, Extends, WithLoads;
    LoadsOk(s, viaJump, link, reg, orgs, last);
    forall st: Start
      ensures Flow(WithLoads(s, viaJump, link, reg), cmp, orgs, st) == Loaded(Flow(s, cmp, orgs, st), viaJump, reg)
    {
      LoadsAt(s, viaJump, link, reg, cmp, orgs, last, st);
    }
  }

  // ----- Jumps at the level of statements -----

  /** luaK_jump: everything that would fall out, and what jpc holds, now is a
      pending jump. */
  function Hold(s: Snap, link: int): Snap {
    Snap(s.code + [Jmp(0, link)], s.pend + {|s.code|}, [], s.k)
  }

  function Held(o: Outcome, at: int): Outcome {
    if o.Fall? then Jump(at, o.rs, NotStored) else o
  }

  lemma {:induction false} HoldFlow(s: Snap, link: int, cmp: Comparer, orgs: set<int>, last: int)
    requires SnapOk(s, orgs, last)
    ensures var h := Hold(s, link);
      && SnapOk(h, orgs, last) && (forall j | j in Outer(s) :: h.code[j] == s.code[j]) && KeptOn(s, h, Outer(s))
      && forall st: Start :: Raw(h, cmp, orgs, st) == Held(Raw(s, cmp, orgs, st), |s.code|)
  {
    var h := Hold(s, link);
    var n := |s.code|;
    forall i | 0 <= i < |h.code| ensures WellFormedAt(h.code, h.pend, h.k, last, i) {
      if i < n { assert WellFormedAt(s.code, s.pend, s.k, last, i); }
    }
    forall st: Start ensures Raw(h, cmp, orgs, st) == Held(Raw(s, cmp, orgs, st), n) {
      RunExtended(s.code, s.pend, s.k, h.code, h.pend, h.k, cmp, orgs, last, From(orgs, st), st.rs);
      var o := Raw(s, cmp, orgs, st);
      if o.Fall? {
        assert h.code[n] == Jmp(0, link);
        assert Run(h.code, h.pend, h.k, cmp, n, o.rs) == Jump(n, o.rs, NotStored);
      } else if o.Jump? {
        assert h.code[o.at] == s.code[o.at];
      }
    }
  }

  /** The flow, when a jump holds all that would fall out. */
  lemma {:induction false} HeldFlow(s: Snap, h: Snap, cmp: Comparer, orgs: set<int>)
    requires h.jl == [] && forall st: Start :: Raw(h, cmp, orgs, st) == Held(Raw(s, cmp, orgs, st), |s.code|)
    ensures forall st: Start ::
      var o, o' := Flow(s, cmp, orgs, st), Flow(h, cmp, orgs, st);
      if o.Fall? then o'.Jump? && (o'.at == |s.code| || o'.at in s.jl) && o'.rs == o.rs else o' == o
  {
    hide Run;
    forall st: Start ensures
      var o, o' := Flow(s, cmp, orgs, st), Flow(h, cmp, orgs, st);
      if o.Fall? then o'.Jump? && (o'.at == |s.code| || o'.at in s.jl) && o'.rs == o.rs else o' == o
    {
      assert Raw(h, cmp, orgs, st) == Held(Raw(s, cmp, orgs, st), |s.code|);
    }
  }

  /** luaK_patchtohere: the jumps in `l` come here. */
  lemma {:induction false} HereFlow(s: Snap, s': Snap, l: seq<int>, cmp: Comparer, orgs: set<int>, last: int)
    requires SnapOk(s, orgs, last) && NoDup(l) && Apart(l, s.jl) && forall j | j in l :: j in s.pend
    requires s' == s.(code := s'.code, jl := s.jl + l) && Relinked(s.code, s'.code, s.jl)
    ensures SnapOk(s', orgs, |s'.code|) && KeptOn(s, s', Outer(s) - Elems(l)) && Outer(s') == Outer(s) - Elems(l)
    ensures forall st: Start ::
        Raw(s', cmp, orgs, st) == Raw(s, cmp, orgs, st) && Flow(s', cmp, orgs, st) == Settled(Flow(s, cmp, orgs, st), l)
  {
    var u := s'.(jl := s.jl);
    RelinkFlow(s, u, s.jl, cmp, orgs, last);
    assert forall j :: j in s.jl + l <==> j in s.jl || j in l;
    NoDupJoined(s.jl, l) by { assert forall j | j in s.jl :: j !in l; }
    forall i | 0 <= i < |s'.code| ensures WellFormedAt(s'.code, s'.pend, s'.k, |s'.code|, i) {
      assert WellFormedAt(u.code, u.pend, u.k, last, i);
    }
    forall st: Start
      ensures Raw(s', cmp, orgs, st) == Raw(s, cmp, orgs, st) && Flow(s', cmp, orgs, st) == Settled(Flow(s, cmp, orgs,
        st), l)
    {
      assert Raw(u, cmp, orgs, st) == Raw(s, cmp, orgs, st);
      var r := Run(u.code, u.pend, u.k, cmp, From(orgs, st), st.rs);
      assert Flow(u, cmp, orgs, st) == Settled(r, s.jl);
      assert Flow(s', cmp, orgs, st) == Settled(r, s.jl + l);
    }
  }

  // ----- Exits from before -----

  /** Of the exits to the end and in `l`, those older than `s` are taken right
      where `s` took them. */
  ghost predicate OldAt(s: Snap, s': Snap, l: seq<int>, o: Outcome, o': Outcome) {
    o'.Jump? && o'.at < |s.code| && (o'.at in s'.jl || o'.at in l) ==>
      && o.Jump? && o.at == o'.at && o.rs == o'.rs && o.at in s.jl
  }

  ghost predicate OldExits(s: Snap, s': Snap, l: seq<int>, cmp: Comparer, orgs: set<int>) {
    forall st: Start | |st.rs.vals| == MAXREGS :: OldAt(s, s', l, Raw(s, cmp, orgs, st), Raw(s', cmp, orgs, st))
  }

  lemma {:induction false} OldNothing(s: Snap, cmp: Comparer, orgs: set<int>)
    ensures OldExits(s, s, [], cmp, orgs)
  {
    hide Run;
  }

  /** An expression keeps no exit from before, unless it is compiled to nothing. */
  lemma {:induction false} OldNewer(s: Snap, s': Snap, l: seq<int>, cmp: Comparer, orgs: set<int>, last: int)
    requires SnapOk(s, orgs, last) && Newer(s, s') && Kept(s, s') && forall j | j in l :: |s.code| <= j
    ensures OldExits(s, s', l, cmp, orgs)
  {
    if !(forall j | j in s'.jl :: |s.code| <= j) {
      var u := s'.(k := s.k);
      forall st: Start ensures Raw(s', cmp, orgs, st) == Raw(s, cmp, orgs, st) {
        forall i | 0 <= i < |s.code| ensures MayBecome(s.code[i], s'.code[i], i in s.pend, i + 1 in s.pend) {}
        RunExtended(s.code, s.pend, s.k, s'.code, s'.pend, s'.k, cmp, orgs, last, From(orgs, st), st.rs);
      }
    }
  }

  lemma {:induction false} OldTwice(s0: Snap, s1: Snap, s2: Snap, l: seq<int>, cmp: Comparer, orgs: set<int>)
    requires OldExits(s0, s1, l, cmp, orgs) && OldExits(s1, s2, [], cmp, orgs) && |s0.code| <= |s1.code|
    requires forall j | j in l :: |s0.code| <= j
    ensures OldExits(s0, s2, l, cmp, orgs)
  {
    hide Run;
    forall st: Start | |st.rs.vals| == MAXREGS
      ensures OldAt(s0, s2, l, Raw(s0, cmp, orgs, st), Raw(s2, cmp, orgs, st))
    {
      assert OldAt(s0, s1, l, Raw(s0, cmp, orgs, st), Raw(s1, cmp, orgs, st));
      assert OldAt(s1, s2, [], Raw(s1, cmp, orgs, st), Raw(s2, cmp, orgs, st));
    }
  }
}
