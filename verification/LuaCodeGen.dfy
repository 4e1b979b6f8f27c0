/** The code generator of modules/lua/lcode.c for boolean and relational
    expressions: it edits an instruction array in place and keeps unfinished
    jumps in lists threaded through their own offsets. */
module LuaCodeGen {
  import opened Common
  import opened LuaVm
  import opened LuaPatch
  import opened LuaCodeSpec
  import opened LuaCodeFlow
  import opened LuaCodeHolds

  function DischargeVars(e: ExpDesc): ExpDesc {
    if e.kind == VLocal then e.(kind := VNonReloc) else e
  }

  /** After a condition: control falls through if it is true, and leaves through
      `l` if not, with the registers below `n` as they were. */
  ghost predicate ConditionAt(o: Outcome, o': Outcome, l: seq<int>, c: Expr, cmp: Comparer, n: int) {
    && (o.Fall? && |o.rs.vals| == MAXREGS ==>
          && (if Truthy(Eval(c, cmp, o.rs)) then o'.Fall? else o'.Jump? && o'.at in l)
          && Agree(o'.rs, o.rs, n, -1))
    && (!o.Fall? ==> o' == o)
  }

  class FuncState {
    var code: seq<Instr>          // f->code[0..pc); pc is its length
    var jpc: int                  // list of pending jumps to pc
    var lasttarget: int
    var freereg: int
    var nactvar: int
    var maxstacksize: int
    var k: seq<Value>             // constants
    var h: map<Value, int>        // finds constants already in k
    ghost var pend: set<int>      // all jumps without a target
    ghost var jl: seq<int>        // those in jpc
    ghost var orgs: set<int>      // labels of the loops that are open
    ghost const cmp: Comparer

    constructor (nactvar: nat, ghost cmp: Comparer)
      requires nactvar <= MAXREGS
      ensures Valid() && code == [] && k == [] && pend == {} && jl == [] && orgs == {}
      ensures this.nactvar == nactvar && freereg == nactvar && this.cmp == cmp
    {
      code, jpc, lasttarget := [], NO_JUMP, 0;
      freereg, this.nactvar, maxstacksize := nactvar, nactvar, if nactvar < 2 then 2 else nactvar;
      k, h := [], map[];
      pend, jl, orgs := {}, [], {};
      this.cmp := cmp;
    }

    ghost function S(): Snap
      reads this
    {
      Snap(code, pend, jl, k)
    }

    ghost predicate ConstantsOk()
      reads this
    {
      forall v | v in h :: 0 <= h[v] < |k| && k[h[v]] == v
    }

    ghost predicate Valid()
      reads this
    {
      && SnapOk(S(), orgs, lasttarget)
      && IsList(code, jpc, jl)
      && ConstantsOk()
      && 0 <= nactvar <= freereg <= maxstacksize <= MAXREGS
    }

    // ----- Jump lists -----

    method FixJump(pc: int, dest: int)
      requires 0 <= pc < |code| && code[pc].Jmp?
      modifies this`code
      ensures code == old(code)[pc := Jmp(old(code)[pc].a, dest - (pc + 1))]
    {
      code := code[pc := Jmp(code[pc].a, dest - (pc + 1))];
    }

    /** luaK_concat: joins two disjoint lists, rewiring only the last jump of the first. */
    method Concat(l1: int, l2: int, ghost a: seq<int>, ghost b: seq<int>) returns (l: int)
      requires IsList(code, l1, a) && IsList(code, l2, b) && NoDup(a) && Apart(a, b)
      modifies this`code
      ensures IsList(code, l, a + b)
      ensures Relinked(old(code), code, a)
      ensures b == [] ==> code == old(code)
    {
      if l2 == NO_JUMP {
        assert a + b == a;
        return l1;
      } else if l1 == NO_JUMP {
        assert a + b == b;
        return l2;
      }
      var list := l1;
      ghost var n := 0;
      var next := GetJump(code, list);
      while next != NO_JUMP
        invariant 0 <= n < |a| && a[n] == list && IsList(code, list, a[n..])
        invariant 0 <= list < |code| && code[list].Jmp? && next == GetJump(code, list)
        decreases |a| - n
      {
        assert a[n..][1..] == a[n + 1..];
        list := next;
        n := n + 1;
        next := GetJump(code, list);
      }
      assert a[n..][1..] == a[n + 1..];
      FixJump(list, l2);
      ListJoined(old(code), code, l1, a, l2, b);
      l := l1;
    }

    /** patchtestreg. */
    method PatchTestReg(node: int, reg: int) returns (patched: bool)
      requires 0 <= node < |code| && code[node].Jmp?
      modifies this`code
      ensures patched == HasValue(old(code), node)
      ensures code == if patched then old(code)[node - 1 := Settle(old(code)[node - 1], reg)] else old(code)
    {
      var control := if node >= 1 && TMode(code[node - 1]) then node - 1 else node;
      var i := code[control];
      if !i.TestSet? {
        return false;
      }
      if reg != NO_REG && reg != i.b {
        code := code[control := TestSet(reg, i.b, i.c)];
      } else {
        code := code[control := Test(i.b, i.c)];
      }
      patched := true;
    }

    /** patchlistaux: exactly the listed jumps get their targets. */
    method PatchListAux(list: int, vtarget: int, reg: int, dtarget: int, ghost l: seq<int>)
      requires IsList(code, list, l) && NoDup(l)
      modifies this`code
      ensures code == Patched(old(code), Elems(l), vtarget, reg, dtarget)
    {
      hide IsList, NoDup, Patched, Newer;
      var cur := list;
      ghost var n := 0;
      ghost var c0 := code;
      assert l[0..] == l;
      NothingPatched(c0, vtarget, reg, dtarget);
      ListAdvance(c0, cur, l, 0);
      while cur != NO_JUMP
        invariant 0 <= n <= |l| && IsList(c0, cur, l[n..])
        invariant code == Patched(c0, Elems(l[..n]), vtarget, reg, dtarget)
        decreases |l| - n
      {
        ListAdvance(c0, cur, l, n);
        PatchedStep(c0, Elems(l[..n]), cur, vtarget, reg, dtarget);
        var next := GetJump(code, cur);
        var patched := PatchTestReg(cur, reg);
        FixJump(cur, if patched then vtarget else dtarget);
        cur := next;
        n := n + 1;
      }
      ListAdvance(c0, cur, l, n);
    }

    /** removevalues. */
    method RemoveValues(list: int, ghost l: seq<int>)
      requires IsList(code, list, l) && NoDup(l)
      modifies this`code
      ensures code == Devalued(old(code), Elems(l))
    {
      hide IsList, NoDup, Devalued, Newer;
      var cur := list;
      ghost var n := 0;
      ghost var c0 := code;
      assert l[0..] == l;
      NothingPatched(c0, 0, 0, 0);
      ListAdvance(c0, cur, l, 0);
      while cur != NO_JUMP
        invariant 0 <= n <= |l| && IsList(c0, cur, l[n..])
        invariant code == Devalued(c0, Elems(l[..n]))
        decreases |l| - n
      {
        ListAdvance(c0, cur, l, n);
        DevaluedStep(c0, Elems(l[..n]), cur);
        var _ := PatchTestReg(cur, NO_REG);
        cur := GetJump(code, cur);
        n := n + 1;
      }
      ListAdvance(c0, cur, l, n);
    }

    /** need_value: does some jump of the list not produce a value? */
    method NeedValue(list: int, ghost l: seq<int>) returns (needed: bool)
      requires IsList(code, list, l)
      ensures needed <==> exists j :: j in l && !HasValue(code, j)
    {
      var cur := list;
      ghost var n := 0;
      ListMembers(code, list, l);
      while cur != NO_JUMP
        invariant 0 <= n <= |l| && IsList(code, cur, l[n..])
        invariant forall i | 0 <= i < n :: HasValue(code, l[i])
        decreases |l| - n
      {
        assert l[n..][1..] == l[n + 1..] && l[n] == cur;
        var control := if cur >= 1 && TMode(code[cur - 1]) then cur - 1 else cur;
        if !code[control].TestSet? {
          assert l[n] in l;
          return true;
        }
        cur := GetJump(code, cur);
        n := n + 1;
      }
      needed := false;
    }

    method DischargeJpc()
      requires IsList(code, jpc, jl) && NoDup(jl)
      modifies this`code, this`jpc, this`pend, this`jl
      ensures S() == Discharge(old(S())) && jpc == NO_JUMP
    {
      PatchListAux(jpc, |code|, NO_REG, |code|, jl);
      jpc := NO_JUMP;
      pend := pend - Elems(jl);
      jl := [];
    }

    /** luaK_code. */
    method Code(i: Instr) returns (at: int)
      requires IsList(code, jpc, jl) && NoDup(jl)
      modifies this`code, this`jpc, this`pend, this`jl
      ensures S() == Append(Discharge(old(S())), i, k) && jpc == NO_JUMP
      ensures at == |old(code)| && |code| == at + 1
    {
      DischargeJpc();
      code := code + [i];
      at := |code| - 1;
    }

    /** luaK_jump: jumps pending to here are kept on hold behind the new one. */
    method JumpOp() returns (j: int)
      requires IsList(code, jpc, jl) && NoDup(jl)
      modifies this`code, this`jpc, this`pend, this`jl
      ensures j == |old(code)| && IsList(code, j, [j] + old(jl))
      ensures jpc == NO_JUMP && jl == [] && pend == old(pend) + {j}
      ensures |code| == j + 1 && code[..j] == old(code) && code[j].Jmp? && code[j].a == 0
      ensures old(jl) == [] ==> code[j] == Jmp(0, NO_JUMP)
    {
      var held := jpc;
      ghost var heldList := jl;
      ghost var c0 := code;
      ListMembers(code, held, heldList);
      jpc := NO_JUMP;
      jl := [];
      j := Code(Jmp(0, NO_JUMP));
      assert code == c0 + [Jmp(0, NO_JUMP)];
      pend := old(pend) + {j};
      ListKept(c0, code, held, heldList);
      assert IsList(code, j, [j]) by { assert [j][1..] == []; }
      var _ := Concat(j, held, [j], heldList);
    }

    method CondJump(t: Instr) returns (j: int)
      requires IsList(code, jpc, jl) && NoDup(jl)
      modifies this`code, this`jpc, this`pend, this`jl
      ensures S() == AppendCond(Discharge(old(S())), t) && jpc == NO_JUMP
      ensures j == |old(code)| + 1 && IsList(code, j, [j])
    {
      var _ := Code(t);
      ghost var c := code;
      j := JumpOp();
      assert code == c + [Jmp(0, NO_JUMP)];
      assert [j] + [] == [j];
    }

    /** luaK_patchlist: to the end of the code, or to a place in it. */
    method PatchList(list: int, target: int, ghost l: seq<int>)
      requires IsList(code, jpc, jl) && NoDup(jl) && IsList(code, list, l) && NoDup(l) && Apart(jl, l)
      modifies this`code, this`jpc, this`pend, this`jl, this`lasttarget
      ensures IsList(code, jpc, jl)
      ensures target != |old(code)| || l == [] ==> S() == PatchSnap(old(S()), Elems(l), target, NO_REG, target)
      ensures target == |old(code)|
          ==> pend == old(pend) && k == old(k) && jl == old(jl) + l && Relinked(old(code), code, old(jl))
      ensures lasttarget == if target == |old(code)| then |code| else old(lasttarget)
    {
      if target == |code| {
        NothingPatched(code, target, NO_REG, target);
        PatchToHere(list, l);
      } else {
        ListMembers(code, jpc, jl);
        ghost var c0 := code;
        PatchListAux(list, target, NO_REG, target, l);
        ListKept(c0, code, jpc, jl);
        pend := pend - Elems(l);
      }
    }

    method GetLabel() returns (pc: int)
      modifies this`lasttarget
      ensures lasttarget == |code| && pc == |code|
    {
      lasttarget := |code|;
      pc := |code|;
    }

    method PatchToHere(list: int, ghost l: seq<int>)
      requires IsList(code, jpc, jl) && NoDup(jl) && IsList(code, list, l) && Apart(jl, l)
      modifies this`code, this`jpc, this`jl, this`lasttarget
      ensures lasttarget == |code| && jl == old(jl) + l && IsList(code, jpc, jl)
      ensures Relinked(old(code), code, old(jl)) && (l == [] ==> code == old(code))
    {
      var _ := GetLabel();
      jpc := Concat(jpc, list, jl, l);
      jl := jl + l;
    }

    // ----- Registers and constants -----

    method ReserveRegs(n: nat)
      requires freereg + n <= MAXREGS && maxstacksize <= MAXREGS
      modifies this`freereg, this`maxstacksize
      ensures freereg == old(freereg) + n && maxstacksize <= MAXREGS
      ensures freereg <= maxstacksize && old(maxstacksize) <= maxstacksize
    {
      if freereg + n > maxstacksize {
        maxstacksize := freereg + n;
      }
      freereg := freereg + n;
    }

    /** freereg, with the source's assertion as its precondition. */
    method FreeExp(e: ExpDesc)
      requires e.kind == VNonReloc && e.info >= nactvar ==> e.info == freereg - 1
      modifies this`freereg
      ensures freereg == old(freereg) - (if e.kind == VNonReloc && e.info >= nactvar then 1 else 0)
    {
      if e.kind == VNonReloc && e.info >= nactvar {
        freereg := freereg - 1;
      }
    }

    /** addk: finds or adds a constant. */
    method AddK(v: Value) returns (idx: int)
      requires ConstantsOk()
      modifies this`k, this`h
      ensures ConstantsOk() && old(k) <= k && |k| <= |old(k)| + 1
      ensures 0 <= idx < |k| && k[idx] == v
    {
      if v in h && k[h[v]] == v {
        return h[v];
      }
      idx := |k|;
      h := h[v := idx];
      k := k + [v];
    }

    // ----- Expressions -----

    ghost predicate OperandOk(e: ExpDesc)
      reads this
    {
      && (e.kind == VNonReloc ==> 0 <= e.info < MAXREGS)
      && (e.kind == VLocal ==> 0 <= e.info < nactvar)
      && (e.kind == VK ==> 0 <= e.info < |k|)
    }

    /** Descriptor `e`, with exits `ts` and `fs`, stands for `x` evaluated where
        the code `s0` ended. */
    ghost predicate Described(s0: Snap, e: ExpDesc, ts: seq<int>, fs: seq<int>, x: Expr, base: int, dst: int)
      reads this
    {
      && Valid()
      && Linked(s0, S(), e, ts, fs)
      && ShapeOk(S(), e, lasttarget) && OperandOk(e)
      && LeavesVia(s0, cmp, orgs, Outer(s0))
      && nactvar <= base && LocalsBelow(x, nactvar)
      && Holds(s0, S(), e, ts, fs, x, cmp, orgs, base, dst)
    }

    predicate IsTemp(e: ExpDesc)
      reads this`nactvar
    {
      e.kind == VNonReloc && e.info >= nactvar
    }

    /** At most one register above `base` is taken, by the value itself. */
    ghost predicate RegsOk(e: ExpDesc, base: int)
      reads this
    {
      if IsTemp(e) then e.info == base && freereg == base + 1 else freereg == base
    }

    /** luaK_nil for one register, joining a LOADNIL just before. */
    method LoadNilTo(reg: int)
      requires Valid() && 0 <= reg < MAXREGS
      modifies this`code, this`jpc, this`pend, this`jl
      ensures Valid() && Kept(old(S()), S()) && jl == [] && jpc == NO_JUMP && pend == Outer(old(S()))
          && |old(code)| <= |code|
      ensures forall st: Start :: Stores(Flow(old(S()), cmp, orgs, st), Flow(S(), cmp, orgs, st), reg, Nil)
    {
      ghost var s := S();
      if |code| > lasttarget {
        var prev := code[|code| - 1];
        if prev.LoadNil? {
          var pfrom, pl := prev.a, prev.a + prev.b;
          if (pfrom <= reg <= pl + 1) || (reg <= pfrom <= reg + 1) {
            var from := if pfrom < reg then pfrom else reg;
            var l := if pl > reg then pl else reg;
            assert WellFormedAt(code, pend, k, lasttarget, |code| - 1);
            code := code[|code| - 1 := LoadNil(from, l - from)];
            NilFlow(s, from, l - from, reg, cmp, orgs, lasttarget);
            return;
          }
        }
      }
      DischargeFlow(s, cmp, orgs, lasttarget);
      AppendPlain(Discharge(s), LoadNil(reg, 0), k, cmp, orgs, lasttarget);
      var _ := Code(LoadNil(reg, 0));
      forall st: Start ensures Stores(Flow(s, cmp, orgs, st), Flow(S(), cmp, orgs, st), reg, Nil) {
        var o := Flow(s, cmp, orgs, st);
        if o.Fall? {
          forall r: int ensures Get(PutNils(o.rs, reg, 0), r) == if r == reg then Nil else Get(o.rs, r) {
            PutNilsAt(o.rs, reg, 0, r);
          }
          PutNilsAt(o.rs, reg, 0, 0);
        }
      }
    }

    method EmitLoad(i: Instr, ghost e: ExpDesc, ghost reg: int, ghost s0: Snap, ghost ts: seq<int>, ghost fs: seq<int>,
                    ghost x: Expr, ghost base: int, ghost dst: int)
      requires Described(s0, e, ts, fs, x, base, -1) && e.kind != VJmp && e.kind != VReloc
      requires 0 <= reg < MAXREGS && (reg >= base || dst == reg)
      requires Loads(i, k, S(), e, reg)
      modifies this`code, this`jpc, this`pend, this`jl
      ensures Described(s0, e.(kind := VNonReloc, info := reg), ts, fs, x, base, dst)
    {
      EmitHolds(s0, S(), i, k, e, ts, fs, x, cmp, orgs, lasttarget, base, reg, dst);
      var _ := Code(i);
    }

    method DischargeNil(ghost e: ExpDesc, reg: int, ghost s0: Snap, ghost ts: seq<int>, ghost fs: seq<int>,
                        ghost x: Expr, ghost base: int, ghost dst: int)
      requires Described(s0, e, ts, fs, x, base, -1) && e.kind == VNil
      requires 0 <= reg < MAXREGS && (reg >= base || dst == reg)
      modifies this`code, this`jpc, this`pend, this`jl
      ensures Described(s0, e.(kind := VNonReloc, info := reg), ts, fs, x, base, dst)
    {
      ghost var s := S();
      LoadNilTo(reg);
      LinkedMoved(s0, s, S(), e, e.(kind := VNonReloc, info := reg), ts, fs);
      HoldsStored(s0, s, S(), e, ts, fs, x, cmp, orgs, base, reg, dst);
    }

    /** addk while a described expression is waiting. */
    method AddDescribed(v: Value, ghost e: ExpDesc, ghost s0: Snap, ghost ts: seq<int>, ghost fs: seq<int>,
        ghost x: Expr, ghost base: int)
      returns (idx: int)
      requires Described(s0, e, ts, fs, x, base, -1)
      modifies this`k, this`h
      ensures Described(s0, e, ts, fs, x, base, -1)
      ensures old(k) <= k && |k| <= |old(k)| + 1 && 0 <= idx < |k| && k[idx] == v
    {
      ghost var s := S();
      idx := AddK(v);
      MoreConstantsLinked(s0, s, k, e, ts, fs, lasttarget);
      MoreConstants(s0, s, k, e, ts, fs, x, cmp, orgs, lasttarget, base, -1);
    }

    method Discharge2Reg(e: ExpDesc, reg: int, ghost s0: Snap, ghost ts: seq<int>, ghost fs: seq<int>, ghost x: Expr,
        ghost base: int, ghost dst: int)
      returns (e': ExpDesc)
      requires Described(s0, e, ts, fs, x, base, -1)
      requires 0 <= reg < MAXREGS && (reg >= base || dst == reg)
      modifies this`code, this`jpc, this`pend, this`jl, this`k, this`h
      ensures e.kind == VJmp ==> e' == e && S() == old(S()) && h == old(h) && jpc == old(jpc)
      ensures e.kind != VJmp ==> e' == e.(kind := VNonReloc, info := reg) && Described(s0, e', ts, fs, x, base, dst)
    {
      hide Holds, WellFormed, LeavesVia, IsList, NoDup, Owned, KeptOn, Newer;
      e' := DischargeVars(e);
      HoldsLocal(s0, S(), e, ts, fs, x, cmp, orgs, base);
      assert Described(s0, e', ts, fs, x, base, -1);
      match e'.kind {
        case VNil =>
          DischargeNil(e', reg, s0, ts, fs, x, base, dst);
        case VFalse | VTrue =>
          EmitLoad(LoadBool(reg, if e'.kind == VTrue then 1 else 0, 0), e', reg, s0, ts, fs, x, base, dst);
        case VK =>
          EmitLoad(LoadK(reg, e'.info), e', reg, s0, ts, fs, x, base, dst);
        case VKNum =>
          var idx := AddDescribed(Number(e'.nval), e', s0, ts, fs, x, base);
          EmitLoad(LoadK(reg, idx), e', reg, s0, ts, fs, x, base, dst);
        case VReloc =>
          Relocate(e', reg, s0, ts, fs, x, base, dst);
        case VNonReloc =>
          if reg != e'.info {
            EmitLoad(Move(reg, e'.info), e', reg, s0, ts, fs, x, base, dst);
          } else {
            HoldsWeaker(s0, S(), e', ts, fs, x, cmp, orgs, base, dst);
          }
        case _ => return;
      }
      e' := e'.(info := reg, kind := VNonReloc);
    }

    /** The VRELOCABLE case: fill in the destination of the last instruction. */
    method Relocate(e: ExpDesc, reg: int, ghost s0: Snap, ghost ts: seq<int>, ghost fs: seq<int>, ghost x: Expr,
        ghost base: int, ghost dst: int)
      requires Described(s0, e, ts, fs, x, base, -1) && e.kind == VReloc
      requires 0 <= reg < MAXREGS && (reg >= base || dst == reg)
      modifies this`code
      ensures Described(s0, e.(kind := VNonReloc, info := reg), ts, fs, x, base, dst)
    {
      hide Holds, WellFormed, LeavesVia, Linked, Newer;
      ghost var s := S();
      var i := NotI(reg, code[e.info].b);
      EmitHolds(s0, s, i, k, e, ts, fs, x, cmp, orgs, lasttarget, base, reg, dst);
      code := code[e.info := i];
      assert Discharge(Body(s, e)).code == Body(s, e).code;
      assert Discharge(Body(s, e)).pend == pend;
      assert S() == Append(Discharge(Body(s, e)), i, k);
    }

    // ----- exp2reg -----

    method CodeLabel(a: int, b: int, jump: int) returns (at: int)
      requires IsList(code, jpc, jl) && NoDup(jl)
      modifies this`code, this`jpc, this`pend, this`jl, this`lasttarget
      ensures S() == Append(Discharge(old(S())), LoadBool(a, b, jump), k) && jpc == NO_JUMP
      ensures at == |old(code)| && |code| == at + 1
    {
      var _ := GetLabel();
      at := Code(LoadBool(a, b, jump));
    }

    /** The two loads for exits that carry no value; a value already in place
        jumps over them. */
    method EmitLoads(isJump: bool, reg: int) returns (pf: int, pt: int, ghost link: int)
      requires IsList(code, jpc, jl) && NoDup(jl) && (isJump ==> jl == [])
      requires forall j | j in jl :: 0 <= j < |code|
      modifies this`code, this`jpc, this`pend, this`jl, this`lasttarget
      ensures S() == WithLoads(old(S()), !isJump, link, reg) && IsList(code, jpc, jl)
      ensures lasttarget == |code| && pf == |code| - 2 && pt == |code| - 1
    {
      hide IsList, NoDup, Patched, Newer;
      ghost var s := S();
      var fj := NO_JUMP;
      ghost var l: seq<int> := [];
      link := 0;
      ListEmpty(code, fj, l);
      if !isJump {
        fj := JumpOp();
        l := [fj] + s.jl;
        link := code[fj].sbx;
        assert code == s.code + [Jmp(0, link)];
      }
      ghost var s1 := S();
      assert jl == [] && IsList(code, fj, l);
      ListEmpty(code, jpc, jl);
      DischargeNone(s1);
      pf := CodeLabel(reg, 0, 1);
      assert S() == s1.(code := s1.code + [LoadBool(reg, 0, 1)]);
      ListEmpty(code, jpc, jl);
      DischargeNone(S());
      pt := CodeLabel(reg, 1, 0);
      assert code == s1.code + [LoadBool(reg, 0, 1), LoadBool(reg, 1, 0)];
      assert S() == s1.(code := code);
      ListKept(s1.code, code, fj, l);
      ghost var before := code;
      PatchToHere(fj, l);
      assert code == before;
      assert jl == l;
      assert S().code == WithLoads(s, !isJump, link, reg).code;
    }

    /** Sends the exits in both lists to the current end, or to the loads. */
    method PatchExits(f: int, t: int, reg: int, pf: int, pt: int, ghost fs: seq<int>, ghost ts: seq<int>)
      requires IsList(code, f, fs) && IsList(code, t, ts) && NoDup(fs) && NoDup(ts) && Apart(ts, fs)
      requires IsList(code, jpc, jl) && Apart(jl, fs) && Apart(jl, ts)
      modifies this`code, this`pend, this`lasttarget
      ensures S() == PatchBoth(old(S()), Elems(fs), Elems(ts), reg, pf, pt) && lasttarget == |code|
      ensures IsList(code, jpc, jl)
    {
      ghost var s := S();
      var final := GetLabel();
      ListMembers(code, t, ts);
      ListMembers(code, jpc, jl);
      PatchListAux(f, final, reg, pf, fs);
      ListKept(s.code, code, t, ts);
      PatchListAux(t, final, reg, pt, ts);
      ListKept(s.code, code, jpc, jl);
      pend := pend - Elems(fs) - Elems(ts);
    }

    /** Puts a comparison's own jump into its list of true exits. */
    method GatherTrue(e: ExpDesc, ghost s0: Snap, ghost ts: seq<int>, ghost fs: seq<int>, ghost x: Expr,
        ghost base: int, ghost dst: int)
      returns (t: int)
      requires Described(s0, e, ts, fs, x, base, dst) && (e.kind == VNonReloc || e.kind == VJmp)
      modifies this`code
      ensures Gathered(s0, e, t, ts, fs, x, base, dst)
    {
      hide Holds, WellFormed, LeavesVia, KeptOn, Newer, Ready, HasValue;
      t := e.t;
      if e.kind == VJmp {
        ghost var s := S();
        assert e.info in [e.info];
        assert IsList(code, e.info, [e.info]) by { ListMembers(code, e.t, ts); assert [e.info][1..] == []; }
        t := Concat(e.t, e.info, ts, [e.info]);
        TrueGathered(s0, s, S(), e, ts, fs, x, cmp, orgs, lasttarget, base, dst);
        StillValid(s, S(), ts);
      } else {
        assert ts + [] == ts;
        NothingGathered(e, s0, ts, fs, x, base, dst);
      }
    }

    ghost predicate Gathered(s0: Snap, e: ExpDesc, t: int, ts: seq<int>, fs: seq<int>, x: Expr, base: int, dst: int)
      reads this
    {
      && Valid() && nactvar <= base && LocalsBelow(x, nactvar)
      && Ready(s0, S(), e, ts, fs, x, cmp, orgs, lasttarget, base, dst)
      && IsList(code, t, ts + Own(e)) && IsList(code, e.f, fs)
    }

    lemma StillValid(s: Snap, s': Snap, l: seq<int>)
      requires s'.jl == [] == s.jl
      ensures IsList(s.code, jpc, s.jl) ==> IsList(s'.code, jpc, s'.jl)
    {
    }

    lemma NothingGathered(e: ExpDesc, s0: Snap, ts: seq<int>, fs: seq<int>, x: Expr, base: int, dst: int)
      requires Described(s0, e, ts, fs, x, base, dst) && e.kind == VNonReloc
      ensures Ready(s0, S(), e, ts, fs, x, cmp, orgs, lasttarget, base, dst)
    {
    }

    /** exp2reg when every exit brings its own value. */
    method FinishPlain(e: ExpDesc, t: int, reg: int, ghost s0: Snap, ghost ts: seq<int>, ghost fs: seq<int>,
        ghost x: Expr, ghost base: int, ghost dst: int)
      requires Gathered(s0, e, t, ts, fs, x, base, dst)
      requires 0 <= reg < MAXREGS && (reg >= base || dst == reg) && e.kind == VNonReloc && e.info == reg
      requires forall j | j in ts + Own(e) || j in fs :: HasValue(code, j)
      modifies this`code, this`pend, this`lasttarget
      ensures Described(s0, Result(e, reg), [], [], x, base, dst)
    {
      FinishedPlain(s0, S(), e, ts, fs, x, cmp, orgs, lasttarget, base, reg, dst);
      PatchExits(e.f, t, reg, NO_JUMP, NO_JUMP, fs, ts + Own(e));
    }

    /** exp2reg when some exit needs a boolean loaded. */
    method FinishLoads(e: ExpDesc, t: int, reg: int, ghost s0: Snap, ghost ts: seq<int>, ghost fs: seq<int>,
        ghost x: Expr, ghost base: int, ghost dst: int)
      requires Gathered(s0, e, t, ts, fs, x, base, dst)
      requires 0 <= reg < MAXREGS && (reg >= base || dst == reg) && (e.kind == VNonReloc ==> e.info == reg)
      requires exists j :: j in ts + Own(e) || j in fs
      modifies this`code, this`jpc, this`pend, this`jl, this`lasttarget
      ensures Described(s0, Result(e, reg), [], [], x, base, dst)
    {
      hide Holds, WellFormed, Owned, KeptOn, LeavesVia, IsList, NoDup, Ready, PatchBoth, WithLoads, Linked, Apart,
          Newer;
      ghost var s := S();
      ghost var tl := ts + Own(e);
      ghost var last := lasttarget;
      FinishedLists(e, t, s0, ts, fs, x, base, dst);
      var pf, pt, link := EmitLoads(e.kind == VJmp, reg);
      FinishedLoads(s0, s, e, ts, fs, x, cmp, orgs, last, base, reg, dst, link);
      PatchExits(e.f, t, reg, pf, pt, fs, tl);
    }

    /** The exit lists are still there, apart from jpc, after the loads. */
    lemma FinishedLists(e: ExpDesc, t: int, s0: Snap, ts: seq<int>, fs: seq<int>, x: Expr, base: int, dst: int)
      requires Gathered(s0, e, t, ts, fs, x, base, dst)
      ensures var tl := ts + Own(e);
        && NoDup(fs) && NoDup(tl) && Apart(tl, fs)
        && IsList(code, jpc, jl) && NoDup(jl) && (e.kind == VJmp ==> jl == [])
        && LeavesVia(s0, cmp, orgs, Outer(s0))
        && (forall j | j in jl :: 0 <= j < |code|)
        && forall viaJump: bool, link: int, reg: int ::
             var w := WithLoads(S(), viaJump, link, reg);
             IsList(w.code, e.f, fs) && IsList(w.code, t, tl) && Apart(w.jl, fs) && Apart(w.jl, tl)
    {
      var tl := ts + Own(e);
      ListMembers(code, e.f, fs);
      ListMembers(code, t, tl);
      ListMembers(code, jpc, jl);
      assert forall j | j in tl :: j in ts || j in Own(e);
      forall viaJump: bool, link: int, reg: int
        ensures var w := WithLoads(S(), viaJump, link, reg);
          IsList(w.code, e.f, fs) && IsList(w.code, t, tl) && Apart(w.jl, fs) && Apart(w.jl, tl)
      {
        var w := WithLoads(S(), viaJump, link, reg);
        ListKept(code, w.code, e.f, fs);
        ListKept(code, w.code, t, tl);
      }
    }

    /** exp2reg: whatever exits it has, the value of the expression ends in `reg`. */
    method Exp2Reg(e: ExpDesc, reg: int, ghost s0: Snap, ghost ts: seq<int>, ghost fs: seq<int>, ghost x: Expr,
        ghost base: int, ghost dst: int)
      returns (e': ExpDesc)
      requires Described(s0, e, ts, fs, x, base, -1)
      requires 0 <= reg < MAXREGS && (reg >= base || dst == reg)
      modifies this`code, this`jpc, this`pend, this`jl, this`lasttarget, this`k, this`h
      ensures e' == Result(e, reg) && Described(s0, e', [], [], x, base, dst)
    {
      hide Holds, WellFormed, Owned, KeptOn, IsList, LeavesVia, Newer;
      var d := Discharge2Reg(e, reg, s0, ts, fs, x, base, dst);
      if d.kind == VJmp {
        HoldsWeaker(s0, S(), d, ts, fs, x, cmp, orgs, base, dst);
      }
      var t := GatherTrue(d, s0, ts, fs, x, base, dst);
      if t != d.f {
        var needed := NeedValue(t, ts + Own(d));
        if !needed {
          needed := NeedValue(d.f, fs);
        }
        if needed {
          FinishLoads(d, t, reg, s0, ts, fs, x, base, dst);
        } else {
          assert d.kind == VJmp ==> d.info in ts + Own(d) && !HasValue(code, d.info);
          FinishPlain(d, t, reg, s0, ts, fs, x, base, dst);
        }
      } else {
        NothingToFinish(d, t, reg, s0, ts, fs, x, base, dst);
      }
      e' := Result(d, reg);
    }

    /** hasjumps is false only when both lists are empty. */
    lemma NothingToFinish(e: ExpDesc, t: int, reg: int, s0: Snap, ts: seq<int>, fs: seq<int>, x: Expr, base: int,
        dst: int)
      requires Gathered(s0, e, t, ts, fs, x, base, dst) && t == e.f
      requires 0 <= reg < MAXREGS && (e.kind == VNonReloc ==> e.info == reg)
      ensures Described(s0, Result(e, reg), [], [], x, base, dst)
    {
      assert t in ts + Own(e) ==> t !in fs;
      assert ts + Own(e) == [] && fs == [];
      HoldsSame(s0, S(), S(), e, Result(e, reg), ts, fs, x, cmp, orgs, base, dst);
    }

    // ----- Bringing a value to some register or operand -----

    method Exp2NextReg(e: ExpDesc, ghost s0: Snap, ghost ts: seq<int>, ghost fs: seq<int>, ghost x: Expr,
        ghost base: int)
      returns (e': ExpDesc)
      requires Described(s0, e, ts, fs, x, base, -1) && RegsOk(e, base) && base < MAXREGS
      modifies this`code, this`jpc, this`pend, this`jl, this`lasttarget, this`k, this`h, this`freereg, this`maxstacksize
      ensures e' == Result(e, base) && Described(s0, e', [], [], x, base, -1)
      ensures freereg == base + 1
    {
      hide Holds, WellFormed, Linked, LeavesVia, IsList, NoDup, Newer;
      var d := DischargeVars(e);
      HoldsLocal(s0, S(), e, ts, fs, x, cmp, orgs, base);
      SameLinks(s0, S(), e, d, ts, fs);
      FreeExp(d);
      ReserveRegs(1);
      e' := Exp2Reg(d, freereg - 1, s0, ts, fs, x, base, -1);
    }

    method Exp2AnyReg(e: ExpDesc, ghost s0: Snap, ghost ts: seq<int>, ghost fs: seq<int>, ghost x: Expr,
        ghost base: int)
      returns (e': ExpDesc)
      requires Described(s0, e, ts, fs, x, base, -1) && RegsOk(e, base) && base < MAXREGS
      modifies this`code, this`jpc, this`pend, this`jl, this`lasttarget, this`k, this`h, this`freereg, this`maxstacksize
      ensures Described(s0, e', [], [], x, base, -1) && e'.kind == VNonReloc && e'.t == e'.f && RegsOk(e', base)
    {
      hide Holds, WellFormed, Linked, LeavesVia, IsList, NoDup, Newer;
      var d := DischargeVars(e);
      HoldsLocal(s0, S(), e, ts, fs, x, cmp, orgs, base);
      SameLinks(s0, S(), e, d, ts, fs);
      if d.kind == VNonReloc {
        if d.t == d.f {
          NoJumps(s0, S(), d, ts, fs);
          return d;
        }
        if d.info >= nactvar {
          e' := Exp2Reg(d, d.info, s0, ts, fs, x, base, -1);
          return;
        }
      }
      e' := Exp2NextReg(d, s0, ts, fs, x, base);
    }

    /** luaK_exp2RK: a constant operand if the value is a small constant, a
        register otherwise. */
    method Exp2RK(e: ExpDesc, ghost s0: Snap, ghost ts: seq<int>, ghost fs: seq<int>, ghost x: Expr, ghost base: int)
      returns (e': ExpDesc, o: int)
      requires Described(s0, e, ts, fs, x, base, -1) && RegsOk(e, base) && base < MAXREGS
      modifies this`code, this`jpc, this`pend, this`jl, this`lasttarget, this`k, this`h, this`freereg, this`maxstacksize
      ensures Described(s0, e', [], [], x, base, -1) && RKOk(e') && o == RKOf(e') && RegsOk(e', base)
    {
      hide Holds, WellFormed, Linked, LeavesVia, IsList, NoDup, Newer;
      var d := DischargeVars(e);
      HoldsLocal(s0, S(), e, ts, fs, x, cmp, orgs, base);
      SameLinks(s0, S(), e, d, ts, fs);
      if d.t != d.f {
        e' := Exp2AnyReg(d, s0, ts, fs, x, base);
        return e', e'.info;
      }
      NoJumps(s0, S(), d, ts, fs);
      match d.kind {
        case VTrue | VFalse | VNil =>
          if |k| < BITRK {
            var v := if d.kind == VNil then Nil else Bool(d.kind == VTrue);
            var idx := AddDescribed(v, d, s0, [], [], x, base);
            e' := d.(kind := VK, info := idx);
            ConstantFor(s0, d, e', x, base);
            return e', e'.info + BITRK;
          }
        case VKNum =>
          var idx := AddDescribed(Number(d.nval), d, s0, [], [], x, base);
          ConstantFor(s0, d, d.(kind := VK, info := idx), x, base);
          d := d.(kind := VK, info := idx);
          if d.info < BITRK {
            return d, d.info + BITRK;
          }
        case VK =>
          if d.info < BITRK {
            return d, d.info + BITRK;
          }
        case _ =>
      }
      e' := Exp2AnyReg(d, s0, [], [], x, base);
      o := e'.info;
    }

    /** A constant that has just been given a place among the constants. */
    lemma ConstantFor(s0: Snap, e: ExpDesc, e': ExpDesc, x: Expr, base: int)
      requires Described(s0, e, [], [], x, base, -1)
      requires e'.kind == VK && 0 <= e'.info < |k| && e'.t == e.t && e'.f == e.f
      requires match e.kind
               case VNil => k[e'.info] == Nil
               case VTrue => k[e'.info] == Bool(true)
               case VFalse => k[e'.info] == Bool(false)
               case VKNum => k[e'.info] == Number(e.nval)
               case _ => false
      ensures Described(s0, e', [], [], x, base, -1)
    {
      hide WellFormed, LeavesVia, IsList, NoDup, Holds, Newer;
      HoldsSame(s0, S(), S(), e, e', [], [], x, cmp, orgs, base, -1);
    }

    // ----- Conditions -----

    /** A condition on `x` whose exits of the other sense are in `l`. */
    ghost predicate Conditional(s0: Snap, head: int, l: seq<int>, sense: bool, x: Expr, base: int)
      reads this
    {
      && Valid() && nactvar <= base && LocalsBelow(x, nactvar) && freereg == base
      && CondReady(s0, S(), l, sense, x, cmp, orgs, base)
      && IsList(code, head, l) && lasttarget == |code|
    }

    /** Tested, with the new jump (if any) and the two exit lists still apart. */
    ghost predicate Tested(s0: Snap, e: ExpDesc, pc: int, ts: seq<int>, fs: seq<int>, pl: seq<int>, sense: bool,
        x: Expr, base: int)
      reads this
    {
      && Valid() && nactvar <= base && LocalsBelow(x, nactvar) && freereg == base
      && Staged(s0, S(), if sense then ts else fs, if sense then fs else ts, pl, sense, x, cmp, orgs, lasttarget, base)
      && IsList(code, e.t, ts) && IsList(code, e.f, fs) && IsList(code, pc, pl)
    }

    /** invertjump. */
    method InvertJump(e: ExpDesc)
      requires |code| >= 2 && e.info == |code| - 1 && code[|code| - 2].Cmp? && code[|code| - 2].a in {0, 1}
      modifies this`code
      ensures code == Inverted(old(code))
    {
      var i := code[e.info - 1];
      code := code[e.info - 1 := Cmp(i.op, if i.a == 0 then 1 else 0, i.b, i.c)];
    }

    method JumpOnCond(e: ExpDesc, cond: int, ghost s0: Snap, ghost ts: seq<int>, ghost fs: seq<int>, ghost x: Expr,
        ghost base: int)
      returns (pc: int)
      requires Described(s0, e, ts, fs, x, base, -1) && RegsOk(e, base) && base < MAXREGS
      requires e.kind != VJmp && cond in {0, 1}
      modifies this`code, this`jpc, this`pend, this`jl, this`k, this`h, this`freereg, this`maxstacksize
      ensures Tested(s0, e, pc, ts, fs, [pc], cond == 0, x, base)
    {
      hide Holds, WellFormed, Linked, LeavesVia, IsList, NoDup, Staged, Newer;
      if e.kind == VReloc {
        pc := TestOperand(e, cond, s0, ts, fs, x, base);
      } else {
        var d := Discharge2AnyReg(e, s0, ts, fs, x, base);
        FreeExp(d);
        pc := TestSetValue(d, cond, s0, ts, fs, x, base);
      }
    }

    /** jumponcond on a NOT: take it back and test its operand. */
    method TestOperand(e: ExpDesc, cond: int, ghost s0: Snap, ghost ts: seq<int>, ghost fs: seq<int>, ghost x: Expr,
        ghost base: int)
      returns (pc: int)
      requires Described(s0, e, ts, fs, x, base, -1) && freereg == base
      requires e.kind == VReloc && cond in {0, 1}
      modifies this`code, this`jpc, this`pend, this`jl
      ensures Tested(s0, e, pc, ts, fs, [pc], cond == 0, x, base)
    {
      hide Holds, WellFormed, Owned, KeptOn, LeavesVia, IsList, NoDup, StageHolds, Newer;
      ghost var s := S();
      var b := code[e.info].b;
      StagedNot(s0, s, e, ts, fs, cond == 0, x, cmp, orgs, lasttarget, base);
      ListsAround(s0, s, e, ts, fs);
      ListEmpty(code, jpc, jl);
      code := code[..|code| - 1];
      DischargeNone(S());
      ListEmpty(code, jpc, jl);
      pc := CondJump(Test(b, 1 - cond));
      assert S() == AppendCond(Body(s, e), Test(b, 1 - cond));
      ListKeptOn(s, S(), Outer(s), e.t, ts);
      ListKeptOn(s, S(), Outer(s), e.f, fs);
      ListEmpty(code, jpc, jl);
    }

    /** jumponcond on a register: TESTSET, without a destination yet. */
    method TestSetValue(e: ExpDesc, cond: int, ghost s0: Snap, ghost ts: seq<int>, ghost fs: seq<int>, ghost x: Expr,
        ghost base: int)
      returns (pc: int)
      requires Described(s0, e, ts, fs, x, base, -1) && freereg == base
      requires e.kind == VNonReloc && cond in {0, 1}
      modifies this`code, this`jpc, this`pend, this`jl
      ensures Tested(s0, e, pc, ts, fs, [pc], cond == 0, x, base)
    {
      hide Holds, WellFormed, Owned, KeptOn, LeavesVia, IsList, NoDup, StageHolds, Newer;
      ghost var s := S();
      StagedSet(s0, s, e, ts, fs, cond == 0, x, cmp, orgs, lasttarget, base);
      ListsAround(s0, s, e, ts, fs);
      pc := CondJump(TestSet(NO_REG, e.info, cond));
      ListKeptOn(s, S(), Outer(s), e.t, ts);
      ListKeptOn(s, S(), Outer(s), e.f, fs);
      ListEmpty(code, jpc, jl);
    }

    lemma ListEmpty(c: seq<Instr>, head: int, l: seq<int>)
      requires l == []
      ensures IsList(c, head, l) <==> head == NO_JUMP
      ensures NoDup(l)
    {
    }

    lemma ListsAround(s0: Snap, s: Snap, e: ExpDesc, ts: seq<int>, fs: seq<int>)
      requires Linked(s0, s, e, ts, fs)
      ensures forall j | j in ts || j in fs :: j in Outer(s)
    {
    }

    /** discharge2anyreg. */
    method Discharge2AnyReg(e: ExpDesc, ghost s0: Snap, ghost ts: seq<int>, ghost fs: seq<int>, ghost x: Expr,
        ghost base: int)
      returns (e': ExpDesc)
      requires Described(s0, e, ts, fs, x, base, -1) && RegsOk(e, base) && base < MAXREGS && e.kind != VJmp
      modifies this`code, this`jpc, this`pend, this`jl, this`k, this`h, this`freereg, this`maxstacksize
      ensures Described(s0, e', ts, fs, x, base, -1) && e'.kind == VNonReloc && e'.t == e.t && e'.f == e.f
          && RegsOk(e', base)
    {
      hide Holds, WellFormed, Owned, KeptOn, LeavesVia, IsList, NoDup, Newer;
      e' := e;
      if e.kind != VNonReloc {
        ReserveRegs(1);
        e' := Discharge2Reg(e, freereg - 1, s0, ts, fs, x, base, -1);
      }
    }

    /** The end of goiftrue and goiffalse: `pc` joins list `keep`, and list
        `here` comes here. */
    method GatherExits(keep: int, pc: int, here: int, ghost e: ExpDesc, ghost s0: Snap, ghost ts: seq<int>,
        ghost fs: seq<int>, ghost pl: seq<int>, ghost sense: bool, ghost x: Expr, ghost base: int)
      returns (head: int)
      requires Tested(s0, e, pc, ts, fs, pl, sense, x, base)
      requires keep == (if sense then e.f else e.t) && here == (if sense then e.t else e.f)
      modifies this`code, this`jpc, this`jl, this`lasttarget
      ensures Conditional(s0, head, (if sense then fs else ts) + pl, sense, x, base)
    {
      hide Staged, StageHolds, WellFormed, LeavesVia, CondHolds, IsList, NoDup, Owned, KeptOn, Newer;
      ghost var s := S();
      ghost var same, other := if sense then ts else fs, if sense then fs else ts;
      TestedLists(e, pc, s0, ts, fs, pl, sense, x, base);
      head := Concat(keep, pc, other, pl);
      ghost var c1 := code;
      RelinkedLists(s.code, c1, other, jpc, s.jl);
      RelinkedLists(s.code, c1, other, here, same);
      PatchToHere(here, same);
      RelinkedLists(c1, code, s.jl, head, other + pl);
      CondDone(s0, s, c1, S(), same, other, pl, sense, x, cmp, orgs, old(lasttarget), base);
    }

    lemma TestedLists(e: ExpDesc, pc: int, s0: Snap, ts: seq<int>, fs: seq<int>, pl: seq<int>, sense: bool, x: Expr,
        base: int)
      requires Tested(s0, e, pc, ts, fs, pl, sense, x, base)
      ensures var same, other := if sense then ts else fs, if sense then fs else ts;
        && NoDup(other) && NoDup(jl) && Apart(other, pl) && Apart(jl, same)
        && Apart(jl, other) && Apart(same, other) && Apart(other + pl, jl)
    {
      hide StageHolds, WellFormed, LeavesVia, IsList, KeptOn, Newer;
      var other := if sense then fs else ts;
      assert forall j :: j in other + pl <==> j in other || j in pl;
    }

    /** Rewiring one list leaves a disjoint one alone. */
    lemma RelinkedLists(c: seq<Instr>, c': seq<Instr>, l: seq<int>, head: int, m: seq<int>)
      requires Relinked(c, c', l) && IsList(c, head, m) && (Apart(l, m) || Apart(m, l))
      ensures IsList(c', head, m)
    {
      ListMembers(c, head, m);
      ListKept(c, c', head, m);
    }

    /** A comparison already is a test; for a condition that falls through when
        true its result is inverted. */
    method TakeCompare(e: ExpDesc, sense: bool, ghost s0: Snap, ghost ts: seq<int>, ghost fs: seq<int>, ghost x: Expr,
        ghost base: int)
      requires Described(s0, e, ts, fs, x, base, -1) && e.kind == VJmp && freereg == base
      modifies this`code
      ensures Tested(s0, e, e.info, ts, fs, [e.info], sense, x, base)
    {
      hide Holds, WellFormed, Owned, KeptOn, LeavesVia, IsList, NoDup, StageHolds, Newer;
      ghost var s := S();
      StagedCompare(s0, s, e, ts, fs, sense, x, cmp, orgs, lasttarget, base);
      ListsAround(s0, s, e, ts, fs);
      ListEmpty(code, jpc, jl);
      if sense {
        InvertJump(e);
      }
      ListKeptOn(s, S(), Outer(s), e.t, ts);
      ListKeptOn(s, S(), Outer(s), e.f, fs);
      ListEmpty(code, jpc, jl);
      OneJump(code, e.info);
    }

    lemma OneJump(c: seq<Instr>, j: int)
      requires 0 <= j < |c| && c[j] == Jmp(0, NO_JUMP)
      ensures IsList(c, j, [j])
    {
      assert [j][1..] == [];
    }

    lemma TakeConstant(e: ExpDesc, sense: bool, s0: Snap, ts: seq<int>, fs: seq<int>, x: Expr, base: int)
      requires Described(s0, e, ts, fs, x, base, -1) && freereg == base
      requires if sense then e.kind in {VK, VKNum, VTrue} else e.kind in {VNil, VFalse}
      requires e.kind == VK ==> 0 <= e.info < |k| && Truthy(k[e.info])
      ensures Tested(s0, e, NO_JUMP, ts, fs, [], sense, x, base)
    {
      hide Holds, WellFormed, Owned, KeptOn, LeavesVia, NoDup, StageHolds, Newer;
      StagedConstant(s0, S(), e, ts, fs, sense, x, cmp, orgs, lasttarget, base);
    }

    /** luaK_goiftrue: control falls through iff the value is true. */
    method GoIfTrue(e: ExpDesc, ghost s0: Snap, ghost ts: seq<int>, ghost fs: seq<int>, ghost x: Expr, ghost base: int)
      returns (e': ExpDesc, ghost l: seq<int>)
      requires Described(s0, e, ts, fs, x, base, -1) && RegsOk(e, base) && base < MAXREGS
      requires e.kind == VK ==> Truthy(k[e.info])
      modifies this`code, this`jpc, this`pend, this`jl, this`lasttarget, this`k, this`h, this`freereg, this`maxstacksize
      ensures Conditional(s0, e'.f, l, true, x, base) && e'.t == NO_JUMP
    {
      hide Holds, WellFormed, Linked, LeavesVia, IsList, NoDup, Staged, CondReady, Newer;
      var d := DischargeVars(e);
      HoldsLocal(s0, S(), e, ts, fs, x, cmp, orgs, base);
      SameLinks(s0, S(), e, d, ts, fs);
      var pc := NO_JUMP;
      ghost var pl: seq<int> := [];
      if d.kind == VJmp {
        TakeCompare(d, true, s0, ts, fs, x, base);
        pc, pl := d.info, [d.info];
      } else if d.kind == VK || d.kind == VKNum || d.kind == VTrue {
        TakeConstant(d, true, s0, ts, fs, x, base);
      } else {
        pc := JumpOnCond(d, 0, s0, ts, fs, x, base);
        pl := [pc];
      }
      var f := GatherExits(d.f, pc, d.t, d, s0, ts, fs, pl, true, x, base);
      e' := d.(t := NO_JUMP, f := f);
      l := fs + pl;
    }

    /** luaK_goiffalse: control falls through iff the value is false. */
    method GoIfFalse(e: ExpDesc, ghost s0: Snap, ghost ts: seq<int>, ghost fs: seq<int>, ghost x: Expr, ghost base: int)
      returns (e': ExpDesc, ghost l: seq<int>)
      requires Described(s0, e, ts, fs, x, base, -1) && RegsOk(e, base) && base < MAXREGS
      modifies this`code, this`jpc, this`pend, this`jl, this`lasttarget, this`k, this`h, this`freereg, this`maxstacksize
      ensures Conditional(s0, e'.t, l, false, x, base) && e'.f == NO_JUMP
    {
      hide Holds, WellFormed, Linked, LeavesVia, IsList, NoDup, Staged, CondReady, Newer;
      var d := DischargeVars(e);
      HoldsLocal(s0, S(), e, ts, fs, x, cmp, orgs, base);
      SameLinks(s0, S(), e, d, ts, fs);
      var pc := NO_JUMP;
      ghost var pl: seq<int> := [];
      if d.kind == VJmp {
        TakeCompare(d, false, s0, ts, fs, x, base);
        pc, pl := d.info, [d.info];
      } else if d.kind == VNil || d.kind == VFalse {
        TakeConstant(d, false, s0, ts, fs, x, base);
      } else {
        pc := JumpOnCond(d, 1, s0, ts, fs, x, base);
        pl := [pc];
      }
      var t := GatherExits(d.t, pc, d.f, d, s0, ts, fs, pl, false, x, base);
      e' := d.(f := NO_JUMP, t := t);
      l := ts + pl;
    }

    // ----- not -----

    ghost predicate HalfNegated(s0: Snap, e: ExpDesc, ts: seq<int>, fs: seq<int>, x: Expr, base: int)
      reads this
    {
      && Valid() && nactvar <= base && LocalsBelow(x, nactvar) && freereg == base
      && e.kind != VNonReloc && e.kind != VLocal && e.kind != VK
      && HalfDone(s0, S(), e, ts, fs, x, cmp, orgs, lasttarget, base)
    }

    /** The first half of codenot: negate the value at the end. */
    method NegateValue(e: ExpDesc, ghost s0: Snap, ghost ts: seq<int>, ghost fs: seq<int>, ghost x: Expr,
        ghost base: int)
      returns (e': ExpDesc)
      requires Described(s0, e, ts, fs, x, base, -1) && RegsOk(e, base) && base < MAXREGS
      requires e.kind == VK ==> Truthy(k[e.info])
      modifies this`code, this`jpc, this`pend, this`jl, this`k, this`h, this`freereg, this`maxstacksize
      ensures HalfNegated(s0, e', ts, fs, x, base) && e'.t == e.t && e'.f == e.f
    {
      hide Holds, WellFormed, Linked, LeavesVia, NoDup, HalfNot, IsList, Newer;
      e' := DischargeVars(e);
      HoldsLocal(s0, S(), e, ts, fs, x, cmp, orgs, base);
      SameLinks(s0, S(), e, e', ts, fs);
      ghost var d := e';
      if e'.kind == VNil || e'.kind == VFalse {
        e' := e'.(kind := VTrue);
        HalfConstant(s0, S(), d, e', ts, fs, x, cmp, orgs, lasttarget, base);
      } else if e'.kind == VK || e'.kind == VKNum || e'.kind == VTrue {
        e' := e'.(kind := VFalse);
        HalfConstant(s0, S(), d, e', ts, fs, x, cmp, orgs, lasttarget, base);
      } else if e'.kind == VJmp {
        HalfCompare(s0, S(), e', ts, fs, x, cmp, orgs, lasttarget, base);
        ListEmpty(code, jpc, jl);
        InvertJump(e');
        ListEmpty(code, jpc, jl);
      } else {
        e' := NegateRegister(e', s0, ts, fs, x, base);
      }
    }

    method NegateRegister(e: ExpDesc, ghost s0: Snap, ghost ts: seq<int>, ghost fs: seq<int>, ghost x: Expr,
        ghost base: int)
      returns (e': ExpDesc)
      requires Described(s0, e, ts, fs, x, base, -1) && RegsOk(e, base) && base < MAXREGS && e.kind != VJmp
      modifies this`code, this`jpc, this`pend, this`jl, this`k, this`h, this`freereg, this`maxstacksize
      ensures HalfNegated(s0, e', ts, fs, x, base) && e'.t == e.t && e'.f == e.f
    {
      hide Holds, WellFormed, Linked, LeavesVia, HalfNot, IsList, Newer;
      e' := Discharge2AnyReg(e, s0, ts, fs, x, base);
      FreeExp(e');
      HalfValue(s0, S(), e', ts, fs, x, cmp, orgs, lasttarget, base);
      var info := Code(NotI(0, e'.info));
      e' := e'.(info := info, kind := VReloc);
      ListEmpty(code, jpc, jl);
    }

    /** codenot. */
    method CodeNot(e: ExpDesc, ghost s0: Snap, ghost ts: seq<int>, ghost fs: seq<int>, ghost x: Expr, ghost base: int)
      returns (e': ExpDesc)
      requires Described(s0, e, ts, fs, x, base, -1) && RegsOk(e, base) && base < MAXREGS
      requires e.kind == VK ==> Truthy(k[e.info])
      modifies this`code, this`jpc, this`pend, this`jl, this`k, this`h, this`freereg, this`maxstacksize
      ensures Described(s0, e', fs, ts, ENot(x), base, -1) && RegsOk(e', base) && e'.kind != VK
    {
      hide Holds, WellFormed, Linked, LeavesVia, NoDup, HalfNot, IsList, Newer;
      var d := NegateValue(e, s0, ts, fs, x, base);
      e' := d.(t := d.f, f := d.t);
      ghost var s := S();
      NegatedLists(s0, s, d, ts, fs);
      NotDone(s0, s, d, ts, fs, x, cmp, orgs, lasttarget, base);
      RemoveValues(e'.f, ts);
      ListsDevalued(s.code, Elems(ts), d.f, fs);
      RemoveValues(e'.t, fs);
      DevaluedTwice(s.code, Elems(ts), Elems(fs));
      ListsDevalued(s.code, Elems(ts) + Elems(fs), jpc, jl);
    }

    lemma NegatedLists(s0: Snap, s: Snap, e: ExpDesc, ts: seq<int>, fs: seq<int>)
      requires Linked(s0, s, e, ts, fs)
      ensures NoDup(ts) && NoDup(fs) && IsList(s.code, e.t, ts) && IsList(s.code, e.f, fs)
    {
    }

    lemma ListsDevalued(c: seq<Instr>, l: set<int>, head: int, m: seq<int>)
      requires IsList(c, head, m)
      ensures IsList(Devalued(c, l), head, m)
    {
      ListMembers(c, head, m);
      ListKept(c, Devalued(c, l), head, m);
    }

    // ----- Binary operators -----

    /** The open exits `l` of the first operand join those of the second, `d`. */
    method JoinLogic(isAnd: bool, d: ExpDesc, head: int, ghost s0: Snap, ghost s1: Snap, ghost l: seq<int>,
                     ghost ts: seq<int>, ghost fs: seq<int>, ghost a: Expr, ghost b: Expr, ghost base: int)
      returns (e: ExpDesc)
      requires CondReady(s0, s1, l, isAnd, a, cmp, orgs, base) && IsList(s1.code, head, l)
      requires Valid() && Linked(s1, S(), d, ts, fs) && ShapeOk(S(), d, lasttarget)
      requires Holds(s1, S(), d, ts, fs, b, cmp, orgs, base, -1) && LocalsBelow(b, base)
      modifies this`code
      ensures Valid() && e == d.(t := e.t, f := e.f)
      ensures var ts', fs' := if isAnd then ts else ts + l, if isAnd then fs + l else fs;
        && Linked(s0, S(), e, ts', fs') && ShapeOk(S(), e, lasttarget)
        && Holds(s0, S(), e, ts', fs', if isAnd then EAnd(a, b) else EOr(a, b), cmp, orgs, base, -1)
    {
      hide Holds, WellFormed, Owned, KeptOn, LeavesVia, IsList, NoDup, CondHolds, ShapeOk, Newer;
      e := d;
      ghost var s2 := S();
      LogicLists(s0, s1, s2, d, head, l, ts, fs);
      if isAnd {
        var f := Concat(e.f, head, fs, l);
        e := e.(f := f);
        RelinkedLists(s2.code, code, fs, jpc, jl);
      } else {
        var t := Concat(e.t, head, ts, l);
        e := e.(t := t);
        RelinkedLists(s2.code, code, ts, jpc, jl);
      }
      LogicDone(s0, s1, s2, code, l, d, e, ts, fs, isAnd, a, b, cmp, orgs, lasttarget, base);
      assert S() == s2.(code := code);
    }

    /** luaK_posfix for `and` (isAnd) and `or`; `e1` has been through infix. */
    method PosfixLogic(isAnd: bool, e1: ExpDesc, e2: ExpDesc, ghost s0: Snap, ghost s1: Snap, ghost l: seq<int>,
                       ghost ts: seq<int>, ghost fs: seq<int>, ghost a: Expr, ghost b: Expr, ghost base: int)
      returns (e: ExpDesc)
      requires CondReady(s0, s1, l, isAnd, a, cmp, orgs, base) && LocalsBelow(a, nactvar)
      requires IsList(s1.code, if isAnd then e1.f else e1.t, l)
      requires Described(s1, e2, ts, fs, b, base, -1) && RegsOk(e2, base)
      requires e2.kind == VK ==> Truthy(k[e2.info])
      modifies this`code
      ensures Described(s0, e, if isAnd then ts else ts + l, if isAnd then fs + l else fs, if isAnd then EAnd(a,
          b) else EOr(a, b), base, -1)
      ensures RegsOk(e, base) && (e.kind == VK ==> Truthy(k[e.info]))
    {
      hide Holds, WellFormed, Owned, KeptOn, LeavesVia, IsList, NoDup, CondHolds, Kept, Truthy, Newer;
      var d := DischargeVars(e2);
      HoldsLocal(s1, S(), e2, ts, fs, b, cmp, orgs, base);
      SameLinks(s1, S(), e2, d, ts, fs);
      LocalsGrow(b, nactvar, base);
      e := JoinLogic(isAnd, d, if isAnd then e1.f else e1.t, s0, s1, l, ts, fs, a, b, base);
    }

    lemma {:induction false} LocalsGrow(x: Expr, n: int, m: int)
      requires LocalsBelow(x, n) && n <= m
      ensures LocalsBelow(x, m)
    {
      match x
      case ENot(e) => LocalsGrow(e, n, m);
      case EAnd(a, b) => LocalsGrow(a, n, m); LocalsGrow(b, n, m);
      case EOr(a, b) => LocalsGrow(a, n, m); LocalsGrow(b, n, m);
      case ERel(_, a, b) => LocalsGrow(a, n, m); LocalsGrow(b, n, m);
      case _ =>
    }

    lemma LogicLists(s0: Snap, s1: Snap, s2: Snap, e: ExpDesc, head: int, l: seq<int>, ts: seq<int>, fs: seq<int>)
      requires Owned(s0, s1, [], l, []) && IsList(s1.code, head, l) && Linked(s1, s2, e, ts, fs)
      ensures IsList(s2.code, head, l) && IsList(s2.code, e.t, ts) && IsList(s2.code, e.f, fs)
      ensures NoDup(ts) && NoDup(fs) && Apart(ts, l) && Apart(fs, l) && Apart(ts, s2.jl) && Apart(fs, s2.jl)
    {
      assert forall j | j in l :: j in Outer(s1);
      ListKeptOn(s1, s2, Outer(s1), head, l);
    }

    /** codecomp; the operands of `>`, `>=` are exchanged, `~=` keeps their order. */
    method CodeComp(op: RelOp, e1: ExpDesc, e2: ExpDesc, ghost s0: Snap, ghost s1: Snap, ghost ts: seq<int>,
        ghost fs: seq<int>, ghost a: Expr, ghost b: Expr, ghost base: int, ghost base2: int)
      returns (e: ExpDesc)
      requires Holds(s0, s1, e1, [], [], a, cmp, orgs, base, -1) && RKOk(e1) && Linked(s0, s1, e1, [], [])
      requires LeavesVia(s0, cmp, orgs, Outer(s0)) && nactvar <= base && LocalsBelow(a, nactvar)
      requires e1.t == NO_JUMP && e1.f == NO_JUMP
      requires e1.kind == VK ==> e1.info < |s1.k|
      requires e1.kind == VNonReloc ==> 0 <= e1.info < base2
      requires if IsTemp(e1) then e1.info == base && base2 == base + 1 else base2 == base
      requires Described(s1, e2, ts, fs, b, base2, -1) && RegsOk(e2, base2) && base2 < MAXREGS
      modifies this`code, this`jpc, this`pend, this`jl, this`lasttarget, this`k, this`h, this`freereg, this`maxstacksize
      ensures Described(s0, e, [], [], ERel(op, a, b), base, -1) && e.kind == VJmp && freereg == base
    {
      hide Holds, WellFormed, Linked, LeavesVia, IsList, NoDup, SnapOk, Newer;
      var o1 := RKOf(e1);    // exp2RK, which infix has already applied
      var d, o2 := Exp2RK(e2, s1, ts, fs, b, base2);
      FreeExp(d);
      FreeExp(e1);
      e := EmitCompare(op, o1, o2, s0, s1, e1, d, a, b, base, base2);
    }

    /** `>` and `>=` become `<` and `<=` with exchanged operands. */
    method ComparisonTest(op: RelOp, rk1: int, rk2: int) returns (t: Instr)
      ensures t == CompareInstr(op, rk1, rk2)
      ensures (op == Lt ==> t == Cmp(CLt, 1, rk1, rk2)) && (op == Gt ==> t == Cmp(CLt, 1, rk2, rk1))
      ensures (op == Le ==> t == Cmp(CLe, 1, rk1, rk2)) && (op == Ge ==> t == Cmp(CLe, 1, rk2, rk1))
      ensures (op == Eq ==> t == Cmp(CEq, 1, rk1, rk2)) && (op == Ne ==> t == Cmp(CEq, 0, rk1, rk2))
    {
      var opcode := if op == Eq || op == Ne then CEq else if op == Lt || op == Gt then CLt else CLe;
      var cond := if op == Ne || op == Gt || op == Ge then 0 else 1;
      var o1, o2 := rk1, rk2;
      if cond == 0 && opcode != CEq {
        o1, o2 := o2, o1;
        cond := 1;
      }
      t := Cmp(opcode, cond, o1, o2);
    }

    method EmitCompare(op: RelOp, rk1: int, rk2: int, ghost s0: Snap, ghost s1: Snap, ghost e1: ExpDesc,
        ghost e2: ExpDesc, ghost a: Expr, ghost b: Expr, ghost base: int, ghost base2: int)
      returns (e: ExpDesc)
      requires Holds(s0, s1, e1, [], [], a, cmp, orgs, base, -1) && RKOk(e1) && Linked(s0, s1, e1, [], [])
      requires LeavesVia(s0, cmp, orgs, Outer(s0)) && nactvar <= base <= base2 < MAXREGS && LocalsBelow(a, nactvar)
      requires e1.kind == VK ==> e1.info < |s1.k|
      requires e1.kind == VNonReloc ==> 0 <= e1.info < base2
      requires Described(s1, e2, [], [], b, base2, -1) && RKOk(e2)
      requires rk1 == RKOf(e1) && rk2 == RKOf(e2)
      modifies this`code, this`jpc, this`pend, this`jl
      ensures Described(s0, e, [], [], ERel(op, a, b), base, -1) && e.kind == VJmp
    {
      hide Holds, WellFormed, Owned, KeptOn, LeavesVia, IsList, NoDup, Newer;
      ghost var s2 := S();
      var t := ComparisonTest(op, rk1, rk2);
      LocalsGrow(b, nactvar, base);
      FreshPosition(s2, orgs, lasttarget);
      LinkedConstants(s1, s2, e2);
      var info := CondJump(t);
      e := ExpDesc(VJmp, info, 0, NO_JUMP, NO_JUMP);
      CompareDone(s0, s1, s2, S(), t, e1, e2, e, a, b, op, base, base2, lasttarget);
      ListEmpty(code, jpc, jl);
    }

    lemma LinkedConstants(s: Snap, s': Snap, e: ExpDesc)
      requires Linked(s, s', e, [], [])
      ensures s.k <= s'.k
    {
    }

    lemma CompareDone(s0: Snap, s1: Snap, s2: Snap, s3: Snap, t: Instr, e1: ExpDesc, e2: ExpDesc, e: ExpDesc, a: Expr,
        b: Expr, op: RelOp, base: int, base2: int, last: int)
      requires Holds(s0, s1, e1, [], [], a, cmp, orgs, base, -1) && RKOk(e1) && base <= base2 < MAXREGS
          && LocalsBelow(b, base)
      requires e1.kind == VNonReloc ==> 0 <= e1.info < base2
      requires e1.kind == VK ==> e1.info < |s1.k|
      requires Holds(s1, s2, e2, [], [], b, cmp, orgs, base2, -1) && RKOk(e2) && s1.k <= s2.k
      requires e2.kind == VNonReloc ==> 0 <= e2.info < MAXREGS
      requires e2.kind == VK ==> e2.info < |s2.k|
      requires SnapOk(s2, orgs, last) && t == CompareInstr(op, RKOf(e1), RKOf(e2)) && s3 == AppendCond(Discharge(s2), t)
      requires Linked(s0, s1, e1, [], []) && Linked(s1, s2, e2, [], [])
      requires e == ExpDesc(VJmp, |s2.code| + 1, 0, NO_JUMP, NO_JUMP)
      ensures SnapOk(s3, orgs, last) && Linked(s0, s3, e, [], []) && ShapeOk(s3, e, last)
      ensures Holds(s0, s3, e, [], [], ERel(op, a, b), cmp, orgs, base, -1)
    {
      hide Holds, WellFormed, Owned, KeptOn, IsList, NoDup, Newer;
      FreshPosition(s2, orgs, last);
      KeptOuter(s2, s3, t, orgs, last);
      CompareLinked(s0, s1, s2, s3, e1, e2, e);
      CompareHolds(s0, s1, s2, e1, e2, a, b, op, t, e, cmp, orgs, base, base2, last);
    }

    lemma KeptOuter(s: Snap, s': Snap, t: Instr, orgs: set<int>, last: int)
      requires SnapOk(s, orgs, last) && s' == AppendCond(Discharge(s), t) && TMode(t) && OperandsOk(t, |s.k|)
      ensures Kept(s, s') && s'.jl == [] && s'.pend == Outer(s) + {|s.code| + 1}
    {
      hide WellFormed, Newer;
      DischargeFlow(s, cmp, orgs, last);
      AppendCondFlow(Discharge(s), t, cmp, orgs, last);
      KeptOnward(s, Discharge(s), s', Outer(s));
    }

    lemma KeptOnward(s: Snap, s1: Snap, s2: Snap, o: set<int>)
      requires KeptOn(s, s1, o) && Kept(s1, s2)
      ensures KeptOn(s, s2, o)
    {
    }

    lemma NoLists(s0: Snap, s: Snap, e: ExpDesc)
      requires Linked(s0, s, e, [], [])
      ensures e.t == NO_JUMP && e.f == NO_JUMP
    {
    }

    lemma FreshPosition(s: Snap, orgs: set<int>, last: int)
      requires SnapOk(s, orgs, last)
      ensures |s.code| + 1 !in s.pend && NoDup(s.jl) && last <= |s.code|
    {
    }

    // ----- Whole expressions -----

    /** Compiles `x` in the order the parser calls infix, prefix and posfix
        (subexpr): the descriptor stands for the expression's value. */
    method Compile(x: Expr) returns (e: ExpDesc, ghost ts: seq<int>, ghost fs: seq<int>)
      requires Valid() && LocalsBelow(x, nactvar) && freereg + Registers(x) <= MAXREGS
      modifies this`code, this`jpc, this`pend, this`jl, this`lasttarget, this`k, this`h, this`freereg, this`maxstacksize
      ensures Described(old(S()), e, ts, fs, x, old(freereg), -1) && RegsOk(e, old(freereg))
      ensures e.kind == VK ==> Truthy(k[e.info])
      decreases Size(x), 1
    {
      hide Holds, WellFormed, Linked, LeavesVia, NoDup, CondReady, Newer;
      ghost var s0 := S();
      ghost var base := freereg;
      ts, fs := [], [];
      match x {
        case ENot(a) =>
          var e1, ts1, fs1 := Compile(a);
          e := CodeNot(e1, s0, ts1, fs1, a, base);
          ts, fs := fs1, ts1;
        case EAnd(a, b) =>
          e, ts, fs := CompileLogic(true, a, b);
        case EOr(a, b) =>
          e, ts, fs := CompileLogic(false, a, b);
        case ERel(op, a, b) =>
          e := CompileRel(op, a, b);
        case _ =>
          e := Simple(x);
      }
    }

    /** simpleexp, and a local variable. */
    method Simple(x: Expr) returns (e: ExpDesc)
      requires Valid() && LocalsBelow(x, nactvar)
      requires x.ENil? || x.ETrue? || x.EFalse? || x.ENum? || x.EStr? || x.ELocal?
      modifies this`k, this`h
      ensures Described(old(S()), e, [], [], x, freereg, -1) && RegsOk(e, freereg)
      ensures e.kind == VK ==> Truthy(k[e.info])
    {
      hide SnapOk, Described;
      ghost var s := S();
      match x {
        case ENil => e := ExpDesc(VNil, 0, 0, NO_JUMP, NO_JUMP);
        case ETrue => e := ExpDesc(VTrue, 0, 0, NO_JUMP, NO_JUMP);
        case EFalse => e := ExpDesc(VFalse, 0, 0, NO_JUMP, NO_JUMP);
        case ENum(n) => e := ExpDesc(VKNum, 0, n, NO_JUMP, NO_JUMP);
        case EStr(str) =>
          var idx := AddK(Str(str));
          e := ExpDesc(VK, idx, 0, NO_JUMP, NO_JUMP);
        case ELocal(r) => e := ExpDesc(VLocal, r, 0, NO_JUMP, NO_JUMP);
      }
      SimpleDone(s, e, x);
    }

    lemma SimpleDone(s: Snap, e: ExpDesc, x: Expr)
      requires SnapOk(s, orgs, lasttarget) && IsList(code, jpc, jl) && ConstantsOk()
          && 0 <= nactvar <= freereg <= maxstacksize <= MAXREGS
      requires S() == s.(k := k) && s.k <= k && LocalsBelow(x, nactvar)
      requires e.kind != VJmp && e.kind != VReloc && e.kind != VNonReloc && e.t == NO_JUMP && e.f == NO_JUMP
          && OperandOk(e)
      requires forall rs: Regs :: Denotes(S(), e, rs) == Eval(x, cmp, rs)
      ensures Described(s, e, [], [], x, freereg, -1) && RegsOk(e, freereg)
    {
      hide Holds, LeavesVia, Flow;
      LeavesViaOuter(s, cmp, orgs, lasttarget);
      MoreConstantsFlow(s, k, cmp, orgs, lasttarget);
      SimpleHolds(s, S(), e, x, cmp, orgs, freereg);
    }

    /** luaK_infix and luaK_posfix around the second operand of `and` / `or`. */
    method CompileLogic(isAnd: bool, a: Expr, b: Expr) returns (e: ExpDesc, ghost ts: seq<int>, ghost fs: seq<int>)
      requires Valid() && LocalsBelow(a, nactvar) && LocalsBelow(b, nactvar)
      requires freereg + Registers(a) <= MAXREGS && freereg + Registers(b) <= MAXREGS
      modifies this`code, this`jpc, this`pend, this`jl, this`lasttarget, this`k, this`h, this`freereg, this`maxstacksize
      ensures Described(old(S()), e, ts, fs, if isAnd then EAnd(a, b) else EOr(a, b), old(freereg), -1)
          && RegsOk(e, old(freereg))
      ensures e.kind == VK ==> Truthy(k[e.info])
      decreases Size(a) + Size(b) + 1, 0
    {
      hide Holds, WellFormed, Linked, LeavesVia, NoDup, CondReady, IsList, Newer;
      ghost var s0 := S();
      ghost var base := freereg;
      var e1, ts1, fs1 := Compile(a);
      ghost var l;
      if isAnd {
        e1, l := GoIfTrue(e1, s0, ts1, fs1, a, base);
      } else {
        e1, l := GoIfFalse(e1, s0, ts1, fs1, a, base);
      }
      ghost var s1 := S();
      var e2, ts2, fs2 := Compile(b);
      e := PosfixLogic(isAnd, e1, e2, s0, s1, l, ts2, fs2, a, b, base);
      ts, fs := if isAnd then ts2 else ts2 + l, if isAnd then fs2 + l else fs2;
    }

    method CompileRel(op: RelOp, a: Expr, b: Expr) returns (e: ExpDesc)
      requires Valid() && LocalsBelow(a, nactvar) && LocalsBelow(b, nactvar)
      requires freereg + Registers(a) <= MAXREGS && freereg + 1 + Registers(b) <= MAXREGS
      modifies this`code, this`jpc, this`pend, this`jl, this`lasttarget, this`k, this`h, this`freereg, this`maxstacksize
      ensures Described(old(S()), e, [], [], ERel(op, a, b), old(freereg), -1) && e.kind == VJmp
          && freereg == old(freereg)
      decreases Size(a) + Size(b) + 1, 0
    {
      hide Holds, WellFormed, LeavesVia, NoDup, IsList, Owned, KeptOn, Newer;
      ghost var s0 := S();
      ghost var base := freereg;
      var e1, ts1, fs1 := Compile(a);
      var o1;
      e1, o1 := Exp2RK(e1, s0, ts1, fs1, a, base);
      NoLists(s0, S(), e1);
      ghost var s1 := S();
      var e2, ts2, fs2 := Compile(b);
      e := CodeComp(op, e1, e2, s0, s1, ts2, fs2, a, b, base, if IsTemp(e1) then base + 1 else base);
    }

    // ----- What the parser does with an expression -----

    /** After the code of an expression: control that fell out before now falls
        out with the value in `reg` and the registers below `base` as before;
        exits of other expressions are taken exactly as before. */
    ghost predicate Delivers(s0: Snap, reg: int, x: Expr, base: int, dst: int)
      reads this
    {
      forall st: Start ::
        var o, o' := Flow(s0, cmp, orgs, st), Flow(S(), cmp, orgs, st);
        && (o.Fall? && |o.rs.vals| == MAXREGS ==>
              o'.Fall? && Get(o'.rs, reg) == Eval(x, cmp, o.rs) && Agree(o'.rs, o.rs, base, dst))
        && (!o.Fall? ==> o' == o)
    }

    lemma ResultDelivers(s0: Snap, e: ExpDesc, x: Expr, base: int, dst: int)
      requires Described(s0, e, [], [], x, base, dst) && e.kind == VNonReloc
      ensures Delivers(s0, e.info, x, base, dst)
      ensures pend == Outer(s0) + Elems(jl) && Newer(s0, S())
    {
      assert forall j :: j in pend <==> j in Outer(s0) || j in jl;
      forall st: Start ensures
        var o, o' := Flow(s0, cmp, orgs, st), Flow(S(), cmp, orgs, st);
        && (o.Fall? && |o.rs.vals| == MAXREGS ==>
              o'.Fall? && Get(o'.rs, e.info) == Eval(x, cmp, o.rs) && Agree(o'.rs, o.rs, base, dst))
        && (!o.Fall? ==> o' == o)
      {
        assert Matches(Flow(s0, cmp, orgs, st), Flow(Body(S(), e), cmp, orgs, st), S(), e, [], [], x, cmp, base, dst);
      }
    }

    /** An expression on top of the stack, as for an argument. */
    method ExprToNextReg(x: Expr) returns (reg: int)
      requires Valid() && LocalsBelow(x, nactvar) && freereg + Registers(x) <= MAXREGS
      modifies this`code, this`jpc, this`pend, this`jl, this`lasttarget, this`k, this`h, this`freereg, this`maxstacksize
      ensures Valid() && reg == old(freereg) && freereg == reg + 1
      ensures Delivers(old(S()), reg, x, old(freereg), -1)
      ensures Kept(old(S()), S()) && Newer(old(S()), S()) && pend == Outer(old(S())) + Elems(jl)
    {
      hide Holds, WellFormed, LeavesVia, NoDup, IsList, Owned, KeptOn, Newer;
      ghost var s0 := S();
      ghost var base := freereg;
      var e, ts, fs := Compile(x);
      e := Exp2NextReg(e, s0, ts, fs, x, base);
      ResultDelivers(s0, e, x, base, -1);
      reg := e.info;
    }

    /** luaK_storevar to a local variable: the local gets the value, the other
        registers in use keep theirs. */
    method StoreLocal(x: Expr, r: int)
      requires Valid() && LocalsBelow(x, nactvar) && freereg + Registers(x) <= MAXREGS && 0 <= r < nactvar
      modifies this`code, this`jpc, this`pend, this`jl, this`lasttarget, this`k, this`h, this`freereg, this`maxstacksize
      ensures Valid() && freereg == old(freereg)
      ensures Delivers(old(S()), r, x, old(freereg), r)
      ensures Kept(old(S()), S()) && Newer(old(S()), S()) && pend == Outer(old(S())) + Elems(jl)
    {
      hide Holds, WellFormed, LeavesVia, NoDup, IsList, Owned, KeptOn, Newer;
      ghost var s0 := S();
      ghost var base := freereg;
      var e, ts, fs := Compile(x);
      FreeExp(e);
      e := Exp2Reg(e, r, s0, ts, fs, x, base, r);
      ResultDelivers(s0, e, x, base, r);
    }

    /** The code for `r = p op q` on locals that hold numbers leaves just the boolean
        of that comparison in `r`, and the other registers in use as they were. */
    lemma ComparisonStored(s0: Snap, r: int, op: RelOp, p: nat, q: nat, base: int, st: Start, x: int, y: int)
      requires Delivers(s0, r, ERel(op, ELocal(p), ELocal(q)), base, r) && Orders(cmp)
      requires 0 <= r < base <= MAXREGS && p < MAXREGS && q < MAXREGS
      requires var o := Flow(s0, cmp, orgs, st);
        o.Fall? && |o.rs.vals| == MAXREGS && o.rs.vals[p] == Number(x) && o.rs.vals[q] == Number(y)
      ensures var o, o' := Flow(s0, cmp, orgs, st), Flow(S(), cmp, orgs, st);
        && o'.Fall? && |o'.rs.vals| == MAXREGS && o'.rs.turns == o.rs.turns
        && o'.rs.vals[r] == Bool(match op
             case Lt => x < y case Gt => x > y case Le => x <= y case Ge => x >= y case Eq => x == y case Ne => x != y)
        && forall j | 0 <= j < base && j != r :: o'.rs.vals[j] == o.rs.vals[j]
    {
      hide Flow, RelVal;
      var o, o' := Flow(s0, cmp, orgs, st), Flow(S(), cmp, orgs, st);
      EvalNumbers(ELocal(p), ELocal(q), cmp, o.rs, x, y);
      assert Agree(o'.rs, o.rs, base, r) && Get(o'.rs, r) == Eval(ERel(op, ELocal(p), ELocal(q)), cmp, o.rs);
      forall j | 0 <= j < base && j != r ensures o'.rs.vals[j] == o.rs.vals[j] {
        assert Get(o.rs, j) == Get(o'.rs, j);
      }
    }

    /** The condition of a statement: control falls through iff the value is
        true, and otherwise leaves through the list `head`. */
    method Condition(x: Expr) returns (head: int, ghost l: seq<int>)
      requires Valid() && LocalsBelow(x, nactvar) && freereg + Registers(x) <= MAXREGS
      modifies this`code, this`jpc, this`pend, this`jl, this`lasttarget, this`k, this`h, this`freereg, this`maxstacksize
      ensures Valid() && freereg == old(freereg) && lasttarget == |code|
      ensures IsList(code, head, l) && NoDup(l) && Apart(l, jl)
      ensures Kept(old(S()), S()) && Newer(old(S()), S()) && forall j | j in l ::
          j in Outer(S()) && j !in Outer(old(S())) && |old(code)| <= j
      ensures forall j | j in pend :: j in Outer(old(S())) || j in jl || j in l
      ensures forall st: Start :: ConditionAt(Flow(old(S()), cmp, orgs, st), Flow(S(), cmp, orgs, st), l, x, cmp,
          old(freereg))
    {
      ghost var s0 := S();
      ghost var base := freereg;
      var e, ts, fs := Compile(x);
      e, l := GoIfTrue(e, s0, ts, fs, x, base);
      head := e.f;
      forall st: Start ensures ConditionAt(Flow(s0, cmp, orgs, st), Flow(S(), cmp, orgs, st), l, x, cmp, base) {
        assert CondMatches(Flow(s0, cmp, orgs, st), Flow(S(), cmp, orgs, st), S(), l, true, x, cmp, base);
      }
    }
  }

  function Size(x: Expr): nat {
    match x
    case ENot(a) => 1 + Size(a)
    case EAnd(a, b) => 1 + Size(a) + Size(b)
    case EOr(a, b) => 1 + Size(a) + Size(b)
    case ERel(_, a, b) => 1 + Size(a) + Size(b)
    case _ => 1
  }

  /** Registers that are enough to evaluate an expression. */
  function Registers(x: Expr): (n: nat)
    ensures n >= 1
  {
    match x
    case ENot(a) => Registers(a)
    case EAnd(a, b) => var m, n := Registers(a), Registers(b); if m > n then m else n
    case EOr(a, b) => var m, n := Registers(a), Registers(b); if m > n then m else n
    case ERel(_, a, b) => var m, n := Registers(a), 1 + Registers(b); if m > n then m else n
    case _ => 1
  }
}
