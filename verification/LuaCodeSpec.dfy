/** What the code generator promises about unfinished code: jump lists, the
    flow of a code snapshot, and how an expression descriptor denotes a source
    expression (modules/lua/lcode.c, modules/lua/lparser.h). */
module LuaCodeSpec {
  import opened Common
  import opened LuaVm
  import opened LuaPatch

  const MAXREGS: nat := 249     // registers a function may use (below MAXSTACK)

  // ----- Jump lists threaded through the offsets of pending jumps -----

  function GetJump(code: seq<Instr>, pc: int): int
    requires 0 <= pc < |code| && code[pc].Jmp?
  {
    if code[pc].sbx == NO_JUMP then NO_JUMP else pc + 1 + code[pc].sbx
  }

  ghost predicate IsList(code: seq<Instr>, head: int, l: seq<int>)
    decreases |l|
  {
    if l == [] then head == NO_JUMP
    else
      && head == l[0] && 0 <= head < |code| && code[head].Jmp?
      && IsList(code, GetJump(code, head), l[1..])
  }

  ghost predicate Apart(l: seq<int>, m: seq<int>) {
    forall j | j in l :: j !in m
  }

  lemma {:induction false} NoDupJoined(l: seq<int>, m: seq<int>)
    requires NoDup(l) && NoDup(m) && Apart(l, m)
    ensures NoDup(l + m)
  {
    var s := l + m;
    forall i, j | 0 <= i < j < |s| ensures s[i] != s[j] {
      if i < |l| <= j {
        assert s[i] == l[i] && s[j] == m[j - |l|];
        assert l[i] in l && m[j - |l|] in m;
      }
    }
  }

  lemma {:induction false} NoDupSplit(l: seq<int>, m: seq<int>)
    requires NoDup(l + m)
    ensures NoDup(l) && NoDup(m) && Apart(l, m)
  {
    var s := l + m;
    assert forall i | 0 <= i < |l| :: s[i] == l[i];
    assert forall i | 0 <= i < |m| :: s[|l| + i] == m[i];
    forall j | j in l ensures j !in m {
      var x :| 0 <= x < |l| && l[x] == j;
      forall y | 0 <= y < |m| ensures m[y] != j {
        assert s[|l| + y] == m[y] && s[x] == j;
      }
    }
  }

  function Elems(l: seq<int>): set<int> {
    set j | j in l
  }

  lemma {:induction false} ListMembers(code: seq<Instr>, head: int, l: seq<int>)
    requires IsList(code, head, l)
    ensures forall j | j in l :: 0 <= j < |code| && code[j].Jmp?
    decreases |l|
  {
    if l != [] {
      ListMembers(code, GetJump(code, head), l[1..]);
      assert forall j | j in l :: j == l[0] || j in l[1..];
    }
  }

  /** A list only depends on the offsets of its own members. */
  lemma {:induction false} ListKept(code: seq<Instr>, code': seq<Instr>, head: int, l: seq<int>)
    requires IsList(code, head, l)
    requires forall j | j in l && 0 <= j < |code| :: j < |code'| && code'[j] == code[j]
    ensures IsList(code', head, l)
    decreases |l|
  {
    if l != [] {
      assert forall j | j in l[1..] :: j in l;
      ListKept(code, code', GetJump(code, head), l[1..]);
    }
  }

  /** Linking the last jump of one list to the head of another joins them. */
  lemma {:induction false} ListJoined(code: seq<Instr>, code': seq<Instr>, h1: int, l1: seq<int>, h2: int, l2: seq<int>)
    requires IsList(code, h1, l1) && IsList(code, h2, l2) && l1 != [] && l2 != []
    requires NoDup(l1) && Apart(l1, l2)
    requires |code'| == |code|
    requires var z := l1[|l1| - 1];
             && (forall i | 0 <= i < |code| && i != z :: code'[i] == code[i])
             && (0 <= z < |code| ==> code'[z].Jmp? && code'[z].sbx == h2 - (z + 1))
    ensures IsList(code', h1, l1 + l2)
    decreases |l1|
  {
    var z := l1[|l1| - 1];
    ListMembers(code, h1, l1);
    assert z in l1;
    assert (l1 + l2)[1..] == l1[1..] + l2;
    assert h2 == l2[0];
    if |l1| == 1 {
      assert l1[1..] + l2 == l2;
      assert z !in l2;
      ListKept(code, code', h2, l2);
      assert GetJump(code', h1) == h2;
    } else {
      assert l1[0] != z;
      assert forall j | j in l1[1..] :: j in l1;
      assert l1[1..][|l1[1..]| - 1] == z;
      ListJoined(code, code', GetJump(code, h1), l1[1..], h2, l2);
    }
  }

  // ----- Patching -----

  /** The instruction that decides whether jump `j` happens stores a value. */
  predicate HasValue(code: seq<Instr>, j: int) {
    1 <= j <= |code| && code[j - 1].TestSet?
  }

  /** patchtestreg on a TESTSET. */
  function Settle(i: Instr, reg: int): Instr
    requires i.TestSet?
  {
    if reg != NO_REG && reg != i.b then TestSet(reg, i.b, i.c) else Test(i.b, i.c)
  }

  function PatchedAt(c: seq<Instr>, i: int, s: set<int>, vtarget: int, reg: int, dtarget: int): Instr
    requires 0 <= i < |c|
  {
    if i in s && c[i].Jmp? then Jmp(c[i].a, (if HasValue(c, i) then vtarget else dtarget) - (i + 1))
    else if i + 1 in s && c[i].TestSet? then Settle(c[i], reg)
    else c[i]
  }

  /** patchlistaux over the jumps in `s`. */
  function Patched(c: seq<Instr>, s: set<int>, vtarget: int, reg: int, dtarget: int): seq<Instr> {
    seq(|c|, i requires 0 <= i < |c| => PatchedAt(c, i, s, vtarget, reg, dtarget))
  }

  /** removevalues over the jumps in `s`. */
  function Devalued(c: seq<Instr>, s: set<int>): seq<Instr> {
    seq(|c|, i requires 0 <= i < |c| =>
      if i + 1 in s && c[i].TestSet? then Settle(c[i], NO_REG) else c[i])
  }

  /** One more jump patched. */
  lemma {:induction false} PatchedStep(c0: seq<Instr>, done: set<int>, j: int, vtarget: int, reg: int, dtarget: int)
    requires 0 <= j < |c0| && c0[j].Jmp? && j !in done
    ensures var c := Patched(c0, done, vtarget, reg, dtarget);
      && HasValue(c, j) == HasValue(c0, j)
      && (HasValue(c0, j) ==> c[j - 1] == c0[j - 1])
      && c[j] == c0[j]
      && |c| == |c0|
      && var c1 := if HasValue(c, j) then c[j - 1 := Settle(c[j - 1], reg)] else c;
         Patched(c0, done + {j}, vtarget, reg, dtarget) ==
         c1[j := Jmp(c0[j].a, Target(c0, j, vtarget, dtarget) - (j + 1))]
  {
  }

  lemma {:induction false} DevaluedStep(c0: seq<Instr>, done: set<int>, j: int)
    requires 0 <= j < |c0| && c0[j].Jmp? && j !in done
    ensures var c := Devalued(c0, done);
      && HasValue(c, j) == HasValue(c0, j)
      && (HasValue(c0, j) ==> c[j - 1] == c0[j - 1])
      && c[j] == c0[j] && Devalued(c0, done + {j})[j] == c0[j] && |Devalued(c0, done + {j})| == |c| == |c0|
      && Devalued(c0, done + {j}) == if HasValue(c, j) then c[j - 1 := Settle(c[j - 1], NO_REG)] else c
  {
  }

  function Target(code: seq<Instr>, j: int, vtarget: int, dtarget: int): int {
    if HasValue(code, j) then vtarget else dtarget
  }

  lemma {:induction false} NothingPatched(c: seq<Instr>, vtarget: int, reg: int, dtarget: int)
    ensures Patched(c, {}, vtarget, reg, dtarget) == c && Devalued(c, {}) == c
  {
  }

  /** Walking a list: the `n`-th member and what is left after it. */
  lemma {:induction false} ListAdvance(code: seq<Instr>, cur: int, l: seq<int>, n: nat)
    requires n <= |l| && NoDup(l) && IsList(code, cur, l[n..])
    ensures cur == NO_JUMP ==> n == |l|
    ensures cur != NO_JUMP ==>
      && n < |l| && l[n] == cur && 0 <= cur < |code| && code[cur].Jmp?
      && IsList(code, GetJump(code, cur), l[n + 1..])
      && Elems(l[..n + 1]) == Elems(l[..n]) + {cur}
      && cur !in Elems(l[..n]) && cur !in l[n + 1..]
    ensures n == 0 ==> Elems(l[..n]) == {}
    ensures n == |l| ==> Elems(l[..n]) == Elems(l)
  {
    assert n == |l| ==> l[..n] == l;
    if n < |l| {
      assert l[n..][1..] == l[n + 1..];
      assert l[..n + 1] == l[..n] + [l[n]];
      assert forall j :: j in Elems(l[..n + 1]) <==> j in Elems(l[..n]) + {l[n]};
    }
  }

  // ----- Snapshots and their flow -----

  /** Code with its pending jumps; those in `jl` (the list jpc) go to the
      position after the last instruction. */
  datatype Snap = Snap(code: seq<Instr>, pend: set<int>, jl: seq<int>, k: seq<Value>)

  function Settled(o: Outcome, jl: seq<int>): Outcome {
    if o.Jump? && o.at in jl then Fall(o.rs) else o
  }

  /** Where a run begins: at a label, or else at the beginning. */
  datatype Start = Start(pc: int, rs: Regs)

  function From(orgs: set<int>, st: Start): int {
    if st.pc in orgs then st.pc else 0
  }

  function Flow(s: Snap, cmp: Comparer, orgs: set<int>, st: Start): Outcome {
    Settled(Run(s.code, s.pend, s.k, cmp, From(orgs, st), st.rs), s.jl)
  }

  /** The run itself, with the jumps in `jl` still pending. */
  function Raw(s: Snap, cmp: Comparer, orgs: set<int>, st: Start): Outcome {
    Run(s.code, s.pend, s.k, cmp, From(orgs, st), st.rs)
  }

  /** The jumps that belong to someone else: all pending ones but the list jpc. */
  function Outer(s: Snap): set<int> {
    s.pend - Elems(s.jl)
  }

  /** The jumps in `o` are pending before and after, untouched. */
  ghost predicate KeptOn(s: Snap, s': Snap, o: set<int>) {
    && s.k <= s'.k
    && forall j | j in o ::
         && j in Outer(s) && j in Outer(s') && 0 <= j < |s.code| && j < |s'.code|
         && s'.code[j] == s.code[j] && HasValue(s'.code, j) == HasValue(s.code, j)
  }

  ghost predicate Kept(s: Snap, s': Snap) {
    KeptOn(s, s', Outer(s))
  }

  ghost predicate SnapOk(s: Snap, orgs: set<int>, last: int) {
    && WellFormed(s.code, s.pend, s.k, orgs, last)
    && NoDup(s.jl) && (forall j | j in s.jl :: j in s.pend)
    && (s.jl != [] ==> last == |s.code|)
  }

  // ----- Expression descriptors -----

  datatype Kind = VNil | VTrue | VFalse | VK | VKNum | VNonReloc | VLocal | VJmp | VReloc

  datatype ExpDesc = ExpDesc(kind: Kind, info: int, nval: int, t: int, f: int)

  /** The code before a still relocatable last instruction. */
  function Body(s: Snap, e: ExpDesc): Snap {
    if e.kind == VReloc && 0 <= e.info <= |s.code| then s.(code := s.code[..e.info]) else s
  }

  /** The value a descriptor stands for when control reaches the end of the code. */
  function Denotes(s: Snap, e: ExpDesc, rs: Regs): Value {
    match e.kind
    case VNil => Nil
    case VTrue => Bool(true)
    case VFalse => Bool(false)
    case VK => GetK(s.k, e.info)
    case VKNum => Number(e.nval)
    case VNonReloc | VLocal => Get(rs, e.info)
    case VJmp => Bool(false)
    case VReloc =>
      if 0 <= e.info < |s.code| && s.code[e.info].NotI? then Bool(!Truthy(Get(rs, s.code[e.info].b))) else Nil
  }

  ghost predicate Agree(rs: Regs, rs1: Regs, base: int, dst: int) {
    && |rs.vals| == |rs1.vals| == MAXREGS && rs.turns == rs1.turns
    && forall r | 0 <= r < base && r != dst :: Get(rs, r) == Get(rs1, r)
  }

  /** A jump taken with this value: the list of true or of false exits, with
      the value itself if one is stored and the plain boolean otherwise. */
  ghost predicate ExitOk(s: Snap, l: seq<int>, sense: bool, o: Outcome, v: Value)
    requires o.Jump?
  {
    && o.at in l
    && Truthy(v) == sense
    && (o.stored.Stored? <==> HasValue(s.code, o.at))
    && v == (if o.stored.Stored? then o.stored.value else Bool(sense))
  }

  /** `o`: flow before the expression; `o'`: flow after it. */
  ghost predicate Matches(o: Outcome, o': Outcome, s': Snap, e: ExpDesc, ts: seq<int>, fs: seq<int>,
                          x: Expr, cmp: Comparer, base: int, dst: int)
  {
    match o
    case Jump(_, _, _) | Spent | Stuck => o' == o
    case Fall(rs1) =>
      |rs1.vals| == MAXREGS ==>
        match o'
        case Spent | Stuck => false
        case Fall(rs) => Agree(rs, rs1, base, dst) && Denotes(s', e, rs) == Eval(x, cmp, rs1)
        case Jump(j, rs, v) =>
          && Agree(rs, rs1, base, dst)
          && (|| ExitOk(s', ts, true, o', Eval(x, cmp, rs1))
              || ExitOk(s', fs, false, o', Eval(x, cmp, rs1))
              || (e.kind == VJmp && ExitOk(s', [e.info], true, o', Eval(x, cmp, rs1))))
  }

  /** Descriptor `e` with exit lists `ts` and `fs` stands for `x`: for every
      start, control falls out of the new code with the value where `e` says,
      or leaves through an exit of the right sense; registers below `base`
      (other than `dst`) are as they were. */
  ghost predicate Holds(s: Snap, s': Snap, e: ExpDesc, ts: seq<int>, fs: seq<int>,
                        x: Expr, cmp: Comparer, orgs: set<int>, base: int, dst: int)
  {
    forall st: Start :: Matches(Flow(s, cmp, orgs, st), Flow(Body(s', e), cmp, orgs, st), s', e, ts, fs, x, cmp, base,
        dst)
  }

  /** luaK_concat only rewires pending jumps. */
  ghost predicate Relinked(c: seq<Instr>, c': seq<Instr>, l: seq<int>) {
    && |c'| == |c|
    && forall i | 0 <= i < |c| :: c'[i] == c[i] || (i in l && c[i].Jmp? && c'[i].Jmp? && c'[i].a == c[i].a)
  }

  /** The code is no shorter than before. All jumps to its end are new, or nothing
      but the list of the old ones has changed. */
  ghost predicate Newer(s: Snap, s': Snap) {
    && |s.code| <= |s'.code|
    && ((forall j | j in s'.jl :: |s.code| <= j) || (Relinked(s.code, s'.code, s.jl) && s'.pend == s.pend
        && s'.jl == s.jl))
  }

  /** The pending jumps of `s'` are those of others before, the new jpc list,
      the exits, and the jump itself for a comparison; no two of them overlap,
      and the exits are new. */
  ghost predicate Owned(s: Snap, s': Snap, ts: seq<int>, fs: seq<int>, own: seq<int>) {
    && NoDup(ts) && NoDup(fs) && NoDup(own)
    && Apart(ts, fs) && Apart(ts, s'.jl) && Apart(fs, s'.jl)
    && Apart(own, ts) && Apart(own, fs) && Apart(own, s'.jl)
    && (forall j :: j in s'.pend <==> j in Outer(s) || j in s'.jl || j in ts || j in fs || j in own)
    && (forall j | j in Outer(s) :: j !in s'.jl && j !in ts && j !in fs && j !in own)
    && Newer(s, s') && (forall j | j in ts || j in fs || j in own :: |s.code| <= j)
  }

  function Own(e: ExpDesc): seq<int> {
    if e.kind == VJmp then [e.info] else []
  }

  /** Shape of the code around a descriptor of kind VJmp or VReloc. */
  ghost predicate ShapeOk(s: Snap, e: ExpDesc, last: int) {
    match e.kind
    case VJmp =>
      var n := |s.code|;
      && s.jl == [] && n >= 2 && e.info == n - 1 && last <= n - 2
      && s.code[n - 1] == Jmp(0, NO_JUMP) && s.code[n - 2].Cmp? && s.code[n - 2].a in {0, 1}
    case VReloc =>
      var n := |s.code|;
      && s.jl == [] && n >= 1 && e.info == n - 1 && last <= n - 1 && s.code[n - 1].NotI? && s.code[n - 1].a == 0
    case _ => true
  }
}
