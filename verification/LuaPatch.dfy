/** Unfinished code and how patching changes what it does: the facts about
    `Run` that every code-generating step of modules/lua/lcode.c rests on. */
module LuaPatch {
  import opened LuaVm

  predicate OperandsOk(i: Instr, nk: int) {
    match i
    case LoadK(_, bx) => 0 <= bx < nk
    case Cmp(_, _, b, c) => (ISK(b) ==> INDEXK(b) < nk) && (ISK(c) ==> INDEXK(c) < nk)
    case LoadNil(_, b) => b >= 0
    case _ => true
  }

  /** Well-formed code: tests are followed by jumps, pending jumps are jumps,
      every finished jump or skip goes no further than `last` (the field
      lasttarget), constants exist, and a range of nils is not empty. Runs may
      start at the beginning and at `orgs`, the labels of loops. */
  ghost predicate WellFormed(code: seq<Instr>, pend: set<int>, k: seq<Value>, orgs: set<int>, last: int) {
    && 0 <= last <= |code| && (forall l | l in orgs :: 0 <= l <= last)
    && (forall i | 0 <= i < |code| :: WellFormedAt(code, pend, k, last, i))
    && (forall j | j in pend :: 0 <= j < |code| && code[j].Jmp?)
  }

  ghost predicate WellFormedAt(code: seq<Instr>, pend: set<int>, k: seq<Value>, last: int, i: int)
    requires 0 <= i < |code|
  {
    && (TMode(code[i]) ==> i + 1 < |code| && code[i + 1].Jmp?)
    && (code[i].Jmp? && i !in pend ==> 0 <= i + 1 + code[i].sbx <= last)
    && (code[i].LoadBool? && code[i].c != 0 ==> i + 2 <= last)
    && OperandsOk(code[i], |k|)
  }

  /** `i'` may stand for `i` after patching: a TESTSET in front of a pending
      jump may get another destination or become a TEST, and a pending jump may
      get another offset. Nothing else changes. */
  predicate MayBecome(i: Instr, i': Instr, pending: bool, nextPending: bool) {
    || i' == i
    || (i.Jmp? && pending && i'.Jmp?)
    || (i.TestSet? && nextPending && (i' == Test(i.b, i.c) || (i'.TestSet? && i'.b == i.b && i'.c == i.c)))
  }

  ghost predicate Extends(c: seq<Instr>, p: set<int>, k: seq<Value>, c': seq<Instr>, p': set<int>, k': seq<Value>) {
    && |c| <= |c'|
    && k <= k'
    && (forall i | 0 <= i < |c| :: MayBecome(c[i], c'[i], i in p, i + 1 in p))
    && (forall j | j in p' && j < |c| :: j in p)
  }

  /** The turn the extended code makes where the original left through `o`. */
  function ResumeStep(o: Outcome, c': seq<Instr>, p': set<int>): StepResult
    requires o.Jump?
  {
    var j := o.at;
    if !(0 <= j < |c'|) || !c'[j].Jmp? then Leave(Stuck)
    else
      var stores := o.stored.Stored? && j > 0 && c'[j - 1].TestSet?;
      if j in p' then Leave(Jump(j, o.rs, if stores then o.stored else NotStored))
      else Land(j, j + 1 + c'[j].sbx, if stores then Put(o.rs, c'[j - 1].a, o.stored.value) else o.rs)
  }

  function Resumed(o: Outcome, c': seq<Instr>, p': set<int>): StepResult {
    if o.Jump? then ResumeStep(o, c', p') else Leave(o)
  }

  /** What the extended code does with an outcome of the original code. */
  function Resume(o: Outcome, c': seq<Instr>, p': set<int>, k': seq<Value>, cmp: Comparer, len: int): Outcome {
    match o
    case Fall(rs) => Run(c', p', k', cmp, len, rs)
    case Spent => Spent
    case Stuck => Stuck
    case Jump(_, _, _) =>
      match ResumeStep(o, c', p')
      case Leave(o') => o'
      case Next(pc, rs) => Run(c', p', k', cmp, pc, rs)
  }

  /** A jump outcome names a pending jump, and carries the operand of the
      TESTSET in front of it if it carries a value. */
  ghost predicate Genuine(o: Outcome, c: seq<Instr>, p: set<int>) {
    o.Jump? ==>
      && o.at in p && 0 <= o.at < |c|
      && (o.stored.Stored? ==> o.at > 0 && c[o.at - 1].TestSet? && o.stored.value == Get(o.rs, c[o.at - 1].b))
  }

  lemma {:induction false} OperandsPersist(i: Instr, k: seq<Value>, k': seq<Value>, cmp: Comparer, rs: Regs)
    requires OperandsOk(i, |k|) && k <= k'
    ensures Simple(i, k', rs) == Simple(i, k, rs)
    ensures TMode(i) ==> Passes(i, k', cmp, rs) == Passes(i, k, cmp, rs)
  {
  }

  /** A turn that takes the jump at `j`, before and after patching. */
  lemma {:induction false} TakeJumpExtended(c: seq<Instr>, p: set<int>, c': seq<Instr>, p': set<int>, pc: int, j: int,
      rs: Regs, stored: Stored, rs': Regs, stored': Stored, rs'': Regs)
    requires 0 <= pc <= j < |c| <= |c'| && c[j].Jmp? && c'[j].Jmp?
    requires j !in p ==> c'[j] == c[j] && j !in p' && rs'' == rs'
    requires j in p ==>
      && stored' == (if stored.Stored? && j > 0 && c'[j - 1].TestSet? then stored else NotStored)
      && rs'' == (if stored.Stored? && j > 0 && c'[j - 1].TestSet? then Put(rs, c'[j - 1].a, stored.value) else rs)
    ensures match TakeJump(c, p, j, rs, stored, rs')
            case Next(pc', r') => TakeJump(c', p', j, rs, stored', rs'') == Next(pc', r')
            case Leave(o) => o == (if j in p then Jump(j, rs,
                stored) else Spent) && TakeJump(c', p', j, rs, stored', rs'') == Resumed(o, c', p')
  {
  }

  /** One turn of the original code stays in the code, and the patched code
      makes the same one unless a pending jump has been given a target. */
  lemma {:induction false} StepExtended(c: seq<Instr>, p: set<int>, k: seq<Value>, c': seq<Instr>, p': set<int>,
      k': seq<Value>, cmp: Comparer, orgs: set<int>, last: int, pc: int, rs: Regs)
    requires WellFormed(c, p, k, orgs, last) && Extends(c, p, k, c', p', k')
    requires 0 <= pc < |c|
    ensures match Step(c, p, k, cmp, pc, rs)
            case Next(pc', rs') => 0 <= pc' <= |c| && Step(c', p', k', cmp, pc, rs) == Next(pc', rs')
            case Leave(o) => (o.Jump? || o.Spent?) && Genuine(o, c, p) && Step(c', p', k', cmp, pc, rs) == Resumed(o,
                c', p')
  {
    var i := c[pc];
    assert WellFormedAt(c, p, k, last, pc);
    assert MayBecome(i, c'[pc], pc in p, pc + 1 in p);
    OperandsPersist(i, k, k', cmp, rs);
    if i.Jmp? {
      TakeJumpExtended(c, p, c', p', pc, pc, rs, NotStored, rs, NotStored, rs);
    } else if TMode(i) && Passes(i, k, cmp, rs) {
      var j := pc + 1;
      assert WellFormedAt(c, p, k, last, j);
      assert MayBecome(c[j], c'[j], j in p, j + 1 in p);
      if i.TestSet? {
        var v := Stored(Get(rs, i.b));
        var sets := c'[pc].TestSet?;
        TakeJumpExtended(c, p, c', p', pc, j, rs, v, Put(rs, i.a, v.value),
                         if sets then v else NotStored, if sets then Put(rs, c'[pc].a, v.value) else rs);
      } else {
        TakeJumpExtended(c, p, c', p', pc, j, rs, NotStored, rs, NotStored, rs);
      }
    }
  }

  /** Running patched and extended code is running the original code and then
      carrying on from its outcome. */
  lemma {:induction false} RunExtended(c: seq<Instr>, p: set<int>, k: seq<Value>, c': seq<Instr>, p': set<int>,
      k': seq<Value>, cmp: Comparer, orgs: set<int>, last: int, pc: int, rs: Regs)
    requires WellFormed(c, p, k, orgs, last) && Extends(c, p, k, c', p', k')
    requires 0 <= pc <= |c|
    ensures var o := Run(c, p, k, cmp, pc, rs);
      && Run(c', p', k', cmp, pc, rs) == Resume(o, c', p', k', cmp, |c|)
      && o != Stuck && Genuine(o, c, p)
    decreases rs.turns, |c| - pc
  {
    if pc < |c| {
      StepExtended(c, p, k, c', p', k', cmp, orgs, last, pc, rs);
      var t := Step(c, p, k, cmp, pc, rs);
      if t.Next? {
        RunExtended(c, p, k, c', p', k', cmp, orgs, last, t.pc, t.rs);
      }
    }
  }
}
