/** The part of the Lua 5.2 virtual machine that boolean and relational
    expressions are compiled to (modules/lua/lvm.c, modules/lua/lopcodes.h),
    and the meaning of those expressions in the source language. */
module LuaVm {
  datatype Value = Nil | Bool(b: bool) | Number(n: int) | Str(s: string)

  predicate Truthy(v: Value) {
    v != Nil && v != Bool(false)
  }

  // ----- Source expressions and their value -----

  datatype RelOp = Eq | Ne | Lt | Gt | Le | Ge

  datatype Expr =
    | ENil | ETrue | EFalse
    | ENum(n: int)
    | EStr(s: string)
    | ELocal(r: nat)
    | ENot(e: Expr)
    | EAnd(a: Expr, b: Expr)
    | EOr(a: Expr, b: Expr)
    | ERel(op: RelOp, a: Expr, b: Expr)

  /** The three comparisons the machine knows; how they compare two values
      (numbers, strings, metamethods) is left open. */
  datatype CmpOp = CEq | CLt | CLe

  type Comparer = (CmpOp, Value, Value) -> bool

  /** The registers, and how many more turns loops may make: a run either ends or
      uses its turns up. */
  datatype Regs = Regs(vals: seq<Value>, turns: nat)

  function Get(rs: Regs, r: int): Value {
    if 0 <= r < |rs.vals| then rs.vals[r] else Nil
  }

  function Put(rs: Regs, r: int, v: Value): (rs': Regs)
    ensures rs'.turns == rs.turns && |rs'.vals| == |rs.vals|
  {
    if 0 <= r < |rs.vals| then rs.(vals := rs.vals[r := v]) else rs
  }

  function RelVal(op: RelOp, cmp: Comparer, v: Value, w: Value): bool {
    match op
    case Eq => cmp(CEq, v, w)
    case Ne => !cmp(CEq, v, w)
    case Lt => cmp(CLt, v, w)
    case Gt => cmp(CLt, w, v)
    case Le => cmp(CLe, v, w)
    case Ge => cmp(CLe, w, v)
  }

  function Eval(x: Expr, cmp: Comparer, rs: Regs): Value {
    match x
    case ENil => Nil
    case ETrue => Bool(true)
    case EFalse => Bool(false)
    case ENum(n) => Number(n)
    case EStr(s) => Str(s)
    case ELocal(r) => Get(rs, r)
    case ENot(e) => Bool(!Truthy(Eval(e, cmp, rs)))
    case EAnd(a, b) => var v := Eval(a, cmp, rs); if Truthy(v) then Eval(b, cmp, rs) else v
    case EOr(a, b) => var v := Eval(a, cmp, rs); if Truthy(v) then v else Eval(b, cmp, rs)
    case ERel(op, a, b) => Bool(RelVal(op, cmp, Eval(a, cmp, rs), Eval(b, cmp, rs)))
  }

  // ----- Instructions -----

  const NO_JUMP: int := -1
  const NO_REG: int := 255      // MAXARG_A
  const BITRK: int := 256       // operands from here on name constants

  predicate ISK(x: int) { x >= BITRK }

  function INDEXK(x: int): int { x - BITRK }

  datatype Instr =
    | Move(a: int, b: int)
    | LoadK(a: int, bx: int)
    | LoadBool(a: int, b: int, c: int)
    | LoadNil(a: int, b: int)
    | NotI(a: int, b: int)
    | Jmp(a: int, sbx: int)
    | Cmp(op: CmpOp, a: int, b: int, c: int)
    | Test(a: int, c: int)
    | TestSet(a: int, b: int, c: int)

  /** The opcodes with the T mode bit: the next instruction must be a jump. */
  predicate TMode(i: Instr) {
    i.Cmp? || i.Test? || i.TestSet?
  }

  function GetK(k: seq<Value>, i: int): Value {
    if 0 <= i < |k| then k[i] else Nil
  }

  function RK(k: seq<Value>, rs: Regs, x: int): Value {
    if ISK(x) then GetK(k, INDEXK(x)) else Get(rs, x)
  }

  /** Does a test instruction let the jump that follows it happen? */
  predicate Passes(i: Instr, k: seq<Value>, cmp: Comparer, rs: Regs)
    requires TMode(i)
  {
    match i
    case Cmp(op, a, b, c) => cmp(op, RK(k, rs, b), RK(k, rs, c)) == (a != 0)
    case Test(a, c) => Truthy(Get(rs, a)) == (c != 0)
    case TestSet(a, b, c) => Truthy(Get(rs, b)) == (c != 0)
  }

  function PutNils(rs: Regs, a: int, b: int): (rs': Regs)
    ensures rs'.turns == rs.turns && |rs'.vals| == |rs.vals|
    decreases if b < 0 then 0 else b + 1
  {
    if b < 0 then rs else PutNils(Put(rs, a, Nil), a + 1, b - 1)
  }

  lemma {:induction false} PutNilsAt(rs: Regs, a: int, b: int, r: int)
    ensures |PutNils(rs, a, b).vals| == |rs.vals|
    ensures Get(PutNils(rs, a, b), r) == if a <= r <= a + b then Nil else Get(rs, r)
    decreases if b < 0 then 0 else b + 1
  {
    if b >= 0 {
      PutNilsAt(Put(rs, a, Nil), a + 1, b - 1, r);
    }
  }

  /** The registers after one instruction that neither tests nor jumps. */
  function Simple(i: Instr, k: seq<Value>, rs: Regs): (rs': Regs)
    ensures rs'.turns == rs.turns && |rs'.vals| == |rs.vals|
  {
    match i
    case Move(a, b) => Put(rs, a, Get(rs, b))
    case LoadK(a, bx) => Put(rs, a, GetK(k, bx))
    case LoadBool(a, b, c) => Put(rs, a, Bool(b != 0))
    case LoadNil(a, b) => PutNils(rs, a, b)
    case NotI(a, b) => Put(rs, a, Bool(!Truthy(Get(rs, b))))
    case _ => rs
  }

  /** How a run of unfinished code ends: past its last instruction, at a jump
      whose target is still pending (with the value a TESTSET would have
      stored, if one controls the jump), with its turns used up, or outside
      the model. */
  datatype Outcome =
    | Fall(rs: Regs)
    | Jump(at: int, rs: Regs, stored: Stored)
    | Spent
    | Stuck

  /** The value a TESTSET copied on the way, if it did. */
  datatype Stored = NotStored | Stored(value: Value)

  datatype StepResult = Next(pc: int, rs: Regs) | Leave(o: Outcome)

  /** One turn of the interpreter loop; a test and the jump it controls are
      one turn. The jumps in `pend` have no target yet. */
  function Step(code: seq<Instr>, pend: set<int>, k: seq<Value>, cmp: Comparer, pc: int, rs: Regs): StepResult
    requires 0 <= pc < |code|
  {
    var i := code[pc];
    if i.Jmp? then TakeJump(code, pend, pc, rs, NotStored, rs)
    else if !TMode(i) then Next(if i.LoadBool? && i.c != 0 then pc + 2 else pc + 1, Simple(i, k, rs))
    else if !Passes(i, k, cmp, rs) then Next(pc + 2, rs)
    else if i.TestSet? then TakeJump(code, pend, pc + 1, rs, Stored(Get(rs, i.b)), Put(rs, i.a, Get(rs, i.b)))
    else TakeJump(code, pend, pc + 1, rs, NotStored, rs)
  }

  /** Executes the jump at `j`; `rs'` are the registers if it has a target. */
  function TakeJump(code: seq<Instr>, pend: set<int>, j: int, rs: Regs, stored: Stored, rs': Regs): StepResult
    requires 0 <= j
  {
    if j >= |code| || !code[j].Jmp? then Leave(Stuck)
    else if j in pend then Leave(Jump(j, rs, stored))
    else Land(j, j + 1 + code[j].sbx, rs')
  }

  /** From the jump at `j` to `target`; going back takes a turn. */
  function Land(j: int, target: int, rs: Regs): StepResult {
    if target > j then Next(target, rs)
    else if rs.turns == 0 then Leave(Spent)
    else Next(target, rs.(turns := rs.turns - 1))
  }

  /** Runs `code` from `pc`. */
  function Run(code: seq<Instr>, pend: set<int>, k: seq<Value>, cmp: Comparer, pc: int, rs: Regs): (o: Outcome)
    ensures o.Fall? || o.Jump? ==> |o.rs.vals| == |rs.vals| && o.rs.turns <= rs.turns
    decreases rs.turns, |code| - pc
  {
    if pc < 0 then Stuck
    else if pc >= |code| then Fall(rs)
    else
      match Step(code, pend, k, cmp, pc, rs)
      case Leave(o) => o
      case Next(pc', rs') => Run(code, pend, k, cmp, pc', rs')
  }

  // ----- What the definitions come to -----

  /** A comparison that orders numbers as numbers. */
  ghost predicate Orders(cmp: Comparer) {
    && (forall x: int, y: int :: cmp(CLt, Number(x), Number(y)) == (x < y))
    && (forall x: int, y: int :: cmp(CLe, Number(x), Number(y)) == (x <= y))
    && (forall x: int, y: int :: cmp(CEq, Number(x), Number(y)) == (x == y))
  }

  /** The six operators on numbers. */
  lemma {:induction false} EvalNumbers(a: Expr, b: Expr, cmp: Comparer, rs: Regs, x: int, y: int)
    requires Orders(cmp) && Eval(a, cmp, rs) == Number(x) && Eval(b, cmp, rs) == Number(y)
    ensures Eval(ERel(Lt, a, b), cmp, rs) == Bool(x < y) && Eval(ERel(Gt, a, b), cmp, rs) == Bool(x > y)
    ensures Eval(ERel(Le, a, b), cmp, rs) == Bool(x <= y) && Eval(ERel(Ge, a, b), cmp, rs) == Bool(x >= y)
    ensures Eval(ERel(Eq, a, b), cmp, rs) == Bool(x == y) && Eval(ERel(Ne, a, b), cmp, rs) == Bool(x != y)
  {
  }

  /** `not`, `and` and `or`: only nil and false are false, and an operand is the result. */
  lemma {:induction false} EvalLogic(a: Expr, b: Expr, cmp: Comparer, rs: Regs)
    ensures var v, w := Eval(a, cmp, rs), Eval(b, cmp, rs);
      var no := v == Nil || v == Bool(false);
      && Eval(ENot(a), cmp, rs) == Bool(no)
      && Eval(EAnd(a, b), cmp, rs) == (if no then v else w)
      && Eval(EOr(a, b), cmp, rs) == (if no then w else v)
  {
  }

  /** Constants, and the values of locals. */
  lemma {:induction false} EvalSimple(r: nat, n: int, t: string, cmp: Comparer, rs: Regs)
    requires r < |rs.vals|
    ensures Eval(ENil, cmp, rs) == Nil && Eval(ETrue, cmp, rs) == Bool(true) && Eval(EFalse, cmp, rs) == Bool(false)
    ensures Eval(ENum(n), cmp, rs) == Number(n) && Eval(EStr(t), cmp, rs) == Str(t)
        && Eval(ELocal(r), cmp, rs) == rs.vals[r]
  {
  }

  /** Instructions that load a register. */
  lemma {:induction false} StepLoads(code: seq<Instr>, pend: set<int>, k: seq<Value>, cmp: Comparer, pc: int, rs: Regs)
    requires 0 <= pc < |code|
    ensures var r, v := Step(code, pend, k, cmp, pc, rs), rs.vals;
      match code[pc]
      case Move(a, b) => 0 <= a < |v| && 0 <= b < |v| ==> r == Next(pc + 1, rs.(vals := v[a := v[b]]))
      case LoadK(a, bx) => 0 <= a < |v| && 0 <= bx < |k| ==> r == Next(pc + 1, rs.(vals := v[a := k[bx]]))
      case LoadBool(a, b, c) =>
        0 <= a < |v| && b in {0, 1} && c in {0, 1} ==> r == Next(pc + 1 + c, rs.(vals := v[a := Bool(b == 1)]))
      case NotI(a, b) =>
        0 <= a < |v| && 0 <= b < |v| ==>
          r == Next(pc + 1, rs.(vals := v[a := Bool(v[b] == Nil || v[b] == Bool(false))]))
      case LoadNil(a, b) =>
        0 <= a && 0 <= b && a + b < |v| ==>
          && r.Next? && r.pc == pc + 1 && r.rs.turns == rs.turns && |r.rs.vals| == |v|
          && forall j | 0 <= j < |v| :: r.rs.vals[j] == if a <= j <= a + b then Nil else v[j]
      case _ => true
  {
    if code[pc].LoadNil? && 0 <= code[pc].a && 0 <= code[pc].b && code[pc].a + code[pc].b < |rs.vals| {
      forall j: nat | j < |rs.vals| ensures PutNils(rs, code[pc].a, code[pc].b).vals[j]
          == if code[pc].a <= j <= code[pc].a + code[pc].b then Nil else rs.vals[j] {
        PutNilsAt(rs, code[pc].a, code[pc].b, j);
      }
    }
  }

  /** A test and the jump forward behind it: the jump is taken if the test comes out
      as its A, or C, says, and is skipped otherwise. Operands from 256 on are constants. */
  lemma {:induction false} StepTests(code: seq<Instr>, pend: set<int>, k: seq<Value>, cmp: Comparer, pc: int, rs: Regs,
      d: nat)
    requires 0 <= pc < |code| - 1 && code[pc + 1].Jmp? && code[pc + 1].sbx == d && pc + 1 !in pend
    ensures var r, v, to := Step(code, pend, k, cmp, pc, rs), rs.vals, pc + 2 + d;
      match code[pc]
      case Cmp(op, a, b, c) =>
        a in {0, 1} && (0 <= b < |v| || 256 <= b < 256 + |k|) && (0 <= c < |v| || 256 <= c < 256 + |k|)
        && |v| <= 256 ==>
          var x, y := if b < 256 then v[b] else k[b - 256], if c < 256 then v[c] else k[c - 256];
          r == Next(if cmp(op, x, y) == (a == 1) then to else pc + 2, rs)
      case Test(a, c) =>
        0 <= a < |v| && c in {0, 1} ==>
          r == Next(if (v[a] == Nil || v[a] == Bool(false)) == (c == 0) then to else pc + 2, rs)
      case TestSet(a, b, c) =>
        0 <= a < |v| && 0 <= b < |v| && c in {0, 1} ==>
          r == if (v[b] == Nil || v[b] == Bool(false)) == (c == 0) then Next(to, rs.(vals := v[a := v[b]]))
               else Next(pc + 2, rs)
      case _ => true
  {
  }

  /** A jump by itself goes to its target; back, it takes a turn. */
  lemma {:induction false} StepJumps(code: seq<Instr>, pend: set<int>, k: seq<Value>, cmp: Comparer, pc: int, rs: Regs)
    requires 0 <= pc < |code| && code[pc].Jmp? && pc !in pend
    ensures var r, to := Step(code, pend, k, cmp, pc, rs), pc + 1 + code[pc].sbx;
      if to > pc then r == Next(to, rs)
      else if rs.turns > 0 then r == Next(to, rs.(turns := rs.turns - 1)) else r == Leave(Spent)
  {
  }
}
