/** `&&` and `||`: _parse_logic_and_expr and _parse_logic_or_expr of src/parse.c. */
module ShortCircuit {
  import opened Values
  import opened Insts
  import opened Layout
  import opened Arithmetic
  import opened Codes
  import opened Machines

  /** What compiling an operand yields: its instructions, and its register. */
  datatype Operand = Operand(code: seq<Inst>, reg: nat)

  /** A false operand decides `&&`, a true one `||`. */
  predicate Decides(isAnd: bool, v: Word) {
    IsFalse(v) == isAnd
  }

  function MovInst(temp: nat, reg: nat): Inst {
    DType(I_MOV, Field(temp), Field(reg), 0)
  }

  // ----- meaning -----

  /** Evaluate the operands from the i-th on, up to the first that decides:
      its value is left in `temp`, and nothing behind it is evaluated. */
  function Evaluate(isAnd: bool, temp: nat, s: RegFile, ops: seq<Operand>, i: nat): Option<RegFile>
    requires i < |ops|
    decreases |ops| - i
  {
    match Run(ops[i].code, s)
    case None => None
    case Some(done) =>
      match Codes.Step(done, MovInst(temp, ops[i].reg))
      case None => None
      case Some(moved) =>
        var next: Regs := moved;
        if |next| <= 1 || next[0] != 1 || Field(temp) >= |next| then None
        else if i + 1 == |ops| || Decides(isAnd, next[Field(temp)]) then Some(next)
        else Evaluate(isAnd, temp, next, ops, i + 1)
  }

  /** How many operands that takes. */
  function Evaluated(isAnd: bool, temp: nat, s: RegFile, ops: seq<Operand>, i: nat): (n: nat)
    requires i < |ops|
    ensures 1 <= n <= |ops| - i
    decreases |ops| - i
  {
    match Run(ops[i].code, s)
    case None => 1
    case Some(done) =>
      match Codes.Step(done, MovInst(temp, ops[i].reg))
      case None => 1
      case Some(moved) =>
        var next: Regs := moved;
        if |next| <= 1 || next[0] != 1 || Field(temp) >= |next| then 1
        else if i + 1 == |ops| || Decides(isAnd, next[Field(temp)]) then 1
        else 1 + Evaluated(isAnd, temp, next, ops, i + 1)
  }

  // ----- the blocks -----

  /** The i-th operand is compiled in the current block, for i = 0, and otherwise
      behind the end block, which is created first. */
  function Pos(current: nat, n: nat, i: nat): nat {
    if i == 0 then current else n + i
  }

  /** The block of the i-th operand; the end block is at n. */
  function ChainBlock(isAnd: bool, temp: nat, ops: seq<Operand>, n: nat, i: nat): Block
    requires i < |ops|
  {
    var body := ops[i].code + [MovInst(temp, ops[i].reg)];
    if i + 1 == |ops| then Block(body, 0, None, Some(n))
    else if isAnd then Block(body, temp, Some(n + i + 1), Some(n))
    else Block(body, temp, Some(n), Some(n + i + 1))
  }

  /** The graph has the blocks of such a chain. */
  ghost predicate HasChain(g: Graph, isAnd: bool, temp: nat, ops: seq<Operand>, current: nat, n: nat) {
    && current < n && n + |ops| <= |g|
    && forall i: nat :: i < |ops| ==> g[Pos(current, n, i)] == ChainBlock(isAnd, temp, ops, n, i)
  }

  lemma StraightMov(code: seq<Inst>, temp: nat, reg: nat)
    requires Straight(code)
    ensures Straight(code + [MovInst(temp, reg)])
  {
  }

  /** One operand: its block runs the operand, keeps the value, and goes to the
      end if that decides. */
  lemma OperandRuns(g: Graph, isAnd: bool, temp: nat, ops: seq<Operand>, current: nat, n: nat, i: nat, s: RegFile)
    requires HasChain(g, isAnd, temp, ops, current, n) && i < |ops| && Straight(ops[i].code)
    requires 0 < temp < |s| && temp < REGISTER_LIMIT
    ensures var step := GraphStep(CVM, g, At(Pos(current, n, i), s));
            match Run(ops[i].code + [MovInst(temp, ops[i].reg)], s)
            case None => step == Done(Trapped)
            case Some(next) =>
              && step.At? && step.s == next && |next| == |s|
              && step.pc == if i + 1 == |ops| || Decides(isAnd, next[temp]) then n else n + i + 1
  {
    hide Run, MovInst, IsFalse, Codes.Step, Straight;
    var at := Pos(current, n, i);
    var body := ops[i].code + [MovInst(temp, ops[i].reg)];
    assert g[at] == ChainBlock(isAnd, temp, ops, n, i);
    StraightMov(ops[i].code, temp, ops[i].reg);
    BodyIsRun(body, s);
    RunKeepsSize(body, s);
    if Run(body, s).Some? {
      var t := RunBody(CVM, body, s).s;
      assert CVM.falsy(t, 0) == Falsy(t, 0);
      assert CVM.falsy(t, temp) == Falsy(t, temp);
      ZeroIsFalse();
    }
  }

  lemma ZeroIsFalse()
    ensures IsFalse(1)
  {
  }

  lemma {:induction false} RunKeepsSize(insts: seq<Inst>, s: Regs)
    ensures Run(insts, s).Some? ==> |Run(insts, s).value| == |s| && (s != [] ==> Run(insts, s).value[0] == s[0])
    decreases |insts|
  {
    hide Codes.Step;
    if insts != [] {
      RunKeepsSize(insts[..|insts| - 1], s);
    }
  }

  lemma EvaluateStep(isAnd: bool, temp: nat, s: RegFile, ops: seq<Operand>, i: nat)
    requires i < |ops| && 0 < temp < |s| && temp < REGISTER_LIMIT
    ensures match Run(ops[i].code + [MovInst(temp, ops[i].reg)], s)
            case None => Evaluate(isAnd, temp, s, ops, i) == None && Evaluated(isAnd, temp, s, ops, i) == 1
            case Some(next) =>
              && |next| == |s| && next[0] == 1
              && var stops := i + 1 == |ops| || Decides(isAnd, next[temp]);
              && (stops ==> Evaluate(isAnd, temp, s, ops, i) == Some(next) && Evaluated(isAnd, temp, s, ops, i) == 1)
              && (!stops ==> Evaluate(isAnd, temp, s, ops, i) == Evaluate(isAnd, temp, next, ops, i + 1))
              && (!stops ==> Evaluated(isAnd, temp, s, ops, i) == 1 + Evaluated(isAnd, temp, next, ops, i + 1))
  {
    hide Run, Decides, Codes.Step;
    RunOneMore(ops[i].code, MovInst(temp, ops[i].reg), s);
    RunKeepsSize(ops[i].code, s);
    FieldIs(temp);
  }

  /** The lowering is right: from the block of the first operand, as many graph
      steps as operands need evaluating lead to the end block, with the first
      deciding operand, or else the last, in `temp`. */
  lemma {:induction false} ChainRuns(g: Graph, isAnd: bool, temp: nat, ops: seq<Operand>, current: nat,
          n: nat, i: nat, s: RegFile)
    requires HasChain(g, isAnd, temp, ops, current, n) && i < |ops|
    requires forall j :: 0 <= j < |ops| ==> Straight(ops[j].code)
    requires 0 < temp < |s| && temp < REGISTER_LIMIT
    ensures var last := GraphRun(CVM, g, At(Pos(current, n, i), s), Evaluated(isAnd, temp, s, ops, i));
            match Evaluate(isAnd, temp, s, ops, i)
            case None => last == Done(Trapped)
            case Some(end) => last == At(n, end)
    decreases |ops| - i
  {
    hide Run, MovInst, IsFalse, Codes.Step, HasChain, GraphStep, Evaluate, Evaluated, Decides;
    OperandRuns(g, isAnd, temp, ops, current, n, i, s);
    EvaluateStep(isAnd, temp, s, ops, i);
    var start: Config<RegFile, Result> := At(Pos(current, n, i), s);
    var after := GraphStep(CVM, g, start);
    var r := Run(ops[i].code + [MovInst(temp, ops[i].reg)], s);
    if r.None? || i + 1 == |ops| || Decides(isAnd, r.value[temp]) {
      assert GraphRun(CVM, g, start, 1) == GraphRun(CVM, g, after, 0);
    } else {
      ChainRuns(g, isAnd, temp, ops, current, n, i + 1, after.s);
    }
  }

  /** The same in the laid-out code, with the end block in front of the operands' blocks. */
  lemma ChainInCode(g: Graph, code: seq<Inst>, isAnd: bool, temp: nat, ops: seq<Operand>, current: nat,
          n: nat, s: RegFile)
    returns (k: nat)
    requires WellLinked(g) && HasCode(g, code) && HasChain(g, isAnd, temp, ops, current, n) && ops != []
    requires forall j :: 0 <= j < |ops| ==> Straight(ops[j].code)
    requires 0 < temp < |s| && temp < REGISTER_LIMIT
    ensures var last := FlatRun(CVM, code, At(Entry(g, current), s), k);
            match Evaluate(isAnd, temp, s, ops, 0)
            case None => last == Done(Trapped)
            case Some(end) => last == At(Entry(g, n), end)
  {
    ChainSize(g, isAnd, temp, ops, current, n);
    hide WellLinked, HasCode, HasChain, Evaluate, Evaluated, Entry, FlatRun, GraphRun, IsVm;
    ChainRuns(g, isAnd, temp, ops, current, n, 0, s);
    CvmIsVm();
    k := GraphToFlat(CVM, g, code, current, s, Evaluated(isAnd, temp, s, ops, 0));
  }

  lemma ChainSize(g: Graph, isAnd: bool, temp: nat, ops: seq<Operand>, current: nat, n: nat)
    requires HasChain(g, isAnd, temp, ops, current, n) && ops != []
    ensures current < |g| && n < |g|
  {
  }

  // ----- the value of a chain -----

  /** All operands from the i-th to the k-th, one after the other, without any test. */
  function InOrder(temp: nat, s: Regs, ops: seq<Operand>, i: nat, k: nat): Option<Regs>
    requires i <= k < |ops|
    decreases k - i
  {
    match Run(ops[i].code + [MovInst(temp, ops[i].reg)], s)
    case None => None
    case Some(next) => if i == k then Some(next) else InOrder(temp, next, ops, i + 1, k)
  }

  /** The operand that Evaluate stops at is the first that decides, or the last. */
  lemma {:induction false} StopsAtFirst(isAnd: bool, temp: nat, s: RegFile, ops: seq<Operand>, i: nat)
    requires i < |ops| && 0 < temp < |s| && temp < REGISTER_LIMIT && Evaluate(isAnd, temp, s, ops, i).Some?
    ensures var end, k := Evaluate(isAnd, temp, s, ops, i).value, i + Evaluated(isAnd, temp, s, ops, i) - 1;
            && InOrder(temp, s, ops, i, k) == Some(end) && |end| == |s|
            && (k + 1 == |ops| || Decides(isAnd, end[temp]))
            && forall j :: i <= j < k ==>
                 var mid := InOrder(temp, s, ops, i, j);
                 mid.Some? && temp < |mid.value| && !Decides(isAnd, mid.value[temp])
    decreases |ops| - i
  {
    hide Run, MovInst, IsFalse, Codes.Step, Evaluate, Evaluated, Decides;
    EvaluateStep(isAnd, temp, s, ops, i);
    var next := Run(ops[i].code + [MovInst(temp, ops[i].reg)], s).value;
    if i + 1 < |ops| && !Decides(isAnd, next[temp]) {
      StopsAtFirst(isAnd, temp, next, ops, i + 1);
    }
  }
}
