/** `&&` and `||` over expressions: what compiling the operands one after another
  leaves, what the chain means, and what the compiler believes about its result. */
module Logic {
  import opened Values
  import opened Insts
  import opened Arithmetic
  import opened Scopes
  import opened Codes
  import opened Programs
  import opened Expressions
  import opened Compilation
  import opened Layout
  import opened Machines
  import opened ShortCircuit

  // ----- meaning -----

  predicate IsFalseVal(v: Val) {
    match v
    case Number(n) => n == 0
    case Other(w) => IsUndefined(w) || IsNull(w)
  }

  /** A chain is worth its first operand that decides, or else the last one. */
  function LogicEval(isAnd: bool, es: seq<Expr>, env: Env<Val>): Option<Val>
    requires es != []
    decreases |es|
  {
    match Eval(es[0], env)
    case None => None
    case Some(v) => if |es| == 1 || IsFalseVal(v) == isAnd then Some(v) else LogicEval(isAnd, es[1..], env)
  }

  /** How many operands that takes. */
  function LogicCount(isAnd: bool, es: seq<Expr>, env: Env<Val>): (n: nat)
    requires es != []
    ensures 1 <= n <= |es|
    decreases |es|
  {
    match Eval(es[0], env)
    case None => 1
    case Some(v) => if |es| == 1 || IsFalseVal(v) == isAnd then 1 else 1 + LogicCount(isAnd, es[1..], env)
  }

  // ----- compilation -----

  /** The operands behind one that left its value in `reg`: each is compiled in a
      block of its own, dominated by the block before it, once the value before
      it has been copied to `temp`. */
  function CompileOperands(temp: nat, c: Code, reg: nat, rest: seq<Expr>,
        scopes: seq<Scope>): Option<(seq<Operand>, nat)>
    decreases |rest|
  {
    if rest == [] then Some(([Operand(c.insts, reg)], c.registerNr))
    else
      match Compile(rest[0], Below(MovUpper(c, temp, reg)), scopes)
      case None => None
      case Some(r) =>
        match CompileOperands(temp, r.code, r.reg, rest[1..], scopes)
        case None => None
        case Some(q) => Some(([Operand(c.insts, reg)] + q.0, q.1))
  }

  /** The blocks of a chain, and what its end block knows. */
  datatype Chain = Chain(temp: nat, ops: seq<Operand>, atEnd: Code)

  /** _parse_logic_and_expr and _parse_logic_or_expr, from the first operator on.
      The end block is dominated by the block of the first operand. */
  function CompileRest(first: Compiled, rest: seq<Expr>, scopes: seq<Scope>): Option<Chain> {
    var temp := first.code.registerNr + 1;
    var c := first.code.(registerNr := temp);
    match CompileOperands(temp, c, first.reg, rest, scopes)
    case None => None
    case Some(q) => Some(Chain(temp, q.0, Below(MovUpper(c, temp, first.reg)).(registerNr := q.1)))
  }

  function CompileLogic(es: seq<Expr>, c: Code, scopes: seq<Scope>): Option<Chain>
    requires |es| >= 2
  {
    match Compile(es[0], c, scopes)
    case None => None
    case Some(first) => CompileRest(first, es[1..], scopes)
  }

  // ----- the number known for the temporary register is never looked at -----

  /** The same knowledge without the number of one register. */
  function Blind(c: Code, temp: nat): Code {
    c.(numbers := c.numbers - {temp})
  }

  /** The register is taken, and no constant is in it. */
  ghost predicate Unnamed(c: Code, temp: nat) {
    temp <= c.registerNr && forall k :: k in c.constants ==> c.constants[k] != temp
  }

  ghost predicate NotInScope(scopes: seq<Scope>, temp: nat) {
    forall x :: Lookup(scopes, x) != Some(temp)
  }

  /** Compiling with and without that knowledge gives the same code. */
  ghost predicate SameBut(temp: nat, e: Option<Compiled>, blind: Option<Compiled>) {
    match e
    case None => blind == None
    case Some(r) => blind == Some(Compiled(Blind(r.code, temp), r.reg)) && Unnamed(r.code, temp) && r.reg != temp
  }

  lemma LiBlind(c: Code, imm: int, temp: nat)
    requires Unnamed(c, temp)
    ensures SameBut(temp, Some(Li(c, imm)), Some(Li(Blind(c, temp), imm)))
  {
    hide FromInt, Field;
    var ret := c.registerNr + 1;
    assert (c.numbers - {temp})[ret := FromInt(imm)] == c.numbers[ret := FromInt(imm)] - {temp};
  }

  lemma EmitBlind(c: Code, op: Op, rs: nat, rt: nat, temp: nat)
    requires Unnamed(c, temp)
    ensures SameBut(temp, Some(Emit(c, op, rs, rt)), Some(Emit(Blind(c, temp), op, rs, rt)))
  {
    hide Field;
  }

  lemma ArithBlind(c: Code, op: BinOp, l: nat, r: nat, temp: nat)
    requires Unnamed(c, temp) && l != temp && r != temp
    ensures SameBut(temp, Arith(c, op, l, r), Arith(Blind(c, temp), op, l, r))
  {
    hide Li, Emit, FoldOp, Unnamed;
    if IsKnown(c, l) && IsKnown(c, r) {
      var folded := FoldOp(op, c.numbers[l], c.numbers[r]);
      if folded.Some? {
        LiBlind(c, folded.value, temp);
      }
    } else {
      EmitBlind(c, OpCode(op), l, r, temp);
    }
  }

  lemma CombineBlind(c: Code, op: Operator, l: nat, r: nat, temp: nat)
    requires Unnamed(c, temp) && l != temp && r != temp
    ensures SameBut(temp, Combine(c, op, l, r), Combine(Blind(c, temp), op, l, r))
  {
    hide Arith, Emit, Unnamed, Blind;
    if op == NotEquals {
      ArithBlind(c, Eq, l, r, temp);
      if Arith(c, Eq, l, r).Some? {
        var e := Arith(c, Eq, l, r).value;
        EmitBlind(e.code, I_LNOT, e.reg, 0, temp);
      }
    } else {
      hide Combine;
      PrimitiveCombine(c, op, l, r);
      PrimitiveCombine(Blind(c, temp), op, l, r);
      var (p, swap) := Primitive(op);
      ArithBlind(c, p, l, r, temp);
      ArithBlind(c, p, r, l, temp);
    }
  }

  /** No expression asks for the number of a register that no variable and no
      constant is in. */
  lemma {:induction false} CompileBlind(e: Expr, c: Code, scopes: seq<Scope>, temp: nat)
    requires Unnamed(c, temp) && NotInScope(scopes, temp)
    ensures SameBut(temp, Compile(e, c, scopes), Compile(e, Blind(c, temp), scopes))
    decreases e
  {
    hide Li, Emit, Arith, Combine, Lookup, Blind, Unnamed;
    match e
    case Num(n) => LiBlind(c, n, temp);
    case Var(x) =>
    case Not(e1) =>
      CompileBlind(e1, c, scopes, temp);
      if Compile(e1, c, scopes).Some? {
        var r := Compile(e1, c, scopes).value;
        EmitBlind(r.code, I_LNOT, r.reg, 0, temp);
      }
    case Neg(e1) =>
      CompileBlind(e1, c, scopes, temp);
      if Compile(e1, c, scopes).Some? {
        var r := Compile(e1, c, scopes).value;
        LiBlind(r.code, 0, temp);
        var zero := Li(r.code, 0);
        ArithBlind(zero.code, Sub, zero.reg, r.reg, temp);
      }
    case Bin(op, l, r) =>
      CompileBlind(l, c, scopes, temp);
      if Compile(l, c, scopes).Some? {
        var a := Compile(l, c, scopes).value;
        CompileBlind(r, a.code, scopes, temp);
        if Compile(r, a.code, scopes).Some? {
          var b := Compile(r, a.code, scopes).value;
          CombineBlind(b.code, op, a.reg, b.reg, temp);
        }
      }
  }

  // ----- the chain is right -----

  lemma FalseByValue(w: Word)
    ensures IsFalse(w) == IsFalseVal(Decode(w))
  {
  }

  lemma {:induction false} EvaluateShift(isAnd: bool, temp: nat, s: RegFile, op: Operand, ops: seq<Operand>, i: nat)
    requires i < |ops|
    ensures Evaluate(isAnd, temp, s, [op] + ops, i + 1) == Evaluate(isAnd, temp, s, ops, i)
    ensures Evaluated(isAnd, temp, s, [op] + ops, i + 1) == Evaluated(isAnd, temp, s, ops, i)
    decreases |ops| - i
  {
    hide Run, Codes.Step, Decides, MovInst, Field;
    assert ([op] + ops)[i + 1] == ops[i];
    var done := Run(ops[i].code, s);
    if i + 1 < |ops| && done.Some? {
      var moved := Codes.Step(done.value, MovInst(temp, ops[i].reg));
      if moved.Some? && |moved.value| > 1 && moved.value[0] == 1 {
        EvaluateShift(isAnd, temp, moved.value, op, ops, i + 1);
      }
    }
  }

  /** An operand has run: but for the temporary register all that is known is true,
      and the first n registers hold the variables. */
  ghost predicate Arrived(temp: nat, c: Code, scopes: seq<Scope>, env: Env<Val>, n: nat, s: Regs, t: Regs) {
    && Reached(Blind(c, temp), s, t) && Unnamed(c, temp)
    && ScopesOk(scopes) && EnvAgrees(Layers(scopes), env, t, n) && n < temp
  }

  lemma EnvAgreesMore(a: Env<nat>, b: Env<Val>, regs: Regs, n: nat, regs': Regs, n': nat)
    requires EnvAgrees(a, b, regs, n) && n <= n' && |regs'| == |regs|
    requires forall r :: 0 <= r <= n && r < |regs| ==> regs'[r] == regs[r]
    ensures EnvAgrees(a, b, regs', n')
  {
    hide Decode;
    forall i | 0 <= i < |a| ensures MapAgrees(a[i], b[i], regs', n') {
      assert MapAgrees(a[i], b[i], regs, n);
    }
  }

  /** No variable is in the temporary register. */
  lemma TempNotInScope(temp: nat, c: Code, scopes: seq<Scope>, env: Env<Val>, n: nat, s: Regs, t: Regs)
    requires Arrived(temp, c, scopes, env, n, s, t)
    ensures NotInScope(scopes, temp)
  {
    hide Reached, Unnamed, ScopesOk, EnvAgrees, Layers, Lookup, Find, Decode, Blind;
    forall x ensures Lookup(scopes, x) != Some(temp) {
      LookupIsFind(scopes, x);
      FindAgrees(Layers(scopes), env, t, n, x);
    }
  }

  lemma MoveRuns(insts: seq<Inst>, temp: nat, reg: nat, s: Regs, t: Regs)
    requires Run(insts, s) == Some(t) && 0 < temp < |t| && temp < REGISTER_LIMIT && reg < |t| && reg < REGISTER_LIMIT
    ensures Run(insts + [MovInst(temp, reg)], s) == Some(t[temp := t[reg]])
  {
    hide Run;
    FieldIs(temp);
    FieldIs(reg);
    FieldIs(0);
    RunOneMore(insts, MovInst(temp, reg), s);
  }

  /** The next block starts with what it knows being true. */
  lemma NextTablesTrue(temp: nat, c: Code, reg: nat, t: Regs, w: Word)
    requires ConstantsTrue(Blind(c, temp), t) && NumbersTrue(Blind(c, temp), t) && Unnamed(c, temp)
    requires 0 < temp < |t| && t[0] == FromInt(0)
    ensures var next := Blind(Below(MovUpper(c, temp, reg)), temp);
            ConstantsTrue(next, t[temp := w]) && NumbersTrue(next, t[temp := w])
    ensures Unnamed(Below(MovUpper(c, temp, reg)), temp)
  {
    hide FromInt, Field, IsKnown;
    var next := Blind(Below(MovUpper(c, temp, reg)), temp);
    assert next.numbers == (c.numbers - {temp})[0 := FromInt(0)];
  }

  lemma NextArrived(temp: nat, c: Code, reg: nat, scopes: seq<Scope>, env: Env<Val>, n: nat, s: Regs, t: Regs, w: Word)
    requires Arrived(temp, c, scopes, env, n, s, t) && 0 < temp
    ensures temp < |t|
    ensures Arrived(temp, Below(MovUpper(c, temp, reg)), scopes, env, n, t[temp := w], t[temp := w])
    ensures Sound(Blind(Below(MovUpper(c, temp, reg)), temp), scopes, env, t[temp := w], t[temp := w])
  {
    hide ConstantsTrue, NumbersTrue, ScopesOk, EnvAgrees, Layers, FromInt, Field, IsKnown;
    NextTablesTrue(temp, c, reg, t, w);
    EnvAgreesMore(Layers(scopes), env, t, n, t[temp := w], n);
    EnvAgreesMore(Layers(scopes), env, t, n, t[temp := w], c.registerNr);
  }

  lemma {:induction false} OperandsGrow(temp: nat, c: Code, reg: nat, rest: seq<Expr>, scopes: seq<Scope>)
    requires CompileOperands(temp, c, reg, rest, scopes).Some?
    ensures c.registerNr <= CompileOperands(temp, c, reg, rest, scopes).value.1
    ensures |CompileOperands(temp, c, reg, rest, scopes).value.0| == |rest| + 1
    ensures CompileOperands(temp, c, reg, rest, scopes).value.0[0] == Operand(c.insts, reg)
    decreases |rest|
  {
    hide Compile;
    if rest != [] {
      var next := Below(MovUpper(c, temp, reg));
      CompileGrows(rest[0], next, scopes);
      var r := Compile(rest[0], next, scopes).value;
      OperandsGrow(temp, r.code, r.reg, rest[1..], scopes);
    }
  }

  /** What the chain is worth once its first operand is worth v. */
  function LogicFrom(isAnd: bool, v: Option<Val>, rest: seq<Expr>, env: Env<Val>): Option<Val> {
    match v
    case None => None
    case Some(val) => if rest == [] || IsFalseVal(val) == isAnd then Some(val) else LogicEval(isAnd, rest, env)
  }

  function CountFrom(isAnd: bool, v: Option<Val>, rest: seq<Expr>, env: Env<Val>): nat {
    match v
    case None => 1
    case Some(val) => if rest == [] || IsFalseVal(val) == isAnd then 1 else 1 + LogicCount(isAnd, rest, env)
  }

  /** The code evaluates the chain: same value, same number of operands, same
      traps, and the first n registers are as they were. */
  ghost predicate Computes(isAnd: bool, temp: nat, ops: seq<Operand>, s: RegFile, t: Regs, n: nat,
          v: Option<Val>, count: nat)
  {
    && ops != [] && Evaluated(isAnd, temp, s, ops, 0) == count
    && match v
       case None => Evaluate(isAnd, temp, s, ops, 0) == None
       case Some(val) =>
         var end := Evaluate(isAnd, temp, s, ops, 0);
         && end.Some? && |end.value| == |s| && temp < |s| && n < |s| && |t| == |s|
         && Decode(end.value[temp]) == val
         && forall r :: 0 <= r <= n ==> end.value[r] == t[r]
  }

  /** The operand at hand stops the chain, or traps. */
  lemma LastOperand(isAnd: bool, temp: nat, c: Code, reg: nat, v: Option<Val>, rest: seq<Expr>, scopes: seq<Scope>,
        env: Env<Val>, n: nat, s: RegFile, t: Regs)
    requires 0 < temp < |s| && temp < REGISTER_LIMIT && (v.Some? ==> reg < REGISTER_LIMIT)
    requires CompileOperands(temp, c, reg, rest, scopes).Some?
    requires v == None ==> Run(c.insts, s) == None
    requires v.Some? ==> Arrived(temp, c, scopes, env, n, s, t) && |t| == |s| && reg < |t| && Decode(t[reg]) == v.value
    requires v.Some? ==> rest == [] || IsFalseVal(v.value) == isAnd
    ensures Computes(isAnd, temp, CompileOperands(temp, c, reg, rest, scopes).value.0, s, t, n,
                     LogicFrom(isAnd, v, rest, env), CountFrom(isAnd, v, rest, env))
  {
    hide Run, Compile, Evaluate, Evaluated, IsFalse, IsFalseVal, Decode, MovInst, ConstantsTrue, NumbersTrue;
    hide ScopesOk, EnvAgrees;
    hide CompileOperands;
    var ops := CompileOperands(temp, c, reg, rest, scopes).value.0;
    OperandsGrow(temp, c, reg, rest, scopes);
    EvaluateStep(isAnd, temp, s, ops, 0);
    if v == None {
      RunOneMore(c.insts, MovInst(temp, reg), s);
    } else {
      MoveRuns(c.insts, temp, reg, s, t);
      FalseByValue(t[reg]);
    }
  }

  lemma {:induction false} OperandsMean(isAnd: bool, temp: nat, c: Code, reg: nat, v: Option<Val>, rest: seq<Expr>,
        scopes: seq<Scope>, env: Env<Val>, n: nat, s: RegFile, t: Regs)
    requires 0 < temp < |s| && temp < REGISTER_LIMIT && (v.Some? ==> reg <= c.registerNr)
    requires CompileOperands(temp, c, reg, rest, scopes).Some?
    requires HasRoom(CompileOperands(temp, c, reg, rest, scopes).value.1, s)
    requires v == None ==> Run(c.insts, s) == None
    requires v.Some? ==> Arrived(temp, c, scopes, env, n, s, t) && |t| == |s| && reg < |t| && Decode(t[reg]) == v.value
    ensures Computes(isAnd, temp, CompileOperands(temp, c, reg, rest, scopes).value.0, s, t, n,
                     LogicFrom(isAnd, v, rest, env), CountFrom(isAnd, v, rest, env))
    decreases |rest|
  {
    hide Run, Compile, Evaluate, Evaluated, IsFalse, IsFalseVal, Decode, Arrived, Computes, Blind, MovInst;
    hide Below, MovUpper, Eval;
    OperandsGrow(temp, c, reg, rest, scopes);
    if v == None || rest == [] || IsFalseVal(v.value) == isAnd {
      LastOperand(isAnd, temp, c, reg, v, rest, scopes, env, n, s, t);
    } else {
      ArrivedParts(temp, c, scopes, env, n, s, t);
      var next := Below(MovUpper(c, temp, reg));
      var r := Compile(rest[0], next, scopes).value;
      NextArrived(temp, c, reg, scopes, env, n, s, t, t[reg]);
      var s': Regs := t[temp := t[reg]];
      OperandsGrow(temp, r.code, r.reg, rest[1..], scopes);
      var t' := OperandRuns(temp, next, scopes, env, n, s', rest[0]);
      OperandsMean(isAnd, temp, r.code, r.reg, Eval(rest[0], env), rest[1..], scopes, env, n, s', t');
      ChainGoesOn(isAnd, temp, c, reg, v.value, rest, scopes, env, n, s, t, s', t');
    }
  }

  /** What follows the first operand follows in the whole chain. */
  lemma ChainGoesOn(isAnd: bool, temp: nat, c: Code, reg: nat, v: Val, rest: seq<Expr>, scopes: seq<Scope>,
        env: Env<Val>, n: nat, s: RegFile, t: Regs, s': RegFile, t': Regs)
    requires 0 < temp < |s| && temp < REGISTER_LIMIT && reg < REGISTER_LIMIT && n < temp
    requires rest != [] && CompileOperands(temp, c, reg, rest, scopes).Some?
    requires Run(c.insts, s) == Some(t) && |t| == |s| && reg < |t| && s' == t[temp := t[reg]]
    requires Decode(t[reg]) == v && IsFalseVal(v) != isAnd
    requires Eval(rest[0], env).Some? ==> |t'| == |t| && forall k :: 0 <= k <= n ==> t'[k] == s'[k]
    requires var r := Compile(rest[0], Below(MovUpper(c, temp, reg)), scopes).value;
             Computes(isAnd, temp, CompileOperands(temp, r.code, r.reg, rest[1..], scopes).value.0, s', t', n,
                      LogicFrom(isAnd, Eval(rest[0], env), rest[1..], env),
                      CountFrom(isAnd, Eval(rest[0], env), rest[1..], env))
    ensures Computes(isAnd, temp, CompileOperands(temp, c, reg, rest, scopes).value.0, s, t, n,
                     LogicFrom(isAnd, Some(v), rest, env), CountFrom(isAnd, Some(v), rest, env))
  {
    hide Run, Compile, Evaluate, Evaluated, IsFalse, IsFalseVal, Decode, MovInst, Below, MovUpper, Eval;
    var r := Compile(rest[0], Below(MovUpper(c, temp, reg)), scopes).value;
    var sub := CompileOperands(temp, r.code, r.reg, rest[1..], scopes).value.0;
    var ops := CompileOperands(temp, c, reg, rest, scopes).value.0;
    assert ops == [Operand(c.insts, reg)] + sub;
    hide CompileOperands;
    MoveRuns(c.insts, temp, reg, s, t);
    FalseByValue(t[reg]);
    EvaluateStep(isAnd, temp, s, ops, 0);
    EvaluateShift(isAnd, temp, s', Operand(c.insts, reg), sub, 0);
  }

  lemma ArrivedParts(temp: nat, c: Code, scopes: seq<Scope>, env: Env<Val>, n: nat, s: Regs, t: Regs)
    requires Arrived(temp, c, scopes, env, n, s, t)
    ensures Run(c.insts, s) == Some(t) && n < temp && |t| > 0 && t[0] == 1
  {
    hide ConstantsTrue, NumbersTrue, Run;
    SmallFromInt();
  }

  lemma SmallFromInt()
    ensures FromInt(0) == 1
  {
  }

  /** One more operand, compiled with the stale number in sight and run without it. */
  lemma OperandRuns(temp: nat, c: Code, scopes: seq<Scope>, env: Env<Val>, n: nat, s: Regs, e: Expr) returns (t: Regs)
    requires Arrived(temp, c, scopes, env, n, s, s) && Sound(Blind(c, temp), scopes, env, s, s)
    requires Compile(e, c, scopes).Some? && HasRoom(Compile(e, c, scopes).value.code.registerNr, s)
    ensures var r := Compile(e, c, scopes).value;
            && (Eval(e, env) == None ==> Run(r.code.insts, s) == None)
            && (Eval(e, env).Some? ==>
                 && Arrived(temp, r.code, scopes, env, n, s, t) && |t| == |s| && r.reg <= r.code.registerNr < |t|
                 && Decode(t[r.reg]) == Eval(e, env).value
                 && forall k :: 0 <= k <= n ==> t[k] == s[k])
  {
    hide Run, Compile, Eval, Decode, Reached, ScopesOk, EnvAgrees, Layers, Unnamed, Blind;
    TempNotInScope(temp, c, scopes, env, n, s, s);
    CompileBlind(e, c, scopes, temp);
    BlindKeepsCode(Compile(e, c, scopes).value.code, temp);
    BlindKeepsCode(c, temp);
    t := ExprRuns(e, Blind(c, temp), scopes, env, s, s);
    if Eval(e, env).Some? {
      UnnamedSize(c, temp);
      EnvAgreesMore(Layers(scopes), env, s, n, t, n);
    }
  }

  lemma BlindKeepsCode(c: Code, temp: nat)
    ensures Blind(c, temp).insts == c.insts && Blind(c, temp).registerNr == c.registerNr
  {
  }

  lemma UnnamedSize(c: Code, temp: nat)
    requires Unnamed(c, temp)
    ensures temp <= c.registerNr
  {
  }

  /** The first operand, run: the chain starts with everything known being true. */
  lemma FirstArrived(first: Compiled, scopes: seq<Scope>, env: Env<Val>, c: Code, init: Regs, regs: Regs, t: Regs)
    requires Sound(c, scopes, env, init, regs) && Reached(first.code, init, t) && Keeps(c, regs, t) && Extends(c, first.code)
    requires first.code.registerNr + 1 < |t|
    ensures var temp := first.code.registerNr + 1;
            && Arrived(temp, first.code.(registerNr := temp), scopes, env, first.code.registerNr, init, t)
            && temp !in first.code.numbers
  {
    hide ScopesOk, EnvAgrees, Layers, Run;
    EnvAgreesMore(Layers(scopes), env, regs, c.registerNr, t, first.code.registerNr);
  }

  /** What the end block knows, the temporary register aside, is true when the chain ends. */
  lemma EndTablesTrue(first: Compiled, init: Regs, t: Regs, end: Regs, m: nat)
    requires Reached(first.code, init, t) && |end| == |t| && first.code.registerNr < m < |end| && end[0] == FromInt(0)
    requires forall r :: 0 <= r <= first.code.registerNr ==> end[r] == t[r]
    ensures var temp := first.code.registerNr + 1;
            var c := Below(MovUpper(first.code.(registerNr := temp), temp, first.reg)).(registerNr := m);
            Reached(Blind(c, temp), end, end)
  {
    hide FromInt, Field, IsKnown;
    var temp := first.code.registerNr + 1;
    var c := Below(MovUpper(first.code.(registerNr := temp), temp, first.reg)).(registerNr := m);
    assert Blind(c, temp).numbers == (first.code.numbers - {temp})[0 := FromInt(0)];
  }

  /** Compiling `&&` and `||` is right.  The code evaluates exactly the operands up
      to the first that decides, traps exactly when one of those has no value, and
      leaves the value of the chain in the temporary register and every variable in
      its own; and all that the end block knows about other registers is true. */
  lemma LogicRuns(isAnd: bool, es: seq<Expr>, c: Code, scopes: seq<Scope>, env: Env<Val>, init: RegFile, regs: Regs)
    requires |es| >= 2 && Sound(c, scopes, env, init, regs) && CompileLogic(es, c, scopes).Some?
    requires HasRoom(CompileLogic(es, c, scopes).value.atEnd.registerNr, init)
    ensures var chain := CompileLogic(es, c, scopes).value;
            && |chain.ops| == |es|
            && Evaluated(isAnd, chain.temp, init, chain.ops, 0) == LogicCount(isAnd, es, env)
            && match LogicEval(isAnd, es, env)
               case None => Evaluate(isAnd, chain.temp, init, chain.ops, 0) == None
               case Some(v) =>
                 var end := Evaluate(isAnd, chain.temp, init, chain.ops, 0);
                 && end.Some? && chain.temp < |end.value| && Decode(end.value[chain.temp]) == v
                 && Sound(Blind(chain.atEnd, chain.temp), scopes, env, end.value, end.value)
  {
    var t := LogicComputes(isAnd, es, c, scopes, env, init, regs);
    hide Run, Compile, Evaluate, Evaluated, Eval, Decode, Sound, CompileOperands, Below, MovUpper, Blind;
    var first := Compile(es[0], c, scopes).value;
    var chain := CompileLogic(es, c, scopes).value;
    var c1 := first.code.(registerNr := chain.temp);
    OperandsGrow(chain.temp, c1, first.reg, es[1..], scopes);
    FromValue(isAnd, es, env);
    if LogicEval(isAnd, es, env).Some? {
      LogicEndSound(first, chain, scopes, env, c, init, regs, t, Evaluate(isAnd, chain.temp, init, chain.ops, 0).value);
    }
  }

  /** The operands' code holds no jump and no return. */
  lemma {:induction false} OperandsStraight(temp: nat, c: Code, reg: nat, rest: seq<Expr>, scopes: seq<Scope>)
    requires CompileOperands(temp, c, reg, rest, scopes).Some? && Straight(c.insts)
    ensures forall op :: op in CompileOperands(temp, c, reg, rest, scopes).value.0 ==> Straight(op.code)
    decreases |rest|
  {
    hide Compile, Straight, MovUpper;
    if rest != [] {
      var next := Below(MovUpper(c, temp, reg));
      StraightEmpty();
      CompileGrows(rest[0], next, scopes);
      var r := Compile(rest[0], next, scopes).value;
      OperandsStraight(temp, r.code, r.reg, rest[1..], scopes);
    }
  }

  lemma StraightEmpty()
    ensures Straight([])
  {
  }

  lemma LogicStraight(es: seq<Expr>, c: Code, scopes: seq<Scope>)
    requires |es| >= 2 && CompileLogic(es, c, scopes).Some? && Straight(c.insts)
    ensures var ops := CompileLogic(es, c, scopes).value.ops;
            ops != [] && forall j :: 0 <= j < |ops| ==> Straight(ops[j].code)
  {
    hide Compile, Straight, CompileOperands;
    CompileGrows(es[0], c, scopes);
    var first := Compile(es[0], c, scopes).value;
    var temp := first.code.registerNr + 1;
    OperandsGrow(temp, first.code.(registerNr := temp), first.reg, es[1..], scopes);
    OperandsStraight(temp, first.code.(registerNr := temp), first.reg, es[1..], scopes);
  }

  /** From expressions to laid-out code: in any function that has the blocks of
      the chain, the code at the first operand's block traps if the chain has no
      value, and otherwise gets to the end block with that value. */
  lemma LogicInCode(g: Graph, code: seq<Inst>, isAnd: bool, es: seq<Expr>, c: Code, scopes: seq<Scope>, env: Env<Val>,
        init: RegFile, regs: Regs, current: nat, n: nat)
    returns (k: nat)
    requires |es| >= 2 && Sound(c, scopes, env, init, regs) && Straight(c.insts) && CompileLogic(es, c, scopes).Some?
    requires HasRoom(CompileLogic(es, c, scopes).value.atEnd.registerNr, init)
    requires var chain := CompileLogic(es, c, scopes).value;
             WellLinked(g) && HasCode(g, code) && HasChain(g, isAnd, chain.temp, chain.ops, current, n)
    ensures current < |g| && n < |g|
    ensures var chain := CompileLogic(es, c, scopes).value;
            var last := FlatRun(CVM, code, At(Entry(g, current), init), k);
            match LogicEval(isAnd, es, env)
            case None => last == Done(Trapped)
            case Some(v) =>
              && last.At? && last.pc == Entry(g, n) && chain.temp < |last.s| && Decode(last.s[chain.temp]) == v
              && Sound(Blind(chain.atEnd, chain.temp), scopes, env, last.s, last.s)
  {
    hide Sound, Straight, CompileLogic, WellLinked, HasCode, HasChain, LogicEval, Evaluate, Evaluated, Decode, Blind;
    hide FlatRun, Entry;
    var chain := CompileLogic(es, c, scopes).value;
    LogicStraight(es, c, scopes);
    LogicTemp(es, c, scopes);
    LogicRuns(isAnd, es, c, scopes, env, init, regs);
    ChainSize(g, isAnd, chain.temp, chain.ops, current, n);
    k := ChainInCode(g, code, isAnd, chain.temp, chain.ops, current, n, init);
  }

  lemma LogicTemp(es: seq<Expr>, c: Code, scopes: seq<Scope>)
    requires |es| >= 2 && CompileLogic(es, c, scopes).Some?
    ensures 0 < CompileLogic(es, c, scopes).value.temp <= CompileLogic(es, c, scopes).value.atEnd.registerNr
  {
    hide Compile, CompileOperands;
    var first := Compile(es[0], c, scopes).value;
    var temp := first.code.registerNr + 1;
    OperandsGrow(temp, first.code.(registerNr := temp), first.reg, es[1..], scopes);
  }

  lemma FromValue(isAnd: bool, es: seq<Expr>, env: Env<Val>)
    requires |es| >= 2
    ensures LogicEval(isAnd, es, env) == LogicFrom(isAnd, Eval(es[0], env), es[1..], env)
    ensures LogicCount(isAnd, es, env) == CountFrom(isAnd, Eval(es[0], env), es[1..], env)
    ensures LogicEval(isAnd, es, env).Some? ==> Eval(es[0], env).Some?
  {
    hide Eval, IsFalseVal;
  }

  lemma LogicEndSound(first: Compiled, chain: Chain, scopes: seq<Scope>, env: Env<Val>, c: Code, init: RegFile,
        regs: Regs, t: Regs, end: RegFile)
    requires Sound(c, scopes, env, init, regs) && Extends(c, first.code)
    requires Reached(first.code, init, t) && Keeps(c, regs, t)
    requires chain.temp == first.code.registerNr + 1 <= chain.atEnd.registerNr < |end| && |end| == |t|
    requires var c1 := first.code.(registerNr := chain.temp);
             chain.atEnd == Below(MovUpper(c1, chain.temp, first.reg)).(registerNr := chain.atEnd.registerNr)
    requires forall r :: 0 <= r <= first.code.registerNr ==> end[r] == t[r]
    ensures Sound(Blind(chain.atEnd, chain.temp), scopes, env, end, end)
  {
    hide Run, Below, MovUpper, ScopesOk, EnvAgrees, Layers, ConstantsTrue, NumbersTrue;
    SmallFromInt();
    EndTablesTrue(first, init, t, end, chain.atEnd.registerNr);
    EnvAgreesMore(Layers(scopes), env, regs, c.registerNr, end, chain.atEnd.registerNr);
  }

  /** Of the temporary register the end block knows what was known of the first
      operand's, which is what that operand was worth. */
  ghost predicate FirstKnown(chain: Chain, first: Compiled, w: Word) {
    && (chain.temp in chain.atEnd.numbers <==> IsKnown(first.code, first.reg))
    && (IsKnown(first.code, first.reg) ==>
          chain.atEnd.numbers[chain.temp] == w && first.code.numbers[first.reg] == w)
  }

  lemma TempKnown(first: Compiled, chain: Chain, t: Regs)
    requires first.code.registerNr + 1 !in first.code.numbers && first.reg < |t| && NumbersTrue(first.code, t)
    requires chain.temp == first.code.registerNr + 1
    requires var c1 := first.code.(registerNr := chain.temp);
             chain.atEnd == Below(MovUpper(c1, chain.temp, first.reg)).(registerNr := chain.atEnd.registerNr)
    ensures FirstKnown(chain, first, t[first.reg])
  {
    hide IsInt, Field, FromInt;
  }

  /** The first operand leaves t; then the others. */
  lemma LogicComputes(isAnd: bool, es: seq<Expr>, c: Code, scopes: seq<Scope>, env: Env<Val>, init: RegFile, regs: Regs)
    returns (t: Regs)
    requires |es| >= 2 && Sound(c, scopes, env, init, regs) && CompileLogic(es, c, scopes).Some?
    requires HasRoom(CompileLogic(es, c, scopes).value.atEnd.registerNr, init)
    ensures var chain, first := CompileLogic(es, c, scopes).value, Compile(es[0], c, scopes).value;
            && Extends(c, first.code) && chain.temp <= chain.atEnd.registerNr
            && Computes(isAnd, chain.temp, chain.ops, init, t, first.code.registerNr,
                        LogicEval(isAnd, es, env), LogicCount(isAnd, es, env))
            && (Eval(es[0], env).Some? ==>
                 && Reached(first.code, init, t) && Keeps(c, regs, t) && first.reg <= first.code.registerNr
                 && |t| == |init| && Decode(t[first.reg]) == Eval(es[0], env).value
                 && FirstKnown(chain, first, t[first.reg]))
  {
    hide Run, Compile, Evaluate, Evaluated, Eval, Decode, CompileOperands, ScopesOk, EnvAgrees, Layers, ConstantsTrue;
    hide FromInt, Computes, Arrived, Below, MovUpper, NumbersTrue, FirstKnown, Straight;
    var first := Compile(es[0], c, scopes).value;
    var chain := CompileLogic(es, c, scopes).value;
    var temp := chain.temp;
    var c1 := first.code.(registerNr := temp);
    OperandsGrow(temp, c1, first.reg, es[1..], scopes);
    CompileGrows(es[0], c, scopes);
    RunKeepsSize(c.insts, init);
    t := ExprRuns(es[0], c, scopes, env, init, regs);
    FromValue(isAnd, es, env);
    if Eval(es[0], env).Some? {
      FirstArrived(first, scopes, env, c, init, regs, t);
      TempKnown(first, chain, t);
    }
    OperandsMean(isAnd, temp, c1, first.reg, Eval(es[0], env), es[1..], scopes, env, first.code.registerNr, init, t);
  }

  // ----- what the end block believes about the result -----

  /** No operand decides. */
  ghost predicate NoneDecides(isAnd: bool, es: seq<Expr>, env: Env<Val>) {
    forall i :: 0 <= i < |es| ==> Eval(es[i], env).Some? && IsFalseVal(Eval(es[i], env).value) != isAnd
  }

  lemma {:induction false} LogicStops(isAnd: bool, es: seq<Expr>, env: Env<Val>)
    requires es != [] && LogicEval(isAnd, es, env).Some?
    ensures NoneDecides(isAnd, es, env) ==> LogicEval(isAnd, es, env) == Eval(es[|es| - 1], env)
    ensures !NoneDecides(isAnd, es, env) ==> IsFalseVal(LogicEval(isAnd, es, env).value) == isAnd
    decreases |es|
  {
    hide Eval, IsFalseVal;
    if |es| > 1 && IsFalseVal(Eval(es[0], env).value) != isAnd {
      LogicStops(isAnd, es[1..], env);
      if NoneDecides(isAnd, es[1..], env) {
        forall i | 0 <= i < |es| ensures Eval(es[i], env).Some? && IsFalseVal(Eval(es[i], env).value) != isAnd {
          if i > 0 {
            assert es[i] == es[1..][i - 1];
          }
        }
      } else {
        var i :| 0 <= i < |es[1..]|
              && !(Eval(es[1..][i], env).Some? && IsFalseVal(Eval(es[1..][i], env).value) != isAnd);
        assert es[i + 1] == es[1..][i];
      }
    }
  }

  /** What the end block knows about the result, if anything, is what is there. */
  ghost predicate BeliefRight(chain: Chain, end: Regs) {
    chain.temp in chain.atEnd.numbers ==> chain.temp < |end| && chain.atEnd.numbers[chain.temp] == end[chain.temp]
  }

  /** For one run: the belief is right exactly when the first operand is no known
      number, or decides, or no operand decides and the last one happens to be
      worth the same as the first. */
  lemma BeliefOfRun(isAnd: bool, es: seq<Expr>, c: Code, scopes: seq<Scope>, env: Env<Val>, init: RegFile, regs: Regs)
    requires |es| >= 2 && Sound(c, scopes, env, init, regs) && CompileLogic(es, c, scopes).Some?
    requires HasRoom(CompileLogic(es, c, scopes).value.atEnd.registerNr, init) && LogicEval(isAnd, es, env).Some?
    ensures var chain, first := CompileLogic(es, c, scopes).value, Compile(es[0], c, scopes).value;
            var end := Evaluate(isAnd, chain.temp, init, chain.ops, 0);
            end.Some? &&
            (BeliefRight(chain, end.value) <==>
              || !IsKnown(first.code, first.reg)
              || Decides(isAnd, first.code.numbers[first.reg])
              || (NoneDecides(isAnd, es, env) && Eval(es[|es| - 1], env) == Eval(es[0], env)))
  {
    hide Run, Compile, Evaluate, Evaluated, Eval, Decode, Sound, Reached, IsFalse, IsFalseVal, IsKnown;
    var t := LogicComputes(isAnd, es, c, scopes, env, init, regs);
    FromValue(isAnd, es, env);
    LogicStops(isAnd, es, env);
    var chain, first := CompileLogic(es, c, scopes).value, Compile(es[0], c, scopes).value;
    var end := Evaluate(isAnd, chain.temp, init, chain.ops, 0).value;
    DecodeInjective(t[first.reg], end[chain.temp]);
    FalseByValue(t[first.reg]);
    FirstOfNone(isAnd, es, env);
  }

  lemma FirstOfNone(isAnd: bool, es: seq<Expr>, env: Env<Val>)
    requires es != []
    ensures NoneDecides(isAnd, es, env) ==> Eval(es[0], env).Some? && IsFalseVal(Eval(es[0], env).value) != isAnd
  {
    hide Eval, IsFalseVal;
  }

  /** The belief about `e0 && rest` or `e0 || rest`, whatever the rest is. */
  ghost predicate Believed(isAnd: bool, e0: Expr, rest: seq<Expr>, c: Code, scopes: seq<Scope>, init: RegFile) {
    rest != [] && CompileLogic([e0] + rest, c, scopes).Some? ==>
      var chain := CompileLogic([e0] + rest, c, scopes).value;
      HasRoom(chain.atEnd.registerNr, init) && Outcome(isAnd, chain, init).Some? ==>
        BeliefRight(chain, Outcome(isAnd, chain, init).value)
  }

  ghost function Outcome(isAnd: bool, chain: Chain, init: RegFile): Option<RegFile> {
    if chain.ops == [] then None else Evaluate(isAnd, chain.temp, init, chain.ops, 0)
  }

  /** The compiler can rely on its belief, whatever operands follow, exactly when
      the first operand is no known number or decides the chain by itself: a test
      it could make before it goes on. */
  lemma BeliefIff(isAnd: bool, e0: Expr, c: Code, scopes: seq<Scope>, env: Env<Val>, init: RegFile, regs: Regs)
    requires Sound(c, scopes, env, init, regs) && Compile(e0, c, scopes).Some? && Eval(e0, env).Some?
    requires HasRoom(Compile(e0, c, scopes).value.code.registerNr + 2, init)
    ensures var first := Compile(e0, c, scopes).value;
            (forall rest :: Believed(isAnd, e0, rest, c, scopes, init))
            <==> (!IsKnown(first.code, first.reg) || Decides(isAnd, first.code.numbers[first.reg]))
  {
    hide Run, Compile, Evaluate, Evaluated, Eval, Decode, Sound, Reached, IsFalse, IsFalseVal;
    hide CompileLogic, BeliefRight, Decides;
    var first := Compile(e0, c, scopes).value;
    if !IsKnown(first.code, first.reg) || Decides(isAnd, first.code.numbers[first.reg]) {
      forall rest ensures Believed(isAnd, e0, rest, c, scopes, init) {
        BeliefSafe(isAnd, e0, rest, c, scopes, env, init, regs);
      }
    } else {
      Refuted(isAnd, e0, c, scopes, env, init, regs);
    }
  }

  lemma BeliefSafe(isAnd: bool, e0: Expr, rest: seq<Expr>, c: Code, scopes: seq<Scope>, env: Env<Val>,
        init: RegFile, regs: Regs)
    requires Sound(c, scopes, env, init, regs) && Compile(e0, c, scopes).Some? && Eval(e0, env).Some?
    requires var first := Compile(e0, c, scopes).value;
             !IsKnown(first.code, first.reg) || Decides(isAnd, first.code.numbers[first.reg])
    ensures Believed(isAnd, e0, rest, c, scopes, init)
  {
    hide Run, Compile, Evaluate, Evaluated, Eval, Decode, Sound, Reached, IsFalse, IsFalseVal;
    hide CompileLogic, IsKnown, BeliefRight, Decides;
    var es := [e0] + rest;
    assert es[0] == e0;
    if rest != [] && CompileLogic(es, c, scopes).Some? {
      var chain := CompileLogic(es, c, scopes).value;
      if HasRoom(chain.atEnd.registerNr, init) {
        LogicRuns(isAnd, es, c, scopes, env, init, regs);
        if LogicEval(isAnd, es, env).Some? {
          BeliefOfRun(isAnd, es, c, scopes, env, init, regs);
        }
      }
    }
  }

  /** A known first operand that does not decide is refuted by `&& 0` or `|| 1`. */
  lemma Refuted(isAnd: bool, e0: Expr, c: Code, scopes: seq<Scope>, env: Env<Val>, init: RegFile, regs: Regs)
    requires Sound(c, scopes, env, init, regs) && Compile(e0, c, scopes).Some? && Eval(e0, env).Some?
    requires var first := Compile(e0, c, scopes).value;
             && HasRoom(first.code.registerNr + 2, init)
             && IsKnown(first.code, first.reg) && !Decides(isAnd, first.code.numbers[first.reg])
    ensures !Believed(isAnd, e0, [Num(if isAnd then 0 else 1)], c, scopes, init)
  {
    hide Run, Evaluate, Evaluated, Decode, Sound, Reached, IsFalse, IsKnown, BeliefRight, Decides, Li, Below;
    hide MovUpper;
    var k := if isAnd then 0 else 1;
    var es := [e0, Num(k)];
    assert [e0] + [Num(k)] == es;
    var first := Compile(e0, c, scopes).value;
    TwoCompile(first, k, scopes);
    assert es[1..] == [Num(k)];
    TruthSmall();
    assert CompileLogic(es, c, scopes) == CompileRest(first, [Num(k)], scopes);
    hide Compile, CompileRest;
    LogicRuns(isAnd, es, c, scopes, env, init, regs);
    TwoValue(isAnd, e0, k, env);
    BeliefOfRun(isAnd, es, c, scopes, env, init, regs);
    assert Eval(es[1], env) == Some(Number(k));
  }

  lemma TwoCompile(first: Compiled, k: int, scopes: seq<Scope>)
    ensures CompileRest(first, [Num(k)], scopes).Some?
    ensures CompileRest(first, [Num(k)], scopes).value.atEnd.registerNr <= first.code.registerNr + 2
    ensures CompileRest(first, [Num(k)], scopes).value.ops != []
  {
    hide Field, FromInt, MovUpper;
    var temp := first.code.registerNr + 1;
    var c := first.code.(registerNr := temp);
    var next := Below(MovUpper(c, temp, first.reg));
    MovUpperSize(c, temp, first.reg);
    LiGrows(next, k);
    assert [Num(k)][1..] == [];
    assert CompileOperands(temp, Li(next, k).code, Li(next, k).reg, [], scopes).Some?;
  }

  lemma MovUpperSize(c: Code, rd: nat, rs: nat)
    ensures MovUpper(c, rd, rs).registerNr == c.registerNr
  {
  }

  lemma TwoValue(isAnd: bool, e0: Expr, k: int, env: Env<Val>)
    requires Eval(e0, env).Some? && Wrap30(k) == k
    ensures LogicEval(isAnd, [e0, Num(k)], env).Some?
  {
    hide Wrap30, IsFalseVal;
    assert [e0, Num(k)][1..] == [Num(k)];
  }

  /** `(1 && 0) + 1` in a new function: the machine has 0 for the first operand of
      the sum, which is therefore 1, but the compiler believes in the 1 in front of
      `&&` and folds the sum to 2. */
  lemma StaleNumber(n: nat, frame: RegFile)
    requires HasRoom(n + 3, frame)
    ensures CompileLogic([Num(1), Num(0)], NewCode(n), [Scope(map[], map[])]).Some?
    ensures var chain := CompileLogic([Num(1), Num(0)], NewCode(n), [Scope(map[], map[])]).value;
            var one := Li(chain.atEnd, 1);
            && chain.ops != [] && Evaluate(true, chain.temp, frame, chain.ops, 0).Some?
            && (var end := Evaluate(true, chain.temp, frame, chain.ops, 0).value;
                chain.temp < |end| && Decode(end[chain.temp]) == Number(0))
            && Arith(one.code, Add, chain.temp, one.reg) == Some(Li(one.code, 2))
  {
    hide Sound, Evaluate, Evaluated, Run;
    var es, scopes := [Num(1), Num(0)], [Scope(map[], map[])];
    StaleFold(n, scopes);
    StaleValue(Arguments(map[], frame));
    StartSound(map[], n, frame);
    hide CompileLogic, Arguments, LogicEval, Decode;
    LogicRuns(true, es, NewCode(n), scopes, Arguments(map[], frame), frame, frame);
  }

  lemma StaleValue(env: Env<Val>)
    ensures LogicEval(true, [Num(1), Num(0)], env) == Some(Number(0))
  {
    assert [Num(1), Num(0)][1..] == [Num(0)];
  }

  lemma OneAndOne()
    ensures IsInt(FromInt(1)) && FromInt(0) != FromInt(1) && FoldOp(Add, FromInt(1), FromInt(1)) == Some(2)
  {
    hide COp;
    FromIntRoundTrip(1);
    assert COp(Add, 1, 1) == Some(2) && C32(2) == 2 by {
      AddSmall();
    }
  }

  lemma AddSmall()
    ensures COp(Add, 1, 1) == Some(2) && C32(2) == 2
  {
  }

  lemma StaleFold(n: nat, scopes: seq<Scope>)
    ensures CompileLogic([Num(1), Num(0)], NewCode(n), scopes).Some?
    ensures var chain := CompileLogic([Num(1), Num(0)], NewCode(n), scopes).value;
            var one := Li(chain.atEnd, 1);
            && chain.atEnd.registerNr <= n + 3
            && Arith(one.code, Add, chain.temp, one.reg) == Some(Li(one.code, 2))
  {
    hide Field, FromInt, FoldOp, CompileOperands, IsInt;
    var first := Li(NewCode(n), 1);
    OneAndOne();
    TwoCompile(first, 0, scopes);
    assert [Num(1), Num(0)][1..] == [Num(0)];
    var chain := CompileLogic([Num(1), Num(0)], NewCode(n), scopes).value;
    assert IsKnown(first.code, first.reg);
    assert Li(chain.atEnd, 1) == Compiled(chain.atEnd, n + 1);
  }
}
