/** The compiler is right on expressions: the register it returns holds the value
  of the expression, or the VM traps because there is none. */
module Expressions {
  import opened Values
  import opened Insts
  import opened Arithmetic
  import opened Scopes
  import opened Codes
  import opened Programs

  // ----- registers of variables -----

  ghost predicate MapAgrees(a: map<Name, nat>, b: map<Name, Val>, regs: Regs, n: nat) {
    && a.Keys == b.Keys
    && forall x :: x in a ==> a[x] <= n && a[x] < |regs| && Decode(regs[a[x]]) == b[x]
  }

  /** Every variable's register, one of the first n, holds its value. */
  ghost predicate EnvAgrees(a: Env<nat>, b: Env<Val>, regs: Regs, n: nat) {
    |a| == |b| && forall i :: 0 <= i < |a| ==> MapAgrees(a[i], b[i], regs, n)
  }

  lemma {:induction false} FindAgrees(a: Env<nat>, b: Env<Val>, regs: Regs, n: nat, x: Name)
    requires EnvAgrees(a, b, regs, n)
    ensures match Find<nat>(a, x)
            case None => Find(b, x) == None
            case Some(reg) => reg <= n && reg < |regs| && Find(b, x) == Some(Decode(regs[reg]))
    decreases |a|
  {
    if a != [] {
      assert MapAgrees(a[0], b[0], regs, n);
      if x !in a[0] {
        assert forall i :: 0 <= i < |a[1..]| ==> MapAgrees(a[1..][i], b[1..][i], regs, n);
        FindAgrees(a[1..], b[1..], regs, n, x);
      }
    }
  }

  lemma MapAgreesWith(a: map<Name, nat>, b: map<Name, Val>, regs: Regs, n: nat, x: Name, reg: nat)
    requires MapAgrees(a, b, regs, n) && reg <= n && reg < |regs|
    ensures MapAgrees(a[x := reg], b[x := Decode(regs[reg])], regs, n)
  {
  }

  lemma ConsAgrees(a0: map<Name, nat>, a: Env<nat>, b0: map<Name, Val>, b: Env<Val>, regs: Regs, n: nat)
    requires MapAgrees(a0, b0, regs, n) && EnvAgrees(a, b, regs, n)
    ensures EnvAgrees([a0] + a, [b0] + b, regs, n)
  {
    hide MapAgrees;
  }

  lemma TailAgrees(a: Env<nat>, b: Env<Val>, regs: Regs, n: nat)
    requires EnvAgrees(a, b, regs, n) && a != []
    ensures MapAgrees(a[0], b[0], regs, n) && EnvAgrees(a[1..], b[1..], regs, n)
  {
    hide MapAgrees;
  }

  lemma DeclareAgrees(a: Env<nat>, b: Env<Val>, regs: Regs, n: nat, x: Name, reg: nat)
    requires EnvAgrees(a, b, regs, n) && a != [] && reg <= n && reg < |regs|
    ensures EnvAgrees(Declare(a, x, reg), Declare(b, x, Decode(regs[reg])), regs, n)
  {
    assert b != [];
    hide MapAgrees, EnvAgrees;
    TailAgrees(a, b, regs, n);
    MapAgreesWith(a[0], b[0], regs, n, x, reg);
    ConsAgrees(a[0][x := reg], a[1..], b[0][x := Decode(regs[reg])], b[1..], regs, n);
  }

  lemma {:induction false} UpdateAgrees(a: Env<nat>, b: Env<Val>, regs: Regs, n: nat, x: Name, reg: nat)
    requires EnvAgrees(a, b, regs, n) && reg <= n && reg < |regs|
    ensures EnvAgrees(Update(a, x, reg), Update(b, x, Decode(regs[reg])), regs, n)
    decreases |a|
  {
    if a != [] {
      TailAgrees(a, b, regs, n);
      assert a[0].Keys == b[0].Keys;
      hide MapAgrees, EnvAgrees;
      if x in a[0] {
        MapAgreesWith(a[0], b[0], regs, n, x, reg);
        ConsAgrees(a[0][x := reg], a[1..], b[0][x := Decode(regs[reg])], b[1..], regs, n);
      } else {
        UpdateAgrees(a[1..], b[1..], regs, n, x, reg);
        ConsAgrees(a[0], Update(a[1..], x, reg), b[0], Update(b[1..], x, Decode(regs[reg])), regs, n);
      }
    }
  }

  lemma KeepsAgrees(a: Env<nat>, b: Env<Val>, c: Code, c': Code, regs: Regs, regs': Regs)
    requires EnvAgrees(a, b, regs, c.registerNr) && Keeps(c, regs, regs') && Extends(c, c')
    ensures EnvAgrees(a, b, regs', c'.registerNr)
  {
    forall i | 0 <= i < |a| ensures MapAgrees(a[i], b[i], regs', c'.registerNr) {
      assert MapAgrees(a[i], b[i], regs, c.registerNr);
    }
  }

  // ----- operators -----

  /** The instruction for each operator, and whether its operands are swapped. */
  function Primitive(op: Operator): (BinOp, bool) {
    match op
    case Times => (Mul, false)
    case Over => (Div, false)
    case Rem => (Mod, false)
    case Plus => (Add, false)
    case Minus => (Sub, false)
    case Less => (Lt, false)
    case Greater => (Lt, true)
    case LessEq => (Le, false)
    case GreaterEq => (Le, true)
    case Equals => (Eq, false)
    case NotEquals => (Eq, false)
  }

  lemma ComparisonMeaning(a: Val, b: Val)
    ensures Meaning(Less, a, b) == Apply(Lt, a, b) && Meaning(Greater, a, b) == Apply(Lt, b, a)
    ensures Meaning(LessEq, a, b) == Apply(Le, a, b) && Meaning(GreaterEq, a, b) == Apply(Le, b, a)
  {
    hide Wrap30;
    TruthSmall();
  }

  lemma TruthSmall()
    ensures Wrap30(0) == 0 && Wrap30(1) == 1
  {
  }

  /** The swapped comparisons mean what they should. */
  lemma PrimitiveMeaning(op: Operator, a: Val, b: Val)
    requires op != NotEquals
    ensures Meaning(op, a, b) == var (p, swap) := Primitive(op); if swap then Apply(p, b, a) else Apply(p, a, b)
  {
    if op in {Less, Greater, LessEq, GreaterEq} {
      hide Apply, Meaning;
      ComparisonMeaning(a, b);
    } else if op == Equals {
    } else {
      hide Apply;
    }
  }

  /** And so does the negated one. */
  lemma NotEqualsMeaning(a: Val, b: Val)
    ensures Apply(Eq, a, b).Some? && Meaning(NotEquals, a, b) == Negate(Apply(Eq, a, b).value)
  {
  }

  lemma PrimitiveCombine(c: Code, op: Operator, l: nat, r: nat)
    requires op != NotEquals
    ensures Combine(c, op, l, r) == var (p, swap) := Primitive(op); if swap then Arith(c, p, r, l) else Arith(c, p, l, r)
  {
    hide Arith;
  }

  // ----- growth of the code -----

  /** A bound on the registers an expression takes. */
  function Cost(e: Expr): nat {
    match e
    case Num(_) => 1
    case Var(_) => 0
    case Not(e) => Cost(e) + 1
    case Neg(e) => Cost(e) + 2
    case Bin(_, l, r) => Cost(l) + Cost(r) + 2
  }

  ghost predicate GrowsBy(c: Code, c': Code, n: nat) {
    Extends(c, c') && c'.registerNr <= c.registerNr + n && (Straight(c.insts) ==> Straight(c'.insts))
  }

  lemma LiGrows(c: Code, imm: int)
    ensures GrowsBy(c, Li(c, imm).code, 1)
  {
    hide FromInt;
  }

  lemma ArithGrows(c: Code, op: BinOp, l: nat, r: nat)
    ensures Arith(c, op, l, r).Some? ==> GrowsBy(c, Arith(c, op, l, r).value.code, 1)
  {
    hide FoldOp, Li, Extends;
    if IsKnown(c, l) && IsKnown(c, r) {
      var folded := FoldOp(op, c.numbers[l], c.numbers[r]);
      if folded.Some? {
        LiGrows(c, folded.value);
      }
    } else {
      EmitGrows(c, OpCode(op), l, r);
    }
  }

  lemma EmitGrows(c: Code, op: Op, l: nat, r: nat)
    requires IsStraight(op)
    ensures GrowsBy(c, Emit(c, op, l, r).code, 1)
  {
  }

  lemma GrowsTransitive(a: Code, b: Code, c: Code, m: nat, n: nat)
    requires GrowsBy(a, b, m) && GrowsBy(b, c, n)
    ensures GrowsBy(a, c, m + n)
  {
  }

  lemma CombineGrows(c: Code, op: Operator, l: nat, r: nat)
    ensures Combine(c, op, l, r).Some? ==> GrowsBy(c, Combine(c, op, l, r).value.code, 2)
  {
    hide Arith, Emit, GrowsBy;
    if op == NotEquals {
      ArithGrows(c, Eq, l, r);
      if Arith(c, Eq, l, r).Some? {
        var e := Arith(c, Eq, l, r).value;
        EmitGrows(e.code, I_LNOT, e.reg, 0);
        GrowsTransitive(c, e.code, Lnot(e.code, e.reg).code, 1, 1);
      }
    } else {
      hide Combine;
      PrimitiveCombine(c, op, l, r);
      var (p, _) := Primitive(op);
      ArithGrows(c, p, l, r);
      ArithGrows(c, p, r, l);
      if Combine(c, op, l, r).Some? {
        GrowsMore(c, Combine(c, op, l, r).value.code);
      }
    }
  }

  lemma GrowsMore(c: Code, c': Code)
    requires GrowsBy(c, c', 1)
    ensures GrowsBy(c, c', 2)
  {
  }

  lemma {:induction false} CompileGrows(e: Expr, c: Code, scopes: seq<Scope>)
    ensures Compile(e, c, scopes).Some? ==> GrowsBy(c, Compile(e, c, scopes).value.code, Cost(e))
    decreases e
  {
    hide Li, Arith, Emit, Combine, GrowsBy, Lookup;
    if Compile(e, c, scopes).Some? {
      match e
      case Num(n) => LiGrows(c, n);
      case Var(x) => GrowsNot(c);
      case Not(e1) =>
        CompileGrows(e1, c, scopes);
        var r := Compile(e1, c, scopes).value;
        EmitGrows(r.code, I_LNOT, r.reg, 0);
        GrowsTransitive(c, r.code, Lnot(r.code, r.reg).code, Cost(e1), 1);
      case Neg(e1) =>
        CompileGrows(e1, c, scopes);
        var r := Compile(e1, c, scopes).value;
        var zero := Li(r.code, 0);
        LiGrows(r.code, 0);
        ArithGrows(zero.code, Sub, zero.reg, r.reg);
        GrowsTransitive(c, r.code, zero.code, Cost(e1), 1);
        GrowsTransitive(c, zero.code, Compile(e, c, scopes).value.code, Cost(e1) + 1, 1);
      case Bin(op, l, r) =>
        var a := Compile(l, c, scopes).value;
        var b := Compile(r, a.code, scopes).value;
        CompileGrows(l, c, scopes);
        CompileGrows(r, a.code, scopes);
        CombineGrows(b.code, op, a.reg, b.reg);
        GrowsTransitive(c, a.code, b.code, Cost(l), Cost(r));
        GrowsTransitive(c, b.code, Compile(e, c, scopes).value.code, Cost(l) + Cost(r), 2);
    }
  }

  lemma GrowsNot(c: Code)
    ensures GrowsBy(c, c, 0)
  {
  }

  // ----- expressions -----

  /** Like Gives, for a value of the language. */
  ghost predicate Yields(c: Code, e: Compiled, init: Regs, regs: Regs, v: Option<Val>, regs': Regs) {
    && Extends(c, e.code)
    && match v
       case None => Run(e.code.insts, init) == None
       case Some(val) =>
         && Reached(e.code, init, regs') && Keeps(c, regs, regs')
         && e.reg <= e.code.registerNr && e.reg < |regs'| && Decode(regs'[e.reg]) == val
  }

  /** The VM's result is the language's result, traps included. */
  ghost predicate Matches(w: Option<Word>, v: Option<Val>) {
    match w
    case None => v == None
    case Some(word) => v == Some(Decode(word))
  }

  lemma GivesYields(c: Code, e: Compiled, init: Regs, regs: Regs, w: Option<Word>, v: Option<Val>, regs': Regs)
    requires Gives(c, e, init, regs, w, regs') && Matches(w, v)
    ensures Yields(c, e, init, regs, v, regs')
  {
    hide Decode, Run, ConstantsTrue, NumbersTrue;
  }

  /** What runs first, then the rest. */
  lemma YieldsThen(c: Code, a: Compiled, b: Compiled, init: Regs, r0: Regs, r1: Regs, va: Option<Val>,
          vb: Option<Val>, r2: Regs)
    requires Yields(c, a, init, r0, va, r1) && va.Some?
    requires Yields(a.code, b, init, r1, vb, r2)
    ensures Yields(c, b, init, r0, vb, r2)
  {
    hide Reached, Run, Decode;
    ExtendsTransitive(c, a.code, b.code);
    if vb.Some? {
      KeepsTransitive(c, a.code, r0, r1, r2);
    }
  }

  /** If the first part fails, so does the whole. */
  lemma YieldsTrap(c: Code, a: Compiled, b: Compiled, init: Regs, r0: Regs, r1: Regs)
    requires Yields(c, a, init, r0, None, r1) && Extends(a.code, b.code)
    ensures Yields(c, b, init, r0, None, r1)
  {
    hide Run;
    ExtendsTransitive(c, a.code, b.code);
    ExtendsTraps(a.code, b.code, init);
  }

  lemma ArithYields(c: Code, op: BinOp, l: nat, r: nat, init: Regs, regs: Regs) returns (regs': Regs)
    requires Reached(c, init, regs) && l <= c.registerNr && r <= c.registerNr
    requires Arith(c, op, l, r).Some? ==> HasRoom(Arith(c, op, l, r).value.code.registerNr, regs)
    ensures match Arith(c, op, l, r)
            case None => Apply(op, Decode(regs[l]), Decode(regs[r])) == None
            case Some(e) => Yields(c, e, init, regs, Apply(op, Decode(regs[l]), Decode(regs[r])), regs')
  {
    hide Arith, ExecOp, Apply, Gives, Yields, Decode;
    regs' := ArithGives(c, op, l, r, init, regs);
    ExecIsApply(op, regs[l], regs[r]);
    if Arith(c, op, l, r).Some? {
      var w, v := ExecOp(op, regs[l], regs[r]), Apply(op, Decode(regs[l]), Decode(regs[r]));
      GivesYields(c, Arith(c, op, l, r).value, init, regs, w, v, regs');
    }
  }

  lemma LnotYields(c: Code, r: nat, init: Regs, regs: Regs) returns (regs': Regs)
    requires Reached(c, init, regs) && r <= c.registerNr && HasRoom(c.registerNr + 1, regs)
    ensures Yields(c, Lnot(c, r), init, regs, Negate(Decode(regs[r])), regs')
  {
    hide Lnot, ExecNot, Negate, Gives, Yields, Decode;
    regs' := LnotGives(c, r, init, regs);
    NotIsNegate(regs[r]);
    GivesYields(c, Lnot(c, r), init, regs, ExecNot(regs[r]), Negate(Decode(regs[r])), regs');
  }

  lemma NotEqualsYields(c: Code, l: nat, r: nat, init: Regs, regs: Regs) returns (regs': Regs)
    requires Reached(c, init, regs) && l <= c.registerNr && r <= c.registerNr
    requires Combine(c, NotEquals, l, r).Some? ==> HasRoom(Combine(c, NotEquals, l, r).value.code.registerNr, regs)
    ensures match Combine(c, NotEquals, l, r)
            case None => Meaning(NotEquals, Decode(regs[l]), Decode(regs[r])) == None
            case Some(e) => Yields(c, e, init, regs, Meaning(NotEquals, Decode(regs[l]), Decode(regs[r])), regs')
  {
    assert l < |regs| && r < |regs|;
    hide Arith, Apply, Decode, Reached, Negate, Run;
    NotEqualsMeaning(Decode(regs[l]), Decode(regs[r]));
    ArithGrows(c, Eq, l, r);
    regs' := ArithYields(c, Eq, l, r, init, regs);
    if Arith(c, Eq, l, r).Some? {
      var e := Arith(c, Eq, l, r).value;
      var mid := regs';
      regs' := LnotYields(e.code, e.reg, init, mid);
      var equal := Apply(Eq, Decode(regs[l]), Decode(regs[r]));
      YieldsThen(c, e, Lnot(e.code, e.reg), init, regs, mid, equal, Negate(Decode(mid[e.reg])), regs');
    }
  }

  lemma CombineYields(c: Code, op: Operator, l: nat, r: nat, init: Regs, regs: Regs) returns (regs': Regs)
    requires Reached(c, init, regs) && l <= c.registerNr && r <= c.registerNr
    requires Combine(c, op, l, r).Some? ==> HasRoom(Combine(c, op, l, r).value.code.registerNr, regs)
    ensures match Combine(c, op, l, r)
            case None => Meaning(op, Decode(regs[l]), Decode(regs[r])) == None
            case Some(e) => Yields(c, e, init, regs, Meaning(op, Decode(regs[l]), Decode(regs[r])), regs')
  {
    assert l < |regs| && r < |regs|;
    hide Combine, Arith, Apply, Decode, Reached, Yields, Meaning;
    if op == NotEquals {
      regs' := NotEqualsYields(c, l, r, init, regs);
    } else {
      PrimitiveCombine(c, op, l, r);
      PrimitiveMeaning(op, Decode(regs[l]), Decode(regs[r]));
      var (p, swap) := Primitive(op);
      if swap {
        regs' := ArithYields(c, p, r, l, init, regs);
      } else {
        regs' := ArithYields(c, p, l, r, init, regs);
      }
    }
  }

  /** The frame is large enough for what is compiled, and registers fit their
      16-bit fields; if compilation fails, for what might have been. */
  ghost predicate Enough(e: Expr, c: Code, scopes: seq<Scope>, regs: Regs) {
    match Compile(e, c, scopes)
    case None => HasRoom(c.registerNr + Cost(e), regs)
    case Some(r) => HasRoom(r.code.registerNr, regs)
  }

  /** An expression leaves its value, or traps when it has none; if it does not
      compile it has none. */
  ghost predicate Right(e: Expr, c: Code, scopes: seq<Scope>, env: Env<Val>, init: Regs, regs: Regs, regs': Regs) {
    match Compile(e, c, scopes)
    case None => Eval(e, env) == None
    case Some(r) => Yields(c, r, init, regs, Eval(e, env), regs')
  }

  ghost predicate Sound(c: Code, scopes: seq<Scope>, env: Env<Val>, init: Regs, regs: Regs) {
    Reached(c, init, regs) && ScopesOk(scopes) && EnvAgrees(Layers(scopes), env, regs, c.registerNr)
  }

  /** The part of an expression that runs first has enough registers too. */
  lemma EnoughFirst(e: Expr, c: Code, scopes: seq<Scope>, l: Expr, regs: Regs, n: nat)
    requires Enough(e, c, scopes, regs) && Cost(l) + n <= Cost(e)
    requires Compile(l, c, scopes).None? ==> Compile(e, c, scopes).None?
    requires Compile(e, c, scopes).Some? ==> GrowsBy(Compile(l, c, scopes).value.code, Compile(e, c, scopes).value.code, n)
    ensures Enough(l, c, scopes, regs)
  {
    CompileGrows(l, c, scopes);
    hide Compile, Cost;
  }

  lemma SoundKept(c: Code, c': Code, scopes: seq<Scope>, env: Env<Val>, init: Regs, regs: Regs, regs': Regs)
    requires Sound(c, scopes, env, init, regs) && Extends(c, c') && Reached(c', init, regs') && Keeps(c, regs, regs')
    ensures Sound(c', scopes, env, init, regs')
  {
    hide Reached, ScopesOk, EnvAgrees, Layers, Extends, Keeps;
    KeepsAgrees(Layers(scopes), env, c, c', regs, regs');
  }

  lemma VarRuns(x: Name, c: Code, scopes: seq<Scope>, env: Env<Val>, init: Regs, regs: Regs)
    requires Sound(c, scopes, env, init, regs)
    ensures Right(Var(x), c, scopes, env, init, regs, regs)
  {
    hide Lookup, Find, Layers, ScopesOk, EnvAgrees, Decode, Run;
    LookupIsFind(scopes, x);
    FindAgrees(Layers(scopes), env, regs, c.registerNr, x);
    KeepsSelf(c, regs);
  }

  lemma NumRuns(n: int, c: Code, scopes: seq<Scope>, env: Env<Val>, init: Regs, regs: Regs) returns (regs': Regs)
    requires Sound(c, scopes, env, init, regs) && Enough(Num(n), c, scopes, regs)
    ensures Right(Num(n), c, scopes, env, init, regs, regs')
  {
    hide Li, FromInt, Wrap30, Gives, Yields, Decode, Layers, EnvAgrees, Reached;
    regs' := LiGives(c, n, init, regs);
    DecodeFromInt(n);
    GivesYields(c, Li(c, n), init, regs, Some(FromInt(n)), Some(Number(Wrap30(n))), regs');
  }

  lemma NotRuns(e: Expr, c: Code, scopes: seq<Scope>, env: Env<Val>, init: Regs, regs: Regs, mid: Regs)
    returns (regs': Regs)
    requires Sound(c, scopes, env, init, regs) && Enough(Not(e), c, scopes, regs)
    requires Right(e, c, scopes, env, init, regs, mid)
    ensures Right(Not(e), c, scopes, env, init, regs, regs')
  {
    hide Decode, Layers, EnvAgrees, Reached, Negate, ScopesOk, Run;
    regs' := mid;
    if Compile(e, c, scopes).Some? {
      var r := Compile(e, c, scopes).value;
      var last := Lnot(r.code, r.reg);
      EmitGrows(r.code, I_LNOT, r.reg, 0);
      hide Lnot;
      if Eval(e, env) == None {
        YieldsTrap(c, r, last, init, regs, mid);
      } else {
        regs' := LnotYields(r.code, r.reg, init, mid);
        YieldsThen(c, r, last, init, regs, mid, Eval(e, env), Negate(Decode(mid[r.reg])), regs');
      }
    }
  }

  /** `-e`: the zero, then the subtraction. */
  lemma NegTail(c: Code, r: nat, init: Regs, regs: Regs) returns (regs': Regs)
    requires Reached(c, init, regs) && r <= c.registerNr
    requires var zero := Li(c, 0);
             && HasRoom(zero.code.registerNr, regs)
             && (var a := Arith(zero.code, Sub, zero.reg, r); a.Some? ==> HasRoom(a.value.code.registerNr, regs))
    ensures var zero := Li(c, 0);
            match Arith(zero.code, Sub, zero.reg, r)
            case None => Apply(Sub, Number(0), Decode(regs[r])) == None
            case Some(e) => Yields(c, e, init, regs, Apply(Sub, Number(0), Decode(regs[r])), regs')
  {
    hide Li, FromInt, Decode, Arith, Apply, Run, ConstantsTrue, NumbersTrue, Wrap30;
    var zero := Li(c, 0);
    var mid := LiGives(c, 0, init, regs);
    DecodeFromInt(0);
    TruthSmall();
    GivesYields(c, zero, init, regs, Some(FromInt(0)), Some(Number(0)), mid);
    regs' := ArithYields(zero.code, Sub, zero.reg, r, init, mid);
    var last := Arith(zero.code, Sub, zero.reg, r);
    if last.Some? {
      YieldsThen(c, zero, last.value, init, regs, mid, Some(Number(0)), Apply(Sub, Number(0), Decode(regs[r])), regs');
    }
  }

  lemma NegRuns(e: Expr, c: Code, scopes: seq<Scope>, env: Env<Val>, init: Regs, regs: Regs, mid: Regs)
    returns (regs': Regs)
    requires Sound(c, scopes, env, init, regs) && Enough(Neg(e), c, scopes, regs)
    requires Right(e, c, scopes, env, init, regs, mid)
    ensures Right(Neg(e), c, scopes, env, init, regs, regs')
  {
    hide Decode, Layers, EnvAgrees, Reached, Apply, ScopesOk, Run, Li, Arith;
    regs' := mid;
    if Compile(e, c, scopes).Some? {
      var r := Compile(e, c, scopes).value;
      var zero := Li(r.code, 0);
      var last := Arith(zero.code, Sub, zero.reg, r.reg);
      LiGrows(r.code, 0);
      ArithGrows(zero.code, Sub, zero.reg, r.reg);
      CompileGrows(e, c, scopes);
      if Eval(e, env) == None {
        if last.Some? {
          GrowsTransitive(r.code, zero.code, last.value.code, 1, 1);
          YieldsTrap(c, r, last.value, init, regs, mid);
        }
      } else {
        regs' := NegTail(r.code, r.reg, init, mid);
        if last.Some? {
          YieldsThen(c, r, last.value, init, regs, mid, Eval(e, env), Apply(Sub, Number(0), Decode(mid[r.reg])), regs');
        }
      }
    }
  }

  /** Both operands have been compiled; the operator is left. */
  lemma BinEnd(op: Operator, l: Expr, r: Expr, c: Code, scopes: seq<Scope>, env: Env<Val>,
               init: Regs, regs: Regs, r1: Regs, r2: Regs) returns (regs': Regs)
    requires Sound(c, scopes, env, init, regs) && Enough(Bin(op, l, r), c, scopes, regs)
    requires Compile(l, c, scopes).Some? && Right(l, c, scopes, env, init, regs, r1) && Eval(l, env).Some?
    requires var a := Compile(l, c, scopes).value;
             && Compile(r, a.code, scopes).Some? && Right(r, a.code, scopes, env, init, r1, r2)
             && Eval(r, env).Some?
    ensures Right(Bin(op, l, r), c, scopes, env, init, regs, regs')
  {
    hide Decode, EnvAgrees, Reached, ScopesOk, Run, Combine, Meaning, Sound;
    var a := Compile(l, c, scopes).value;
    var b := Compile(r, a.code, scopes).value;
    var va, vb := Eval(l, env).value, Eval(r, env).value;
    CombineGrows(b.code, op, a.reg, b.reg);
    YieldsThen(c, a, b, init, regs, r1, Some(va), Some(vb), r2);
    regs' := CombineYields(b.code, op, a.reg, b.reg, init, r2);
    assert r2[a.reg] == r1[a.reg];
    if Combine(b.code, op, a.reg, b.reg).Some? {
      YieldsThen(c, b, Combine(b.code, op, a.reg, b.reg).value, init, regs, r2, Some(vb), Meaning(op, va, vb), regs');
    }
  }

  lemma BinGrows(op: Operator, l: Expr, r: Expr, c: Code, scopes: seq<Scope>)
    ensures Compile(Bin(op, l, r), c, scopes).Some? ==>
              var a := Compile(l, c, scopes).value;
              var b := Compile(r, a.code, scopes).value;
              var last := Compile(Bin(op, l, r), c, scopes).value;
              && GrowsBy(a.code, last.code, Cost(r) + 2) && GrowsBy(b.code, last.code, 2)
  {
    hide Combine, GrowsBy, Lookup, Li, Arith, Cost;
    if Compile(Bin(op, l, r), c, scopes).Some? {
      var a := Compile(l, c, scopes).value;
      var b := Compile(r, a.code, scopes).value;
      CompileGrows(r, a.code, scopes);
      CombineGrows(b.code, op, a.reg, b.reg);
      GrowsTransitive(a.code, b.code, Compile(Bin(op, l, r), c, scopes).value.code, Cost(r), 2);
    }
  }

  /** One of the operands fails. */
  lemma BinTrap(op: Operator, l: Expr, r: Expr, c: Code, scopes: seq<Scope>, env: Env<Val>,
                init: Regs, regs: Regs, mid: Regs, part: Compiled, regs': Regs)
    requires Yields(c, part, init, regs, None, regs') && Eval(Bin(op, l, r), env) == None
    requires Compile(Bin(op, l, r), c, scopes).Some? ==> Extends(part.code, Compile(Bin(op, l, r), c, scopes).value.code)
    ensures Right(Bin(op, l, r), c, scopes, env, init, regs, regs')
  {
    hide Decode, Run, Compile, Eval, Yields, Extends;
    if Compile(Bin(op, l, r), c, scopes).Some? {
      YieldsTrap(c, part, Compile(Bin(op, l, r), c, scopes).value, init, regs, regs');
    }
  }

  lemma EnoughSecond(op: Operator, l: Expr, r: Expr, c: Code, scopes: seq<Scope>, regs: Regs, r1: Regs)
    requires Enough(Bin(op, l, r), c, scopes, regs) && Compile(l, c, scopes).Some? && |r1| == |regs|
    ensures Enough(r, Compile(l, c, scopes).value.code, scopes, r1)
  {
    hide Compile, Cost;
    BinCost(op, l, r, c, scopes);
    BinGrows(op, l, r, c, scopes);
    CompileGrows(l, c, scopes);
    CompileGrows(r, Compile(l, c, scopes).value.code, scopes);
  }

  lemma BinCost(op: Operator, l: Expr, r: Expr, c: Code, scopes: seq<Scope>)
    ensures Cost(Bin(op, l, r)) == Cost(l) + Cost(r) + 2
    ensures Compile(Bin(op, l, r), c, scopes).Some? ==>
              Compile(l, c, scopes).Some? && Compile(r, Compile(l, c, scopes).value.code, scopes).Some?
  {
    hide Combine;
  }

  /** What the right operand needs, once the left one has run. */
  lemma BinSecond(op: Operator, l: Expr, r: Expr, c: Code, scopes: seq<Scope>, env: Env<Val>, init: Regs,
          regs: Regs, r1: Regs)
    requires Sound(c, scopes, env, init, regs) && Enough(Bin(op, l, r), c, scopes, regs)
    requires Compile(l, c, scopes).Some? && Right(l, c, scopes, env, init, regs, r1) && Eval(l, env).Some?
    ensures Sound(Compile(l, c, scopes).value.code, scopes, env, init, r1)
    ensures Enough(r, Compile(l, c, scopes).value.code, scopes, r1)
  {
    var a := Compile(l, c, scopes).value;
    hide Decode, Reached, Sound, Compile, Enough, Eval;
    EnoughSecond(op, l, r, c, scopes, regs, r1);
    SoundKept(c, a.code, scopes, env, init, regs, r1);
  }

  /** The compiler is right on every expression. */
  lemma {:induction false} ExprRuns(e: Expr, c: Code, scopes: seq<Scope>, env: Env<Val>, init: Regs, regs: Regs)
    returns (regs': Regs)
    requires Sound(c, scopes, env, init, regs) && Enough(e, c, scopes, regs)
    ensures Right(e, c, scopes, env, init, regs, regs')
    decreases e
  {
    match e
    case Num(n) =>
      hide Sound, Enough, Right;
      regs' := NumRuns(n, c, scopes, env, init, regs);
    case Var(x) =>
      hide Sound, Enough, Right;
      regs' := regs;
      VarRuns(x, c, scopes, env, init, regs);
    case Not(e1) =>
      NotFirst(e1, c, scopes, regs);
      hide Sound, Enough, Right;
      var mid := ExprRuns(e1, c, scopes, env, init, regs);
      regs' := NotRuns(e1, c, scopes, env, init, regs, mid);
    case Neg(e1) =>
      NegFirst(e1, c, scopes, regs);
      hide Sound, Enough, Right;
      var mid := ExprRuns(e1, c, scopes, env, init, regs);
      regs' := NegRuns(e1, c, scopes, env, init, regs, mid);
    case Bin(op, l, r) =>
      BinGrows(op, l, r, c, scopes);
      EnoughFirst(e, c, scopes, l, regs, Cost(r) + 2);
      hide Sound, Enough, Yields, Combine;
      regs' := ExprRuns(l, c, scopes, env, init, regs);
      if Compile(l, c, scopes).Some? {
        var a := Compile(l, c, scopes).value;
        if Eval(l, env) == None {
          BinTrap(op, l, r, c, scopes, env, init, regs, regs', a, regs');
        } else {
          var r1 := regs';
          BinSecond(op, l, r, c, scopes, env, init, regs, r1);
          var r2 := ExprRuns(r, a.code, scopes, env, init, r1);
          if Compile(r, a.code, scopes).Some? {
            var b := Compile(r, a.code, scopes).value;
            if Eval(r, env) == None {
              YieldsThen(c, a, b, init, regs, r1, Eval(l, env), None, r2);
              BinTrap(op, l, r, c, scopes, env, init, regs, r1, b, r2);
              regs' := r2;
            } else {
              regs' := BinEnd(op, l, r, c, scopes, env, init, regs, r1, r2);
            }
          }
        }
      }
  }

  lemma NotFirst(e: Expr, c: Code, scopes: seq<Scope>, regs: Regs)
    requires Enough(Not(e), c, scopes, regs)
    ensures Enough(e, c, scopes, regs)
  {
    if Compile(e, c, scopes).Some? {
      var r := Compile(e, c, scopes).value;
      EmitGrows(r.code, I_LNOT, r.reg, 0);
    }
    EnoughFirst(Not(e), c, scopes, e, regs, 1);
  }

  lemma NegFirst(e: Expr, c: Code, scopes: seq<Scope>, regs: Regs)
    requires Enough(Neg(e), c, scopes, regs)
    ensures Enough(e, c, scopes, regs)
  {
    if Compile(Neg(e), c, scopes).Some? {
      var r := Compile(e, c, scopes).value;
      var zero := Li(r.code, 0);
      LiGrows(r.code, 0);
      ArithGrows(zero.code, Sub, zero.reg, r.reg);
      hide Li, Arith;
      GrowsTransitive(r.code, zero.code, Compile(Neg(e), c, scopes).value.code, 1, 1);
    }
    EnoughFirst(Neg(e), c, scopes, e, regs, 2);
  }
}
