/** The compiler is right: what the VM leaves in the register of a variable is
  the value the program gives it, and the VM traps when the program fails. */
module Compilation {
  import opened Values
  import opened Insts
  import opened Arithmetic
  import opened Scopes
  import opened Codes
  import opened Programs
  import opened Expressions

  // ----- statements -----

  function DeclCost(d: Decl): nat {
    if d.init.None? then 1 else Cost(d.init.value) + 1
  }

  function DeclsCost(ds: seq<Decl>): nat
    decreases ds
  {
    if ds == [] then 0 else DeclCost(ds[0]) + DeclsCost(ds[1..])
  }

  /** A bound on the registers a statement takes. */
  function StmtCost(s: Stmt): nat
    decreases s
  {
    match s
    case Let(decls) => DeclsCost(decls)
    case Set(_, e) => Cost(e) + 1
    case Touch(_) => 0
    case Block(body) => StmtsCost(body)
  }

  function StmtsCost(ss: seq<Stmt>): nat
    decreases ss
  {
    if ss == [] then 0 else StmtCost(ss[0]) + StmtsCost(ss[1..])
  }

  lemma MovGrows(c: Code, rs: nat)
    ensures GrowsBy(c, Mov(c, rs).code, 1)
  {
  }

  lemma OwnedGrows(before: Code, e: Compiled)
    ensures GrowsBy(e.code, Owned(before, e).code, 1)
  {
    hide Mov;
    MovGrows(e.code, e.reg);
  }

  lemma ValueGrows(e: Expr, st: CompileState)
    ensures CompileValue(e, st).Some? ==> GrowsBy(st.code, CompileValue(e, st).value.code, Cost(e) + 1)
    ensures CompileValue(e, st).Some? ==>
              GrowsBy(Compile(e, st.code, st.scopes).value.code, CompileValue(e, st).value.code, 1)
  {
    hide Compile, Mov, GrowsBy, Cost;
    CompileGrows(e, st.code, st.scopes);
    if Compile(e, st.code, st.scopes).Some? {
      var r := Compile(e, st.code, st.scopes).value;
      OwnedGrows(st.code, r);
      GrowsTransitive(st.code, r.code, Owned(st.code, r).code, Cost(e), 1);
    }
  }

  lemma DeclGrows(d: Decl, st: CompileState)
    requires st.scopes != []
    ensures CompileDecl(d, st).Some? ==> GrowsBy(st.code, CompileDecl(d, st).value.code, DeclCost(d))
  {
    hide CompileValue, Undef, GrowsBy, Define;
    match d.init
    case None => UndefGrows(st.code);
    case Some(e) => ValueGrows(e, st);
  }

  lemma UndefGrows(c: Code)
    ensures GrowsBy(c, Undef(c).code, 1)
  {
  }

  lemma {:induction false} DeclsGrow(ds: seq<Decl>, st: CompileState)
    requires st.scopes != []
    ensures CompileDecls(ds, st).Some? ==> GrowsBy(st.code, CompileDecls(ds, st).value.code, DeclsCost(ds))
    decreases ds
  {
    hide CompileDecl, GrowsBy, DeclCost;
    if ds == [] {
      GrowsNot(st.code);
    } else if CompileDecls(ds, st).Some? {
      var next := CompileDecl(ds[0], st).value;
      DeclGrows(ds[0], st);
      DeclsGrow(ds[1..], next);
      GrowsTransitive(st.code, next.code, CompileDecls(ds, st).value.code, DeclCost(ds[0]), DeclsCost(ds[1..]));
    }
  }

  lemma {:induction false} StmtGrows(s: Stmt, st: CompileState)
    requires st.scopes != []
    ensures CompileStmt(s, st).Some? ==> GrowsBy(st.code, CompileStmt(s, st).value.code, StmtCost(s))
    decreases s
  {
    hide CompileDecls, CompileValue, GrowsBy, Lookup, Join;
    match s
    case Let(decls) => DeclsGrow(decls, st);
    case Set(x, e) => ValueGrows(e, st);
    case Touch(x) => GrowsNot(st.code);
    case Block(body) => StmtsGrow(body, CompileState(st.code, Push(st.scopes)));
  }

  lemma {:induction false} StmtsGrow(ss: seq<Stmt>, st: CompileState)
    requires st.scopes != []
    ensures CompileStmts(ss, st).Some? ==> GrowsBy(st.code, CompileStmts(ss, st).value.code, StmtsCost(ss))
    decreases ss
  {
    hide CompileStmt, GrowsBy, StmtCost;
    if ss == [] {
      GrowsNot(st.code);
    } else if CompileStmts(ss, st).Some? {
      var next := CompileStmt(ss[0], st).value;
      StmtGrows(ss[0], st);
      StmtsGrow(ss[1..], next);
      GrowsTransitive(st.code, next.code, CompileStmts(ss, st).value.code, StmtCost(ss[0]), StmtsCost(ss[1..]));
    }
  }

  // ----- statements run -----

  /** Compiled, run and interpreted up to here: either all is well and every
      variable's register holds its value, or the program has failed and the VM
      has trapped. */
  ghost predicate Agree(st: CompileState, env: Option<Env<Val>>, init: Regs, regs: Regs) {
    match env
    case None => Run(st.code.insts, init) == None
    case Some(e) => e != [] && Sound(st.code, st.scopes, e, init, regs) && |st.scopes| == |e|
  }

  ghost predicate EnoughFor(st: CompileState, after: Option<CompileState>, cost: nat, regs: Regs) {
    match after
    case None => HasRoom(st.code.registerNr + cost, regs)
    case Some(last) => HasRoom(last.code.registerNr, regs)
  }

  /** The outcome of a statement that was compiled in st and run on env. */
  ghost predicate Done(after: Option<CompileState>, env: Option<Env<Val>>, init: Regs, regs: Regs) {
    match after
    case None => env == None
    case Some(last) => Agree(last, env, init, regs)
  }

  lemma OwnedYields(c: Code, e: Compiled, init: Regs, regs: Regs, v: Option<Val>, mid: Regs) returns (regs': Regs)
    requires Yields(c, e, init, regs, v, mid) && HasRoom(Owned(c, e).code.registerNr, regs)
    ensures Yields(c, Owned(c, e), init, regs, v, regs') && |regs'| == |mid|
  {
    hide Decode, Reached, Run;
    regs' := mid;
    if e.code.registerNr == c.registerNr {
      MovGrows(e.code, e.reg);
      MovIsNext(e.code, e.reg);
      hide Mov;
      if v == None {
        YieldsTrap(c, e, Mov(e.code, e.reg), init, regs, mid);
      } else {
        regs' := MovGives(e.code, e.reg, init, mid);
        GivesYields(e.code, Mov(e.code, e.reg), init, mid, Some(mid[e.reg]), v, regs');
        YieldsThen(c, e, Mov(e.code, e.reg), init, regs, mid, v, v, regs');
      }
    }
  }

  lemma MovIsNext(c: Code, rs: nat)
    ensures Mov(c, rs).code.registerNr == c.registerNr + 1 == Mov(c, rs).reg
  {
  }

  lemma EnoughValue(e: Expr, st: CompileState, regs: Regs)
    requires match CompileValue(e, st)
             case None => HasRoom(st.code.registerNr + Cost(e) + 1, regs)
             case Some(r) => HasRoom(r.code.registerNr, regs)
    ensures Enough(e, st.code, st.scopes, regs)
  {
    ValueGrows(e, st);
    hide Compile, Cost;
  }

  lemma ValueRuns(e: Expr, st: CompileState, env: Env<Val>, init: Regs, regs: Regs) returns (regs': Regs)
    requires Sound(st.code, st.scopes, env, init, regs)
    requires match CompileValue(e, st)
             case None => HasRoom(st.code.registerNr + Cost(e) + 1, regs)
             case Some(r) => HasRoom(r.code.registerNr, regs)
    ensures match CompileValue(e, st)
            case None => Eval(e, env) == None
            case Some(r) => Yields(st.code, r, init, regs, Eval(e, env), regs')
  {
    EnoughValue(e, st, regs);
    hide Sound, Compile, Cost, Eval, Owned, Yields, Enough;
    regs' := ExprRuns(e, st.code, st.scopes, env, init, regs);
    if CompileValue(e, st).Some? {
      regs' := OwnedYields(st.code, Compile(e, st.code, st.scopes).value, init, regs, Eval(e, env), regs');
    }
  }

  lemma SoundParts(c: Code, scopes: seq<Scope>, env: Env<Val>, init: Regs, regs: Regs)
    requires Sound(c, scopes, env, init, regs)
    ensures |scopes| == |env| && |Layers(scopes)| == |env| && ScopesOk(scopes)
    ensures scopes != [] ==> scopes[0].symbols.Keys == env[0].Keys
  {
    if scopes != [] {
      TailAgrees(Layers(scopes), env, regs, c.registerNr);
    }
  }

  /** A new register becomes the variable's. */
  lemma DeclareSound(c: Code, scopes: seq<Scope>, env: Env<Val>, init: Regs, regs: Regs, x: Name, reg: nat)
    requires Sound(c, scopes, env, init, regs) && scopes != [] && env != [] && reg <= c.registerNr && reg < |regs|
    ensures Sound(c, Define(scopes, x, reg), Declare(env, x, Decode(regs[reg])), init, regs)
  {
    hide Reached, ScopesOk, EnvAgrees, Layers, Define, Declare, Decode;
    LayersExist(scopes);
    DefineIsDeclare(scopes, x, reg);
    DeclareAgrees(Layers(scopes), env, regs, c.registerNr, x, reg);
  }

  lemma LayersExist(scopes: seq<Scope>)
    ensures |Layers(scopes)| == |scopes|
  {
  }

  lemma AssignSound(c: Code, scopes: seq<Scope>, env: Env<Val>, init: Regs, regs: Regs, x: Name, reg: nat)
    requires Sound(c, scopes, env, init, regs) && scopes != [] && reg <= c.registerNr && reg < |regs|
    requires Lookup(scopes, x).Some?
    ensures Sound(c, Assign(scopes, x, reg), Update(env, x, Decode(regs[reg])), init, regs)
  {
    hide Reached, ScopesOk, EnvAgrees, Layers, Assign, Update, Decode, Lookup, Declared;
    LookupIsFind(scopes, x);
    AssignIsUpdate(scopes, x, reg);
    AssignOk(scopes, x, reg);
    UpdateAgrees(Layers(scopes), env, regs, c.registerNr, x, reg);
  }

  lemma PushSound(c: Code, scopes: seq<Scope>, env: Env<Val>, init: Regs, regs: Regs)
    requires Sound(c, scopes, env, init, regs) && scopes != []
    ensures Sound(c, Push(scopes), [map[]] + env, init, regs)
  {
    hide Reached, ScopesOk, EnvAgrees, Layers, Push, Decode;
    PushIsPush(scopes);
    EmptyAgrees(regs, c.registerNr);
    ConsAgrees(map[], Layers(scopes), map[], env, regs, c.registerNr);
  }

  lemma EmptyAgrees(regs: Regs, n: nat)
    ensures MapAgrees(map[], map[], regs, n)
  {
  }

  lemma JoinSound(c: Code, scopes: seq<Scope>, env: Env<Val>, init: Regs, regs: Regs)
    requires Sound(c, scopes, env, init, regs) && |scopes| >= 2 && |env| >= 2
    ensures Sound(c, Join(scopes), env[1..], init, regs)
  {
    LayersExist(scopes);
    hide Reached, ScopesOk, EnvAgrees, Layers, Join, Decode;
    JoinIsPop(scopes);
    JoinOk(scopes);
    TailAgrees(Layers(scopes), env, regs, c.registerNr);
  }

  lemma LookupSound(c: Code, scopes: seq<Scope>, env: Env<Val>, init: Regs, regs: Regs, x: Name)
    requires Sound(c, scopes, env, init, regs)
    ensures Lookup(scopes, x).Some? <==> Find(env, x).Some?
    ensures Lookup(scopes, x).Some? ==>
              var reg := Lookup(scopes, x).value;
              reg < |regs| && Find(env, x) == Some(Decode(regs[reg]))
  {
    hide Reached, ScopesOk, EnvAgrees, Layers, Decode, Lookup, Find;
    LookupIsFind(scopes, x);
    FindAgrees(Layers(scopes), env, regs, c.registerNr, x);
  }

  lemma SoundReached(c: Code, scopes: seq<Scope>, env: Env<Val>, init: Regs, regs: Regs)
    requires Sound(c, scopes, env, init, regs)
    ensures Reached(c, init, regs) && Run(c.insts, init) == Some(regs)
  {
  }

  lemma DeclRuns(d: Decl, st: CompileState, env: Env<Val>, init: Regs, regs: Regs) returns (regs': Regs)
    requires Sound(st.code, st.scopes, env, init, regs) && st.scopes != [] && env != []
    requires EnoughFor(st, CompileDecl(d, st), DeclCost(d), regs)
    ensures Done(CompileDecl(d, st), ExecDecl(d, env), init, regs') && |regs'| == |regs|
  {
    hide CompileValue, Define, Declare, Sound, Undef, Eval, Run, Cost, Decode, ScopesOk, Layers;
    SoundParts(st.code, st.scopes, env, init, regs);
    regs' := regs;
    if d.x !in env[0] {
      match d.init
      case None =>
        var u := Undef(st.code);
        UndefIsNext(st.code);
        SoundReached(st.code, st.scopes, env, init, regs);
        regs' := UndefGives(st.code, init, regs);
        SoundKept(st.code, u.code, st.scopes, env, init, regs, regs');
        DeclareSound(u.code, st.scopes, env, init, regs', d.x, u.reg);
        UndefDecodes();
      case Some(e) =>
        regs' := ValueRuns(e, st, env, init, regs);
        if CompileValue(e, st).Some? && Eval(e, env).Some? {
          var v := CompileValue(e, st).value;
          SoundKept(st.code, v.code, st.scopes, env, init, regs, regs');
          DeclareSound(v.code, st.scopes, env, init, regs', d.x, v.reg);
        } else {
          regs' := regs;
        }
    }
  }

  lemma UndefIsNext(c: Code)
    ensures Undef(c).code.registerNr == c.registerNr + 1
  {
  }

  lemma UndefDecodes()
    ensures Decode(UNDEFINED) == Other(UNDEFINED)
  {
  }

  lemma SetRuns(x: Name, e: Expr, st: CompileState, env: Env<Val>, init: Regs, regs: Regs) returns (regs': Regs)
    requires Sound(st.code, st.scopes, env, init, regs) && st.scopes != [] && env != []
    requires EnoughFor(st, CompileSet(x, e, st), Cost(e) + 1, regs)
    ensures Done(CompileSet(x, e, st), ExecSet(x, e, env), init, regs') && |regs'| == |regs|
  {
    hide CompileValue, Assign, Update, Sound, Eval, Run, Cost, Decode, ScopesOk, Layers, Lookup, Find, Reached, Keeps;
    SoundParts(st.code, st.scopes, env, init, regs);
    LookupSound(st.code, st.scopes, env, init, regs, x);
    regs' := regs;
    if Lookup(st.scopes, x).Some? {
      var mid := ValueRuns(e, st, env, init, regs);
      if CompileValue(e, st).Some? && Eval(e, env).Some? {
        regs' := mid;
        ValueAssigned(x, CompileValue(e, st).value, st, env, init, regs, Eval(e, env).value, regs');
      }
    }
  }

  lemma ValueAssigned(x: Name, v: Compiled, st: CompileState, env: Env<Val>, init: Regs, regs: Regs, val: Val,
        regs': Regs)
    requires Sound(st.code, st.scopes, env, init, regs) && st.scopes != [] && Lookup(st.scopes, x).Some?
    requires Yields(st.code, v, init, regs, Some(val), regs')
    ensures Sound(v.code, Assign(st.scopes, x, v.reg), Update(env, x, val), init, regs')
    ensures |Assign(st.scopes, x, v.reg)| == |st.scopes| && |regs'| == |regs|
  {
    hide Assign, Update, Sound, Run, Decode, Lookup, Reached;
    SoundKept(st.code, v.code, st.scopes, env, init, regs, regs');
    AssignSound(v.code, st.scopes, env, init, regs', x, v.reg);
  }

  /** A failed first part leaves nothing for the second to repair. */
  lemma DoneTrap(after: Option<CompileState>, mid: CompileState, init: Regs, regs: Regs)
    requires Agree(mid, None, init, regs) && (after.Some? ==> Extends(mid.code, after.value.code))
    ensures Done(after, None, init, regs)
  {
    hide Run, Extends;
    if after.Some? {
      ExtendsTraps(mid.code, after.value.code, init);
    }
  }

  lemma {:induction false} DeclsRun(ds: seq<Decl>, st: CompileState, env: Env<Val>, init: Regs, regs: Regs)
    returns (regs': Regs)
    requires Sound(st.code, st.scopes, env, init, regs) && st.scopes != [] && env != []
    requires EnoughFor(st, CompileDecls(ds, st), DeclsCost(ds), regs)
    ensures Done(CompileDecls(ds, st), ExecDecls(ds, env), init, regs') && |regs'| == |regs|
    decreases ds
  {
    hide CompileDecl, ExecDecl, Sound, Run, DeclCost, ScopesOk, Layers;
    SoundParts(st.code, st.scopes, env, init, regs);
    regs' := regs;
    if ds != [] {
      DeclGrows(ds[0], st);
      var first := CompileDecl(ds[0], st);
      if first.Some? {
        DeclsGrow(ds[1..], first.value);
      }
      regs' := DeclRuns(ds[0], st, env, init, regs);
      if first.Some? {
        var next := ExecDecl(ds[0], env);
        if next.Some? {
          regs' := DeclsRun(ds[1..], first.value, next.value, init, regs');
        } else {
          DoneTrap(CompileDecls(ds, st), first.value, init, regs');
        }
      }
    }
  }

  lemma {:induction false} StmtRuns(s: Stmt, st: CompileState, env: Env<Val>, init: Regs,
        regs: Regs) returns (regs': Regs)
    requires Sound(st.code, st.scopes, env, init, regs) && st.scopes != [] && env != []
    requires EnoughFor(st, CompileStmt(s, st), StmtCost(s), regs)
    ensures Done(CompileStmt(s, st), ExecStmt(s, env), init, regs') && |regs'| == |regs|
    decreases s
  {
    hide CompileDecls, ExecDecls, CompileSet, ExecSet, Sound, Run, DeclsCost, Cost, ScopesOk, Layers, Lookup;
    hide Find, Join;
    SoundParts(st.code, st.scopes, env, init, regs);
    match s
    case Let(decls) => regs' := DeclsRun(decls, st, env, init, regs);
    case Set(x, e) => regs' := SetRuns(x, e, st, env, init, regs);
    case Touch(x) =>
      regs' := regs;
      LookupSound(st.code, st.scopes, env, init, regs, x);
    case Block(body) =>
      PushSound(st.code, st.scopes, env, init, regs);
      var inner := CompileState(st.code, Push(st.scopes));
      regs' := StmtsRun(body, inner, [map[]] + env, init, regs);
      BlockDone(CompileStmts(body, inner), ExecStmts(body, [map[]] + env), init, regs');
  }

  /** Leaving the block. */
  lemma BlockDone(after: Option<CompileState>, env: Option<Env<Val>>, init: Regs, regs: Regs)
    requires Done(after, env, init, regs)
    requires after.Some? ==> |after.value.scopes| >= 2
    ensures Done(if after.None? then None else Some(CompileState(after.value.code, Join(after.value.scopes))),
                 if env.None? then None else Some(env.value[1..]), init, regs)
  {
    hide Sound, Run, Join;
    if after.Some? && env.Some? {
      JoinSound(after.value.code, after.value.scopes, env.value, init, regs);
    }
  }

  lemma {:induction false} StmtsRun(ss: seq<Stmt>, st: CompileState, env: Env<Val>, init: Regs, regs: Regs)
    returns (regs': Regs)
    requires Sound(st.code, st.scopes, env, init, regs) && st.scopes != [] && env != []
    requires EnoughFor(st, CompileStmts(ss, st), StmtsCost(ss), regs)
    ensures Done(CompileStmts(ss, st), ExecStmts(ss, env), init, regs') && |regs'| == |regs|
    decreases ss
  {
    hide CompileStmt, ExecStmt, Sound, Run, StmtCost, ScopesOk, Layers;
    SoundParts(st.code, st.scopes, env, init, regs);
    regs' := regs;
    if ss != [] {
      StmtGrows(ss[0], st);
      var first := CompileStmt(ss[0], st);
      if first.Some? {
        StmtsGrow(ss[1..], first.value);
      }
      regs' := StmtRuns(ss[0], st, env, init, regs);
      if first.Some? {
        var next := ExecStmt(ss[0], env);
        if next.Some? {
          regs' := StmtsRun(ss[1..], first.value, next.value, init, regs');
        } else {
          DoneTrap(CompileStmts(ss, st), first.value, init, regs');
        }
      }
    }
  }

  // ----- whole programs -----

  function Arguments(args: map<Name, nat>, frame: Regs): Env<Val>
    requires forall x :: x in args ==> args[x] < |frame|
  {
    [map x | x in args :: Decode(frame[args[x]])]
  }

  lemma StartSound(args: map<Name, nat>, n: nat, frame: Regs)
    requires n < |frame| && frame[0] == FromInt(0) && forall x :: x in args ==> args[x] <= n
    ensures Sound(NewCode(n), [Scope(args, map[])], Arguments(args, frame), frame, frame)
  {
    hide Decode, FromInt;
    var scopes := [Scope(args, map[])];
    assert scopes[1..] == [];
    assert Layers(scopes) == [args];
    assert ScopesOk(scopes);
    hide Layers, ScopesOk, Run, ConstantsTrue, NumbersTrue;
    NewCodeTrue(n, frame);
    assert Reached(NewCode(n), frame, frame);
    ArgumentsAgree(args, n, frame);
  }

  lemma NewCodeTrue(n: nat, frame: Regs)
    requires n < |frame| && frame[0] == FromInt(0)
    ensures ConstantsTrue(NewCode(n), frame) && NumbersTrue(NewCode(n), frame)
  {
    hide FromInt;
  }

  lemma ArgumentsAgree(args: map<Name, nat>, n: nat, frame: Regs)
    requires n < |frame| && forall x :: x in args ==> args[x] <= n
    ensures EnvAgrees([args], Arguments(args, frame), frame, n)
  {
    hide Decode;
  }

  /** Straight-line compilation is correct for every program, every arguments and
      every frame the compiled function asks for.  If the program runs to its
      end, so does the code, and the register the compiler has for a variable
      holds the variable's value; if the program fails, the VM traps. */
  lemma CompiledRuns(program: seq<Stmt>, args: map<Name, nat>, n: nat, frame: Regs)
    requires n < |frame| && frame[0] == FromInt(0) && forall x :: x in args ==> args[x] <= n
    requires CompileStmts(program, Start(args, n)).Some?
    requires var last := CompileStmts(program, Start(args, n)).value.code;
             last.registerNr < |frame| && last.registerNr < REGISTER_LIMIT
    ensures var last := CompileStmts(program, Start(args, n)).value;
            match ExecStmts(program, Arguments(args, frame))
            case None => Run(last.code.insts, frame) == None
            case Some(env) =>
              && Run(last.code.insts, frame).Some?
              && forall x :: match Lookup(last.scopes, x)
                 case None => Find(env, x) == None
                 case Some(reg) =>
                   var regs := Run(last.code.insts, frame).value;
                   reg < |regs| && Find(env, x) == Some(Decode(regs[reg]))
  {
    StartSound(args, n, frame);
    hide Sound, CompileStmts, ExecStmts, Run, Lookup, Find, StmtsCost, Decode;
    var regs := StmtsRun(program, Start(args, n), Arguments(args, frame), frame, frame);
    var last := CompileStmts(program, Start(args, n)).value;
    var env := ExecStmts(program, Arguments(args, frame));
    if env.Some? {
      SoundReached(last.code, last.scopes, env.value, frame, regs);
      forall x ensures match Lookup(last.scopes, x)
                       case None => Find(env.value, x) == None
                       case Some(reg) => reg < |regs| && Find(env.value, x) == Some(Decode(regs[reg]))
      {
        LookupSound(last.code, last.scopes, env.value, frame, regs, x);
      }
    }
  }

  /** A program that the compiler rejects is one that fails, whatever its arguments hold. */
  lemma RejectedFails(program: seq<Stmt>, args: map<Name, nat>, n: nat, frame: Regs)
    requires n < |frame| && frame[0] == FromInt(0) && forall x :: x in args ==> args[x] <= n
    requires n + StmtsCost(program) < |frame| && n + StmtsCost(program) < REGISTER_LIMIT
    requires CompileStmts(program, Start(args, n)) == None
    ensures ExecStmts(program, Arguments(args, frame)) == None
  {
    StartSound(args, n, frame);
    hide Sound, CompileStmts, ExecStmts, Run, StmtsCost;
    var _ := StmtsRun(program, Start(args, n), Arguments(args, frame), frame, frame);
  }
}
