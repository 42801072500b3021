/** Programs of declarations, assignments and blocks over integer expressions:
  what they mean, and what src/parse.c compiles them to. */
module Programs {
  import opened Values
  import opened Arithmetic
  import opened Scopes
  import opened Codes

  datatype Operator =
    | Times | Over | Rem
    | Plus | Minus
    | Less | Greater | LessEq | GreaterEq | Equals | NotEquals

  datatype Expr =
    | Num(n: int)
    | Var(x: Name)
    | Not(e: Expr)
    | Neg(e: Expr)
    | Bin(op: Operator, l: Expr, r: Expr)

  datatype Decl = Decl(x: Name, init: Option<Expr>)

  /** `let a = .., b;`, `x = ..;`, `x;` and `{ .. }`. */
  datatype Stmt =
    | Let(decls: seq<Decl>)
    | Set(x: Name, e: Expr)
    | Touch(x: Name)
    | Block(body: seq<Stmt>)

  // ----- meaning -----

  function Compare(a: Val, b: Val, holds: (int, int) -> bool): Option<Val> {
    if a.Number? && b.Number? then Some(Number(Truth(holds(a.n, b.n)))) else None
  }

  /** The operators as the programmer reads them; None is a run-time error. */
  function Meaning(op: Operator, a: Val, b: Val): Option<Val> {
    match op
    case Times => Apply(Mul, a, b)
    case Over => Apply(Div, a, b)
    case Rem => Apply(Mod, a, b)
    case Plus => Apply(Add, a, b)
    case Minus => Apply(Sub, a, b)
    case Less => Compare(a, b, (i, j) => i < j)
    case Greater => Compare(a, b, (i, j) => i > j)
    case LessEq => Compare(a, b, (i, j) => i <= j)
    case GreaterEq => Compare(a, b, (i, j) => i >= j)
    case Equals => Some(Number(Truth(a == b)))
    case NotEquals => Some(Number(Truth(a != b)))
  }

  function Eval(e: Expr, env: Env<Val>): Option<Val> {
    match e
    case Num(n) => Some(Number(Wrap30(n)))
    case Var(x) => Find(env, x)
    case Not(e) =>
      (match Eval(e, env)
       case None => None
       case Some(v) => Negate(v))
    case Neg(e) =>
      (match Eval(e, env)
       case None => None
       case Some(v) => Apply(Sub, Number(0), v))
    case Bin(op, l, r) =>
      var a, b := Eval(l, env), Eval(r, env);
      if a.Some? && b.Some? then Meaning(op, a.value, b.value) else None
  }

  function ExecDecl(d: Decl, env: Env<Val>): (r: Option<Env<Val>>)
    requires env != []
    ensures r.Some? ==> |r.value| == |env|
  {
    if d.x in env[0] then None
    else
      match d.init
      case None => Some(Declare(env, d.x, Other(UNDEFINED)))
      case Some(e) =>
        match Eval(e, env)
        case None => None
        case Some(v) => Some(Declare(env, d.x, v))
  }

  function ExecDecls(ds: seq<Decl>, env: Env<Val>): (r: Option<Env<Val>>)
    requires env != []
    ensures r.Some? ==> |r.value| == |env|
    decreases ds
  {
    if ds == [] then Some(env)
    else
      match ExecDecl(ds[0], env)
      case None => None
      case Some(next) => ExecDecls(ds[1..], next)
  }

  function ExecSet(x: Name, e: Expr, env: Env<Val>): (r: Option<Env<Val>>)
    ensures r.Some? ==> |r.value| == |env|
  {
    if Find(env, x).None? then None
    else
      match Eval(e, env)
      case None => None
      case Some(v) => Some(Update(env, x, v))
  }

  function ExecStmt(s: Stmt, env: Env<Val>): (r: Option<Env<Val>>)
    requires env != []
    ensures r.Some? ==> |r.value| == |env|
    decreases s
  {
    match s
    case Let(decls) => ExecDecls(decls, env)
    case Set(x, e) => ExecSet(x, e, env)
    case Touch(x) => if Find(env, x).None? then None else Some(env)
    case Block(body) =>
      match ExecStmts(body, [map[]] + env)
      case None => None
      case Some(last) => Some(last[1..])
  }

  function ExecStmts(ss: seq<Stmt>, env: Env<Val>): (r: Option<Env<Val>>)
    requires env != []
    ensures r.Some? ==> |r.value| == |env|
    decreases ss
  {
    if ss == [] then Some(env)
    else
      match ExecStmt(ss[0], env)
      case None => None
      case Some(next) => ExecStmts(ss[1..], next)
  }

  // ----- compilation -----

  /** The builder call for each operator: `>` and `>=` swap their operands, `!=` negates. */
  function Combine(c: Code, op: Operator, l: nat, r: nat): Option<Compiled> {
    match op
    case Times => Arith(c, Mul, l, r)
    case Over => Arith(c, Div, l, r)
    case Rem => Arith(c, Mod, l, r)
    case Plus => Arith(c, Add, l, r)
    case Minus => Arith(c, Sub, l, r)
    case Less => Arith(c, Lt, l, r)
    case Greater => Arith(c, Lt, r, l)
    case LessEq => Arith(c, Le, l, r)
    case GreaterEq => Arith(c, Le, r, l)
    case Equals => Arith(c, Eq, l, r)
    case NotEquals =>
      match Arith(c, Eq, l, r)
      case None => None
      case Some(e) => Some(Lnot(e.code, e.reg))
  }

  /** _parse_unary_expr to _parse_compare_expr; None is an error of the compiler. */
  function Compile(e: Expr, c: Code, scopes: seq<Scope>): Option<Compiled>
    decreases e
  {
    match e
    case Num(n) => Some(Li(c, n))
    case Var(x) =>
      (match Lookup(scopes, x)
       case None => None
       case Some(reg) => Some(Compiled(c, reg)))
    case Not(e) =>
      (match Compile(e, c, scopes)
       case None => None
       case Some(r) => Some(Lnot(r.code, r.reg)))
    case Neg(e) =>
      (match Compile(e, c, scopes)
       case None => None
       case Some(r) =>
         var zero := Li(r.code, 0);
         Arith(zero.code, Sub, zero.reg, r.reg))
    case Bin(op, l, r) =>
      match Compile(l, c, scopes)
      case None => None
      case Some(a) =>
        match Compile(r, a.code, scopes)
        case None => None
        case Some(b) => Combine(b.code, op, a.reg, b.reg)
  }

  datatype CompileState = CompileState(code: Code, scopes: seq<Scope>)

  /** A variable gets the register of its value, or a copy if no register was
      allocated for the value. */
  function Owned(before: Code, e: Compiled): Compiled {
    if e.code.registerNr == before.registerNr then Mov(e.code, e.reg) else e
  }

  /** The value of a declaration or an assignment. */
  function CompileValue(e: Expr, st: CompileState): Option<Compiled> {
    match Compile(e, st.code, st.scopes)
    case None => None
    case Some(r) => Some(Owned(st.code, r))
  }

  /** One turn of _parse_let_stmt. */
  function CompileDecl(d: Decl, st: CompileState): (r: Option<CompileState>)
    requires st.scopes != []
    ensures r.Some? ==> |r.value.scopes| == |st.scopes|
  {
    if d.x in st.scopes[0].symbols then None
    else
      match d.init
      case None =>
        var u := Undef(st.code);
        Some(CompileState(u.code, Define(st.scopes, d.x, u.reg)))
      case Some(e) =>
        match CompileValue(e, st)
        case None => None
        case Some(v) => Some(CompileState(v.code, Define(st.scopes, d.x, v.reg)))
  }

  /** _parse_let_stmt */
  function CompileDecls(ds: seq<Decl>, st: CompileState): (r: Option<CompileState>)
    requires st.scopes != []
    ensures r.Some? ==> |r.value.scopes| == |st.scopes|
    decreases ds
  {
    if ds == [] then Some(st)
    else
      match CompileDecl(ds[0], st)
      case None => None
      case Some(next) => CompileDecls(ds[1..], next)
  }

  /** _parse_assignment_expr on a variable. */
  function CompileSet(x: Name, e: Expr, st: CompileState): (r: Option<CompileState>)
    requires st.scopes != []
    ensures r.Some? ==> |r.value.scopes| == |st.scopes|
  {
    if Lookup(st.scopes, x).None? then None
    else
      match CompileValue(e, st)
      case None => None
      case Some(v) => Some(CompileState(v.code, Assign(st.scopes, x, v.reg)))
  }

  /** _parse_statement */
  function CompileStmt(s: Stmt, st: CompileState): (r: Option<CompileState>)
    requires st.scopes != []
    ensures r.Some? ==> |r.value.scopes| == |st.scopes|
    decreases s
  {
    match s
    case Let(decls) => CompileDecls(decls, st)
    case Set(x, e) => CompileSet(x, e, st)
    case Touch(x) => if Lookup(st.scopes, x).None? then None else Some(st)
    case Block(body) =>
      match CompileStmts(body, CompileState(st.code, Push(st.scopes)))
      case None => None
      case Some(last) => Some(CompileState(last.code, Join(last.scopes)))
  }

  function CompileStmts(ss: seq<Stmt>, st: CompileState): (r: Option<CompileState>)
    requires st.scopes != []
    ensures r.Some? ==> |r.value.scopes| == |st.scopes|
    decreases ss
  {
    if ss == [] then Some(st)
    else
      match CompileStmt(ss[0], st)
      case None => None
      case Some(next) => CompileStmts(ss[1..], next)
  }

  /** The start of a function: its first registers hold the arguments. */
  function Start(args: map<Name, nat>, n: nat): CompileState {
    CompileState(NewCode(n), [Scope(args, map[])])
  }
}
