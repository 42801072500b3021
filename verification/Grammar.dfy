/** The tokens of straight-line programs and the trees that the recursive
  descent of src/parse.c reads them as. */
module Grammar {
  import opened Values
  import opened Scopes
  import opened Programs

  /** `Sign` is a binary operator, `-` included; `Otherwise` is every token that
      leads out of programs over integers with `&&` and `||`. */
  datatype Token =
    | Id(x: Name)
    | Number(n: int)
    | KwLet
    | Open | Close | LeftBrace | RightBrace
    | Comma | Semi | Gets | Bang
    | Sign(op: Operator)
    | AndAnd | OrOr
    | Otherwise

  /** Comparisons bind least, then sums, then products. */
  function Level(op: Operator): (level: nat)
    ensures level < PREFIX
  {
    match op
    case Times => 2
    case Over => 2
    case Rem => 2
    case Plus => 1
    case Minus => 1
    case _ => 0
  }

  const PREFIX := 3

  type Parsed<T> = Option<(T, seq<Token>)>

  predicate Starts(ts: seq<Token>, t: Token) {
    ts != [] && ts[0] == t
  }

  // ----- expressions -----

  /** _parse_unary_expr: a number, a variable or a parenthesis. */
  function ParseUnary(ts: seq<Token>): (r: Parsed<Expr>)
    ensures r.Some? ==> |r.value.1| < |ts|
    decreases |ts|, 0
  {
    if ts == [] then None
    else
      match ts[0]
      case Number(n) => Some((Num(n), ts[1..]))
      case Id(x) => Some((Var(x), ts[1..]))
      case Open =>
        (match ParseLevel(0, ts[1..])
         case None => None
         case Some(p) => if Starts(p.1, Close) then Some((p.0, p.1[1..])) else None)
      case _ => None
  }

  /** _parse_postfix_expr: calls and member accesses are not straight-line code. */
  function ParsePostfix(ts: seq<Token>): (r: Parsed<Expr>)
    ensures r.Some? ==> |r.value.1| < |ts|
    decreases |ts|, 1
  {
    match ParseUnary(ts)
    case None => None
    case Some(p) => if Starts(p.1, Open) || Starts(p.1, Otherwise) then None else Some(p)
  }

  /** _parse_prefix_expr */
  function ParsePrefix(ts: seq<Token>): (r: Parsed<Expr>)
    ensures r.Some? ==> |r.value.1| < |ts|
    decreases |ts|, 2
  {
    if Starts(ts, Bang) then
      match ParsePrefix(ts[1..])
      case None => None
      case Some(p) => Some((Not(p.0), p.1))
    else if Starts(ts, Sign(Minus)) then
      match ParsePrefix(ts[1..])
      case None => None
      case Some(p) => Some((Neg(p.0), p.1))
    else ParsePostfix(ts)
  }

  predicate SignAt(ts: seq<Token>, level: nat) {
    ts != [] && ts[0].Sign? && Level(ts[0].op) == level
  }

  /** _parse_compare_expr (0), _parse_add_expr (1), _parse_mul_expr (2). */
  function ParseLevel(level: nat, ts: seq<Token>): (r: Parsed<Expr>)
    requires level <= PREFIX
    ensures r.Some? ==> |r.value.1| < |ts|
    decreases |ts|, 3 + PREFIX - level
  {
    if level == PREFIX then ParsePrefix(ts)
    else
      match ParseLevel(level + 1, ts)
      case None => None
      case Some(p) => Continue(level, p.0, p.1)
  }

  /** The loop of such a function, with `acc` read already. */
  function Continue(level: nat, acc: Expr, ts: seq<Token>): (r: Parsed<Expr>)
    requires level < PREFIX
    ensures r.Some? ==> |r.value.1| <= |ts|
    decreases |ts|, 3 + PREFIX - level
  {
    if SignAt(ts, level) then
      match ParseLevel(level + 1, ts[1..])
      case None => None
      case Some(p) => Continue(level, Bin(ts[0].op, acc, p.0), p.1)
    else Some((acc, ts))
  }

  // ----- statements -----

  /** One turn of the loop of _parse_let_stmt, after `let` or a comma. */
  function ParseDecl(ts: seq<Token>): (r: Parsed<Decl>)
    ensures r.Some? ==> |r.value.1| < |ts|
  {
    if ts == [] || !ts[0].Id? then None
    else if Starts(ts[1..], Gets) then
      match ParseLevel(0, ts[2..])
      case None => None
      case Some(p) => Some((Decl(ts[0].x, Some(p.0)), p.1))
    else Some((Decl(ts[0].x, None), ts[1..]))
  }

  /** _parse_let_stmt, after `let` or a comma. */
  function ParseDecls(ts: seq<Token>): (r: Parsed<seq<Decl>>)
    ensures r.Some? ==> |r.value.1| < |ts|
    decreases |ts|
  {
    match ParseDecl(ts)
    case None => None
    case Some(p) =>
      if Starts(p.1, Comma) then
        match ParseDecls(p.1[1..])
        case None => None
        case Some(q) => Some(([p.0] + q.0, q.1))
      else if Starts(p.1, Semi) then Some(([p.0], p.1[1..]))
      else None
  }

  /** _parse_expr_stmt */
  function ParseExprStmt(ts: seq<Token>): (r: Parsed<Stmt>)
    ensures r.Some? ==> |r.value.1| < |ts|
  {
    if ts == [] || !ts[0].Id? then None
    else if Starts(ts[1..], Semi) then Some((Touch(ts[0].x), ts[2..]))
    else if Starts(ts[1..], Gets) then
      match ParseLevel(0, ts[2..])
      case None => None
      case Some(p) => if Starts(p.1, Semi) then Some((Set(ts[0].x, p.0), p.1[1..])) else None
    else None
  }

  /** _parse_statement */
  function ParseStmt(ts: seq<Token>): (r: Parsed<Stmt>)
    ensures r.Some? ==> |r.value.1| < |ts|
    decreases |ts|, 0
  {
    if Starts(ts, LeftBrace) then
      match ParseStmts(ts[1..])
      case None => None
      case Some(p) => if Starts(p.1, RightBrace) then Some((Block(p.0), p.1[1..])) else None
    else if Starts(ts, KwLet) then
      match ParseDecls(ts[1..])
      case None => None
      case Some(p) => Some((Let(p.0), p.1))
    else ParseExprStmt(ts)
  }

  /** The loop over the statements of a block or of the program: up to the end
      or a closing brace. */
  function ParseStmts(ts: seq<Token>): (r: Parsed<seq<Stmt>>)
    ensures r.Some? ==> |r.value.1| <= |ts|
    decreases |ts|, 1
  {
    if ts == [] || ts[0] == RightBrace then Some(([], ts))
    else
      match ParseStmt(ts)
      case None => None
      case Some(p) =>
        match ParseStmts(p.1)
        case None => None
        case Some(q) => Some(([p.0] + q.0, q.1))
  }

  // ----- writing programs down -----

  function LevelOf(e: Expr): nat {
    if e.Bin? then Level(e.op) else PREFIX
  }

  /** An expression with no more parentheses than it needs where an operand of
      this level is expected. */
  function Render(level: nat, e: Expr): seq<Token>
    requires level <= PREFIX
    decreases e, if LevelOf(e) < level then 1 else 0
  {
    if LevelOf(e) < level then [Open] + Render(0, e) + [Close]
    else
      match e
      case Num(n) => [Number(n)]
      case Var(x) => [Id(x)]
      case Not(e) => [Bang] + Render(PREFIX, e)
      case Neg(e) => [Sign(Minus)] + Render(PREFIX, e)
      case Bin(op, l, r) => Render(Level(op), l) + [Sign(op)] + Render(Level(op) + 1, r)
  }

  function RenderDecl(d: Decl): seq<Token> {
    match d.init
    case None => [Id(d.x)]
    case Some(e) => [Id(d.x), Gets] + Render(0, e)
  }

  function RenderDecls(ds: seq<Decl>): seq<Token>
    decreases ds
  {
    if ds == [] then []
    else if |ds| == 1 then RenderDecl(ds[0]) + [Semi]
    else RenderDecl(ds[0]) + [Comma] + RenderDecls(ds[1..])
  }

  function RenderStmt(s: Stmt): seq<Token>
    decreases s
  {
    match s
    case Let(decls) => [KwLet] + RenderDecls(decls)
    case Set(x, e) => [Id(x), Gets] + Render(0, e) + [Semi]
    case Touch(x) => [Id(x), Semi]
    case Block(body) => [LeftBrace] + RenderStmts(body) + [RightBrace]
  }

  function RenderStmts(ss: seq<Stmt>): seq<Token>
    decreases ss
  {
    if ss == [] then [] else RenderStmt(ss[0]) + RenderStmts(ss[1..])
  }

  /** The source has no empty declaration lists. */
  predicate Writable(s: Stmt)
    decreases s
  {
    match s
    case Let(decls) => decls != []
    case Set(_, _) => true
    case Touch(_) => true
    case Block(body) => AllWritable(body)
  }

  predicate AllWritable(ss: seq<Stmt>)
    decreases ss
  {
    ss != [] ==> Writable(ss[0]) && AllWritable(ss[1..])
  }

  // ----- reading back what was written -----

  /** An operand can end here: what follows is no call and no operator that
      would still belong to it. */
  predicate Ends(level: nat, ts: seq<Token>) {
    ts != [] ==> ts[0] != Open && ts[0] != Otherwise && (ts[0].Sign? ==> Level(ts[0].op) < level)
  }

  lemma ContinueEnds(level: nat, e: Expr, ts: seq<Token>)
    requires level < PREFIX && Ends(level, ts)
    ensures Continue(level, e, ts) == Some((e, ts))
  {
  }

  lemma RenderHigher(level: nat, e: Expr)
    requires level < PREFIX && LevelOf(e) > level
    ensures Render(level, e) == Render(level + 1, e)
  {
  }

  /** Reading what was written for an operand of some level leaves the loop of
      that level with the operand read. */
  lemma {:induction false} ReadLevel(level: nat, e: Expr, rest: seq<Token>)
    requires level < PREFIX && Ends(level + 1, rest)
    ensures ParseLevel(level, Render(level, e) + rest) == Continue(level, e, rest)
    decreases e, if LevelOf(e) < level then 1 else 0, PREFIX - level, 0
  {
    hide Ends;
    if LevelOf(e) == level {
      hide ParseLevel, Continue, ParsePrefix, Render;
      var op, l, r := e.op, e.l, e.r;
      ReadBin(op, l, r, rest);
      var after := [Sign(op)] + Render(level + 1, r) + rest;
      SignEnds(op, Render(level + 1, r) + rest);
      assert after == [Sign(op)] + (Render(level + 1, r) + rest);
      ReadLevel(level, l, after);
      ReadOperand(level + 1, r, rest);
      ContinueOnce(level, l, op, r, after, rest);
    } else {
      if LevelOf(e) > level {
        RenderHigher(level, e);
      } else {
        RenderParens(level, e);
      }
      hide ParsePrefix, Render, Continue;
      ReadOperand(level + 1, e, rest);
    }
  }

  lemma RenderParens(level: nat, e: Expr)
    requires level < PREFIX && LevelOf(e) < level
    ensures Render(level, e) == Render(level + 1, e)
  {
  }

  lemma SignEnds(op: Operator, ts: seq<Token>)
    ensures Ends(Level(op) + 1, [Sign(op)] + ts)
  {
  }

  lemma ReadBin(op: Operator, l: Expr, r: Expr, rest: seq<Token>)
    ensures Render(Level(op), Bin(op, l, r)) + rest
         == Render(Level(op), l) + ([Sign(op)] + Render(Level(op) + 1, r) + rest)
  {
    RenderSides(op, l, r);
    hide Level, Render;
    Reassociate(Render(Level(op), l), [Sign(op)], Render(Level(op) + 1, r), rest);
  }

  lemma RenderSides(op: Operator, l: Expr, r: Expr)
    ensures Render(Level(op), Bin(op, l, r)) == Render(Level(op), l) + [Sign(op)] + Render(Level(op) + 1, r)
  {
    hide Level;
    assert LevelOf(Bin(op, l, r)) == Level(op);
  }

  lemma Reassociate<T>(a: seq<T>, b: seq<T>, c: seq<T>, d: seq<T>)
    ensures a + b + c + d == a + (b + c + d)
  {
  }

  lemma ContinueOnce(level: nat, l: Expr, op: Operator, r: Expr, after: seq<Token>, rest: seq<Token>)
    requires level < PREFIX && Level(op) == level && Starts(after, Sign(op))
    requires ParseLevel(level + 1, after[1..]) == Some((r, rest))
    ensures Continue(level, l, after) == Continue(level, Bin(op, l, r), rest)
  {
    hide ParseLevel, Level;
  }

  lemma EndsLower(level: nat, ts: seq<Token>)
    requires Ends(level, ts)
    ensures Ends(level + 1, ts)
  {
  }

  lemma CloseEnds(rest: seq<Token>)
    ensures Ends(0, [Close] + rest)
  {
  }

  lemma ReadAtom(e: Expr, rest: seq<Token>)
    requires (e.Num? || e.Var?) && Ends(PREFIX, rest)
    ensures ParsePrefix(Render(PREFIX, e) + rest) == Some((e, rest))
  {
    hide ParseLevel;
    var ts := Render(PREFIX, e) + rest;
    assert ts[1..] == rest;
    assert ParseUnary(ts) == Some((e, rest));
    assert ParsePostfix(ts) == Some((e, rest));
  }

  lemma ReadParens(e: Expr, rest: seq<Token>)
    requires e.Bin? && Ends(PREFIX, rest)
    requires ParseLevel(0, Render(0, e) + ([Close] + rest)) == Some((e, [Close] + rest))
    ensures ParsePrefix(Render(PREFIX, e) + rest) == Some((e, rest))
  {
    hide ParseLevel;
    var ts := Render(PREFIX, e) + rest;
    RenderBin(e);
    hide Render, Level;
    assert ts == [Open] + (Render(0, e) + ([Close] + rest));
    assert ts[1..] == Render(0, e) + ([Close] + rest);
    assert ([Close] + rest)[1..] == rest;
    assert ParseUnary(ts) == Some((e, rest));
    assert ParsePostfix(ts) == Some((e, rest));
  }

  lemma RenderBin(e: Expr)
    requires e.Bin?
    ensures Render(PREFIX, e) == [Open] + Render(0, e) + [Close]
  {
  }

  lemma RenderPrefix(e: Expr, rest: seq<Token>)
    ensures e.Not? ==> Render(PREFIX, e) + rest == [Bang] + (Render(PREFIX, e.e) + rest)
    ensures e.Neg? ==> Render(PREFIX, e) + rest == [Sign(Minus)] + (Render(PREFIX, e.e) + rest)
  {
  }

  lemma ReadSigned(e: Expr, rest: seq<Token>)
    requires (e.Not? || e.Neg?) && ParsePrefix(Render(PREFIX, e.e) + rest) == Some((e.e, rest))
    ensures ParsePrefix(Render(PREFIX, e) + rest) == Some((e, rest))
  {
    hide ParseLevel, Render, ParsePostfix;
    RenderPrefix(e, rest);
    var ts := Render(PREFIX, e) + rest;
    assert ts[1..] == Render(PREFIX, e.e) + rest;
  }

  /** Reading back one operand. */
  lemma {:induction false} ReadOperand(level: nat, e: Expr, rest: seq<Token>)
    requires level <= PREFIX && Ends(level, rest)
    ensures ParseLevel(level, Render(level, e) + rest) == Some((e, rest))
    decreases e, if LevelOf(e) < level then 1 else 0, PREFIX - level, 1
  {
    if level < PREFIX {
      hide Ends, ParseLevel, Continue, Render;
      EndsLower(level, rest);
      ReadLevel(level, e, rest);
      ContinueEnds(level, e, rest);
    } else {
      hide Ends, ParsePrefix, Render;
      match e
      case Num(_) => ReadAtom(e, rest);
      case Var(_) => ReadAtom(e, rest);
      case Not(e1) =>
        ReadOperand(PREFIX, e1, rest);
        ReadSigned(e, rest);
      case Neg(e1) =>
        ReadOperand(PREFIX, e1, rest);
        ReadSigned(e, rest);
      case Bin(_, _, _) =>
        CloseEnds(rest);
        ReadOperand(0, e, [Close] + rest);
        ReadParens(e, rest);
    }
  }

  // ----- statements read back -----

  /** A whole expression, up to a token that cannot continue it. */
  lemma ReadExpr(e: Expr, rest: seq<Token>)
    requires Starts(rest, Comma) || Starts(rest, Semi)
    ensures ParseLevel(0, Render(0, e) + rest) == Some((e, rest))
  {
    hide ParseLevel, Render;
    ReadOperand(0, e, rest);
  }

  lemma ReadDecl(d: Decl, rest: seq<Token>)
    requires Starts(rest, Comma) || Starts(rest, Semi)
    ensures ParseDecl(RenderDecl(d) + rest) == Some((d, rest))
  {
    hide ParseLevel, Render;
    var ts := RenderDecl(d) + rest;
    match d.init
    case None => assert ts[1..] == rest;
    case Some(e) =>
      ReadExpr(e, rest);
      assert ts[2..] == Render(0, e) + rest;
  }

  lemma {:induction false} ReadDecls(ds: seq<Decl>, rest: seq<Token>)
    requires ds != []
    ensures ParseDecls(RenderDecls(ds) + rest) == Some((ds, rest))
    decreases ds
  {
    hide ParseDecl, RenderDecl;
    var ts := RenderDecls(ds) + rest;
    if |ds| == 1 {
      ReadDecl(ds[0], [Semi] + rest);
      assert ts == RenderDecl(ds[0]) + ([Semi] + rest);
      assert ([Semi] + rest)[1..] == rest;
      assert [ds[0]] == ds;
    } else {
      var more := RenderDecls(ds[1..]) + rest;
      ReadDecls(ds[1..], rest);
      ReadDecl(ds[0], [Comma] + more);
      Reassociate(RenderDecl(ds[0]), [Comma], RenderDecls(ds[1..]), rest);
      assert [Comma] + more == [Comma] + RenderDecls(ds[1..]) + rest;
      assert ([Comma] + more)[1..] == more;
      assert [ds[0]] + ds[1..] == ds;
    }
  }

  lemma ReadExprStmt(s: Stmt, rest: seq<Token>)
    requires s.Set? || s.Touch?
    ensures ParseStmt(RenderStmt(s) + rest) == Some((s, rest))
  {
    hide ParseLevel, Render;
    var ts := RenderStmt(s) + rest;
    match s
    case Touch(x) => assert ts[2..] == rest;
    case Set(x, e) =>
      ReadExpr(e, [Semi] + rest);
      assert ts[2..] == Render(0, e) + ([Semi] + rest);
      assert ([Semi] + rest)[1..] == rest;
  }

  lemma {:induction false} ReadStmt(s: Stmt, rest: seq<Token>)
    requires Writable(s)
    ensures ParseStmt(RenderStmt(s) + rest) == Some((s, rest))
    decreases s
  {
    hide ParseDecls, RenderDecls, ParseExprStmt;
    var ts := RenderStmt(s) + rest;
    match s
    case Set(_, _) => ReadExprStmt(s, rest);
    case Touch(_) => ReadExprStmt(s, rest);
    case Let(decls) =>
      ReadDecls(decls, rest);
      assert ts[1..] == RenderDecls(decls) + rest;
    case Block(body) =>
      var after := [RightBrace] + rest;
      ReadStmts(body, after);
      assert ts[1..] == RenderStmts(body) + after;
      assert after[1..] == rest;
  }

  /** The parser inverts the printer: what it reads from a written program, with
      nothing or a closing brace behind it, is that program. */
  lemma {:induction false} ReadStmts(ss: seq<Stmt>, rest: seq<Token>)
    requires AllWritable(ss) && (rest == [] || rest[0] == RightBrace)
    ensures ParseStmts(RenderStmts(ss) + rest) == Some((ss, rest))
    decreases ss
  {
    hide ParseStmt, RenderStmt, Writable;
    if ss == [] {
      assert RenderStmts(ss) + rest == rest;
    } else {
      var more := RenderStmts(ss[1..]) + rest;
      ReadStmts(ss[1..], rest);
      ReadStmt(ss[0], more);
      StmtStarts(ss[0]);
      assert RenderStmts(ss) + rest == RenderStmt(ss[0]) + more;
      assert [ss[0]] + ss[1..] == ss;
    }
  }

  lemma StmtStarts(s: Stmt)
    ensures RenderStmt(s) != [] && RenderStmt(s)[0] != RightBrace
  {
  }
}
