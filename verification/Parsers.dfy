/** The one-pass compiler of src/parse.c on straight-line programs: it emits code
  while it reads, and so never sees the tree that its output is specified by. */
module Parsers {
  import opened Values
  import opened Arithmetic
  import opened Tables
  import opened Scopes
  import opened Codes
  import opened BasicBlocks
  import opened IrBuilder
  import opened Programs
  import opened Grammar

  /** What reading an expression has to leave: the tree, compiled, and the tokens behind it. */
  function ExprOutcome(p: Parsed<Expr>, st: CompileState): Option<(Compiled, seq<Token>)> {
    match p
    case None => None
    case Some(q) =>
      match Compile(q.0, st.code, st.scopes)
      case None => None
      case Some(c) => Some((c, q.1))
  }

  /** An operand that does not compile spoils every expression around it. */
  lemma {:induction false} SpineFails(level: nat, acc: Expr, ts: seq<Token>, c: Code, scopes: seq<Scope>)
    requires level < PREFIX && Compile(acc, c, scopes) == None
    ensures Continue(level, acc, ts).Some? ==> Compile(Continue(level, acc, ts).value.0, c, scopes) == None
    decreases |ts|
  {
    hide ParseLevel, Combine, Lookup, Codes.Li, Codes.Arith;
    if SignAt(ts, level) && ParseLevel(level + 1, ts[1..]).Some? {
      var p := ParseLevel(level + 1, ts[1..]).value;
      SpineFails(level, Bin(ts[0].op, acc, p.0), p.1, c, scopes);
    }
  }

  // ----- outcomes, one token at a time -----

  /** No call and no member access behind an operand. */
  function Whole(c: Compiled, ts: seq<Token>): Option<(Compiled, seq<Token>)> {
    if Starts(ts, Token.Open) || Starts(ts, Otherwise) then None else Some((c, ts))
  }

  function PostfixOutcome(ts: seq<Token>, st: CompileState): Option<(Compiled, seq<Token>)> {
    ExprOutcome(ParsePostfix(ts), st)
  }

  function PrefixOutcome(ts: seq<Token>, st: CompileState): Option<(Compiled, seq<Token>)> {
    ExprOutcome(ParsePrefix(ts), st)
  }

  function LevelOutcome(level: nat, ts: seq<Token>, st: CompileState): Option<(Compiled, seq<Token>)>
    requires level <= PREFIX
  {
    ExprOutcome(ParseLevel(level, ts), st)
  }

  /** What a postfix expression comes to, by its first token. */
  lemma PostfixStep(ts: seq<Token>, st: CompileState)
    ensures ts != [] && ts[0].Number? ==> PostfixOutcome(ts, st) == Whole(Codes.Li(st.code, ts[0].n), ts[1..])
    ensures ts != [] && ts[0].Id? ==>
              PostfixOutcome(ts, st) ==
              match Lookup(st.scopes, ts[0].x)
              case None => None
              case Some(reg) => Whole(Compiled(st.code, reg), ts[1..])
    ensures ts == [] || !(ts[0].Number? || ts[0].Id? || ts[0].Open?) ==> PostfixOutcome(ts, st) == None
  {
    hide ParseLevel, Codes.Li, Lookup;
    if ts != [] && ts[0].Number? {
      assert ParseUnary(ts) == Some((Num(ts[0].n), ts[1..]));
    } else if ts != [] && ts[0].Id? {
      assert ParseUnary(ts) == Some((Var(ts[0].x), ts[1..]));
    } else if !Starts(ts, Token.Open) {
      assert ParseUnary(ts) == None;
    }
  }

  lemma PostfixParens(ts: seq<Token>, st: CompileState)
    requires Starts(ts, Token.Open)
    ensures PostfixOutcome(ts, st) ==
            match LevelOutcome(0, ts[1..], st)
            case None => None
            case Some(q) => if Starts(q.1, Close) then Whole(q.0, q.1[1..]) else None
  {
    hide ParseLevel, Compile;
    var p := ParseLevel(0, ts[1..]);
    assert ParseUnary(ts) == if p.Some? && Starts(p.value.1, Close) then Some((p.value.0, p.value.1[1..])) else None;
  }

  lemma PrefixStep(ts: seq<Token>, st: CompileState)
    ensures Starts(ts, Bang) ==>
              PrefixOutcome(ts, st) ==
              match PrefixOutcome(ts[1..], st)
              case None => None
              case Some(q) => Some((Codes.Lnot(q.0.code, q.0.reg), q.1))
    ensures Starts(ts, Sign(Minus)) ==>
              PrefixOutcome(ts, st) ==
              match PrefixOutcome(ts[1..], st)
              case None => None
              case Some(q) =>
                var zero := Codes.Li(q.0.code, 0);
                match Codes.Arith(zero.code, Sub, zero.reg, q.0.reg)
                case None => None
                case Some(d) => Some((d, q.1))
    ensures !Starts(ts, Bang) && !Starts(ts, Sign(Minus)) ==> PrefixOutcome(ts, st) == PostfixOutcome(ts, st)
  {
    hide ParsePostfix, Codes.Li, Codes.Arith, Codes.Lnot;
  }

  lemma LevelPrefix(ts: seq<Token>, st: CompileState)
    ensures LevelOutcome(PREFIX, ts, st) == PrefixOutcome(ts, st)
  {
    hide ParsePrefix, Compile;
  }

  function LoopOutcome(level: nat, acc: Expr, ts: seq<Token>, st: CompileState): Option<(Compiled, seq<Token>)>
    requires level < PREFIX
  {
    ExprOutcome(Continue(level, acc, ts), st)
  }

  /** The first operand of a loop. */
  lemma LoopStart(level: nat, ts: seq<Token>, st: CompileState) returns (acc: Expr)
    requires level < PREFIX
    ensures match LevelOutcome(level + 1, ts, st)
            case None => LevelOutcome(level, ts, st) == None
            case Some(q) =>
              && Compile(acc, st.code, st.scopes) == Some(q.0)
              && LevelOutcome(level, ts, st) == LoopOutcome(level, acc, q.1, st)
  {
    hide Compile, Continue, ParsePrefix;
    acc := Num(0);
    var p := ParseLevel(level + 1, ts);
    if p.Some? {
      acc := p.value.0;
      if Compile(acc, st.code, st.scopes) == None {
        SpineFails(level, acc, p.value.1, st.code, st.scopes);
      }
    }
  }

  /** One more operand. */
  lemma LoopStep(level: nat, acc: Expr, c: Compiled, ts: seq<Token>, st: CompileState) returns (acc': Expr)
    requires level < PREFIX && SignAt(ts, level) && Compile(acc, st.code, st.scopes) == Some(c)
    ensures match LevelOutcome(level + 1, ts[1..], CompileState(c.code, st.scopes))
            case None => LoopOutcome(level, acc, ts, st) == None
            case Some(q) =>
              match Combine(q.0.code, ts[0].op, c.reg, q.0.reg)
              case None => LoopOutcome(level, acc, ts, st) == None
              case Some(d) =>
                && Compile(acc', st.code, st.scopes) == Some(d)
                && LoopOutcome(level, acc, ts, st) == LoopOutcome(level, acc', q.1, st)
  {
    hide Combine, ParseLevel, Lookup, Codes.Li, Codes.Arith, Codes.Lnot;
    acc' := acc;
    var p := ParseLevel(level + 1, ts[1..]);
    if p.Some? {
      acc' := Bin(ts[0].op, acc, p.value.0);
      if Compile(acc', st.code, st.scopes) == None {
        SpineFails(level, acc', p.value.1, st.code, st.scopes);
      }
    }
  }

  lemma LoopEnd(level: nat, acc: Expr, c: Compiled, ts: seq<Token>, st: CompileState)
    requires level < PREFIX && !SignAt(ts, level) && Compile(acc, st.code, st.scopes) == Some(c)
    ensures LoopOutcome(level, acc, ts, st) == Some((c, ts))
  {
    hide Compile, ParseLevel;
  }

  // ----- statements -----

  function ValueOutcome(ts: seq<Token>, st: CompileState): Option<(Compiled, seq<Token>)> {
    match LevelOutcome(0, ts, st)
    case None => None
    case Some(q) => Some((Owned(st.code, q.0), q.1))
  }

  /** What reading some statements has to leave: the new state and the tokens behind them. */
  type Stated = Option<(CompileState, seq<Token>)>

  function DeclOutcome(ts: seq<Token>, st: CompileState): Stated
    requires st.scopes != []
  {
    match ParseDecl(ts)
    case None => None
    case Some(p) =>
      match CompileDecl(p.0, st)
      case None => None
      case Some(next) => Some((next, p.1))
  }

  function DeclsOutcome(ts: seq<Token>, st: CompileState): Stated
    requires st.scopes != []
  {
    match ParseDecls(ts)
    case None => None
    case Some(p) =>
      match CompileDecls(p.0, st)
      case None => None
      case Some(next) => Some((next, p.1))
  }

  function StmtOutcome(ts: seq<Token>, st: CompileState): Stated
    requires st.scopes != []
  {
    match ParseStmt(ts)
    case None => None
    case Some(p) =>
      match CompileStmt(p.0, st)
      case None => None
      case Some(next) => Some((next, p.1))
  }

  function StmtsOutcome(ts: seq<Token>, st: CompileState): Stated
    requires st.scopes != []
  {
    match ParseStmts(ts)
    case None => None
    case Some(p) =>
      match CompileStmts(p.0, st)
      case None => None
      case Some(next) => Some((next, p.1))
  }

  /** One declaration, by the tokens it starts with. */
  lemma DeclStep(ts: seq<Token>, st: CompileState)
    requires st.scopes != []
    ensures DeclOutcome(ts, st) ==
            if ts == [] || !ts[0].Id? || ts[0].x in st.scopes[0].symbols then None
            else if Starts(ts[1..], Gets) then
              match ValueOutcome(ts[2..], st)
              case None => None
              case Some(q) => Some((CompileState(q.0.code, Define(st.scopes, ts[0].x, q.0.reg)), q.1))
            else
              var u := Undef(st.code);
              Some((CompileState(u.code, Define(st.scopes, ts[0].x, u.reg)), ts[1..]))
  {
    hide ParseLevel, Compile, Define, Undef, Owned;
  }

  /** Behind one declaration: a comma and more, or the semicolon. */
  function MoreDecls(ts: seq<Token>, st: CompileState): Stated
    requires st.scopes != []
  {
    if Starts(ts, Comma) then DeclsOutcome(ts[1..], st)
    else if Starts(ts, Semi) then Some((st, ts[1..]))
    else None
  }

  /** The declarations of one `let`. */
  lemma DeclsStep(ts: seq<Token>, st: CompileState)
    requires st.scopes != []
    ensures DeclsOutcome(ts, st) ==
            match DeclOutcome(ts, st)
            case None => None
            case Some(q) => MoreDecls(q.1, q.0)
  {
    hide ParseDecl, CompileDecl;
    var p := ParseDecl(ts);
    if p.Some? {
      var (d, rest) := p.value;
      if Starts(rest, Comma) && ParseDecls(rest[1..]).Some? {
        var ds := ParseDecls(rest[1..]).value.0;
        assert ([d] + ds)[0] == d && ([d] + ds)[1..] == ds;
      } else if Starts(rest, Semi) {
        assert [d][1..] == [];
        if CompileDecl(d, st).Some? {
          assert CompileDecls([d][1..], CompileDecl(d, st).value) == CompileDecl(d, st);
        }
      }
    }
  }

  lemma MoreStep(ts: seq<Token>, st: CompileState)
    requires st.scopes != []
    ensures Starts(ts, Comma) ==>
              MoreDecls(ts, st) ==
              match DeclOutcome(ts[1..], st)
              case None => None
              case Some(q) => MoreDecls(q.1, q.0)
    ensures !Starts(ts, Comma) ==> MoreDecls(ts, st) == if Starts(ts, Semi) then Some((st, ts[1..])) else None
  {
    hide DeclsOutcome, DeclOutcome;
    if Starts(ts, Comma) {
      DeclsStep(ts[1..], st);
    }
  }

  /** A statement, by its first token. */
  lemma StmtStep(ts: seq<Token>, st: CompileState)
    requires st.scopes != []
    ensures Starts(ts, LeftBrace) ==>
              StmtOutcome(ts, st) ==
              match StmtsOutcome(ts[1..], CompileState(st.code, Push(st.scopes)))
              case None => None
              case Some(q) =>
                if Starts(q.1, RightBrace) && |q.0.scopes| >= 2
                then Some((CompileState(q.0.code, Join(q.0.scopes)), q.1[1..])) else None
    ensures Starts(ts, KwLet) ==> StmtOutcome(ts, st) == DeclsOutcome(ts[1..], st)
    ensures Starts(ts, KwLet) || Starts(ts, LeftBrace) || (ts != [] && ts[0].Id?) || StmtOutcome(ts, st) == None
  {
    hide ParseDecls, CompileDecls, Join, ParseLevel, Compile;
  }

  /** An assignment or a variable on its own. */
  lemma ExprStmtStep(ts: seq<Token>, st: CompileState)
    requires st.scopes != [] && ts != [] && ts[0].Id?
    ensures StmtOutcome(ts, st) ==
            if Lookup(st.scopes, ts[0].x).None? then None
            else if Starts(ts[1..], Semi) then Some((st, ts[2..]))
            else if Starts(ts[1..], Gets) then
              match ValueOutcome(ts[2..], st)
              case None => None
              case Some(q) =>
                if !Starts(q.1, Semi) then None
                else Some((CompileState(q.0.code, Assign(st.scopes, ts[0].x, q.0.reg)), q.1[1..]))
            else None
  {
    hide ParseLevel, Compile, Assign, Lookup, Owned;
  }

  /** One statement, then the others. */
  lemma StmtsStep(ts: seq<Token>, st: CompileState)
    requires st.scopes != []
    ensures StmtsOutcome(ts, st) ==
            if ts == [] || ts[0] == RightBrace then Some((st, ts))
            else
              match StmtOutcome(ts, st)
              case None => None
              case Some(q) => StmtsOutcome(q.1, q.0)
  {
    hide ParseStmt, CompileStmt;
    var p := ParseStmt(ts);
    if ts != [] && ts[0] != RightBrace && p.Some? {
      var (s, rest) := p.value;
      if ParseStmts(rest).Some? {
        var ss := ParseStmts(rest).value.0;
        assert ([s] + ss)[0] == s && ([s] + ss)[1..] == ss;
      }
    }
  }

  lemma OutcomeSizes(ts: seq<Token>, st: CompileState)
    requires st.scopes != []
    ensures DeclOutcome(ts, st).Some? ==>
              |DeclOutcome(ts, st).value.1| < |ts| && |DeclOutcome(ts, st).value.0.scopes| == |st.scopes|
    ensures StmtOutcome(ts, st).Some? ==>
              |StmtOutcome(ts, st).value.1| < |ts| && |StmtOutcome(ts, st).value.0.scopes| == |st.scopes|
    ensures StmtsOutcome(ts, st).Some? ==>
              |StmtsOutcome(ts, st).value.1| <= |ts| && |StmtsOutcome(ts, st).value.0.scopes| == |st.scopes|
  {
    hide ParseDecl, CompileDecl, ParseStmt, CompileStmt, ParseStmts, CompileStmts;
  }

  /** What reading a whole program has to leave. */
  function ProgramOutcome(ts: seq<Token>, st: CompileState): Option<CompileState>
    requires st.scopes != []
  {
    match StmtsOutcome(ts, st)
    case None => None
    case Some(q) => if q.1 == [] then Some(q.0) else None
  }

  class ParseState {
    var tokens: seq<Token>
    var scopes: seq<Scope>
    const builder: IRBuilder
    var currentBb: BasicBlock

    ghost predicate Valid()
      reads this, currentBb`brReg, currentBb`elseBb
    {
      currentBb.Dominated() && currentBb.Open() && scopes != []
    }

    ghost function Now(): CompileState
      reads this, builder`registerNr, currentBb`instList
      reads currentBb.Chain()`constantTable, currentBb.Chain()`numericValue
    {
      CompileState(builder.CodeOf(currentBb), scopes)
    }

    /** The method's result and the new state are this outcome; None is a trap. */
    ghost predicate Gave(r: Option<nat>, o: Option<(Compiled, seq<Token>)>)
      reads this, builder`registerNr, currentBb`instList
      reads currentBb.Chain()`constantTable, currentBb.Chain()`numericValue
    {
      match o
      case None => r == None
      case Some(q) => r == Some(q.0.reg) && tokens == q.1 && builder.CodeOf(currentBb) == q.0.code
    }

    /** The builder of the main function, with one register taken. */
    static method NewBuilder() returns (b: IRBuilder, bb: BasicBlock)
      ensures fresh(b) && fresh(bb) && bb.Dominated() && bb.Open()
      ensures b.CodeOf(bb) == NewCode(1) && b.basicBlocks == [bb]
      ensures bb.entryPoint == NO_ENTRY && bb.thenBb == null && bb.Chain() == [bb]
    {
      hide BasicBlock.Constants, BasicBlock.Numbers, FromInt, BasicBlock.Dominated, BasicBlock.Upper;
      b := new IRBuilder(0);
      bb := b.basicBlocks[0];
      ghost var chain := bb.Chain();
      var reg := b.AllocateRegister();
    }

    /** _parse_state_new: register 1 is the variable `global`. */
    constructor (tokens: seq<Token>, global: Name)
      ensures Valid() && this.tokens == tokens && Now() == Start(map[global := 1], 1)
      ensures fresh(builder) && fresh(currentBb) && builder.basicBlocks == [currentBb]
      ensures currentBb.entryPoint == NO_ENTRY && currentBb.thenBb == null && currentBb.Chain() == [currentBb]
    {
      hide BasicBlock.Constants, BasicBlock.Numbers, FromInt, BasicBlock.Dominated, BasicBlock.Upper, BasicBlock.Open;
      hide IRBuilder.CodeOf, NewCode;
      this.tokens := tokens;
      var b, bb := NewBuilder();
      builder, currentBb := b, bb;
      scopes := [Scope(map[global := 1], map[])];
    }

    /** _lex_next: nothing comes after the end. */
    method Next()
      modifies this`tokens
      ensures tokens == if old(tokens) == [] then [] else old(tokens)[1..]
    {
      if tokens != [] {
        tokens := tokens[1..];
      }
    }

    /** The calls of the builder that the expression parsers make. */
    method Build(op: Operator, l: nat, r: nat) returns (ret: Option<nat>)
      requires Valid()
      modifies builder`registerNr, currentBb`instList, currentBb.Chain()`constantTable, currentBb.Chain()`numericValue
      ensures match Combine(old(Now()).code, op, l, r)
              case None => ret == None
              case Some(e) => ret == Some(e.reg) && Now().code == e.code
      ensures currentBb.Upper() == old(currentBb.Upper())
    {
      hide Codes.Arith, Codes.Lnot, BasicBlock.Constants, BasicBlock.Numbers, BasicBlock.Dominated, BasicBlock.Upper;
      hide BasicBlock.Open, IRBuilder.CodeOf;
      match op
      case Times => ret := builder.Arith(currentBb, Mul, l, r);
      case Over => ret := builder.Arith(currentBb, Div, l, r);
      case Rem => ret := builder.Arith(currentBb, Mod, l, r);
      case Plus => ret := builder.Arith(currentBb, Add, l, r);
      case Minus => ret := builder.Arith(currentBb, Sub, l, r);
      case Less => ret := builder.Arith(currentBb, Lt, l, r);
      case Greater => ret := builder.Arith(currentBb, Lt, r, l);
      case LessEq => ret := builder.Arith(currentBb, Le, l, r);
      case GreaterEq => ret := builder.Arith(currentBb, Le, r, l);
      case Equals => ret := builder.Arith(currentBb, Eq, l, r);
      case NotEquals =>
        ret := builder.Arith(currentBb, Eq, l, r);
        if ret.Some? {
          var not := builder.Lnot(currentBb, ret.value);
          ret := Some(not);
        }
    }

    /** _parse_unary_expr with _parse_postfix_expr */
    method ParsePostfixExpr() returns (ret: Option<nat>)
      requires Valid()
      modifies this`tokens, builder`registerNr, currentBb`instList
      modifies currentBb.Chain()`constantTable, currentBb.Chain()`numericValue
      ensures Gave(ret, PostfixOutcome(old(tokens), old(Now())))
      ensures currentBb.Upper() == old(currentBb.Upper())
      decreases |tokens|, 0
    {
      hide Codes.Li, BasicBlock.Constants, BasicBlock.Numbers, BasicBlock.Dominated, BasicBlock.Upper;
      hide BasicBlock.Open;
      hide IRBuilder.CodeOf, PostfixOutcome, LevelOutcome, Lookup;
      PostfixStep(tokens, Now());
      if tokens == [] {
        return None;
      }
      match tokens[0] {
        case Number(n) =>
          var reg := builder.Li(currentBb, n);
          Next();
          ret := Some(reg);
        case Id(x) =>
          ret := Lookup(scopes, x);
          Next();
        case Open =>
          PostfixParens(tokens, Now());
          Next();
          ret := ParseLevelExpr(0);
          if ret == None || !Starts(tokens, Close) {
            return None;
          }
          Next();
        case _ =>
          return None;
      }
      if Starts(tokens, Token.Open) || Starts(tokens, Otherwise) {
        return None;
      }
    }

    /** _parse_prefix_expr */
    method ParsePrefixExpr() returns (ret: Option<nat>)
      requires Valid()
      modifies this`tokens, builder`registerNr, currentBb`instList
      modifies currentBb.Chain()`constantTable, currentBb.Chain()`numericValue
      ensures Gave(ret, PrefixOutcome(old(tokens), old(Now())))
      ensures currentBb.Upper() == old(currentBb.Upper())
      decreases |tokens|, 1
    {
      hide Codes.Li, Codes.Arith, Codes.Lnot, BasicBlock.Constants, BasicBlock.Numbers, BasicBlock.Dominated;
      hide BasicBlock.Upper;
      hide BasicBlock.Open, IRBuilder.CodeOf, PostfixOutcome, PrefixOutcome;
      PrefixStep(tokens, Now());
      if Starts(tokens, Bang) {
        Next();
        ret := ParsePrefixExpr();
        if ret.Some? {
          var not := builder.Lnot(currentBb, ret.value);
          ret := Some(not);
        }
      } else if Starts(tokens, Sign(Minus)) {
        Next();
        ret := ParsePrefixExpr();
        if ret.Some? {
          var zero := builder.Li(currentBb, 0);
          ret := builder.Arith(currentBb, Sub, zero, ret.value);
        }
      } else {
        ret := ParsePostfixExpr();
      }
    }

    /** One turn of the loop of such a function: an operator and its right operand. */
    method ParseOperand(level: nat, left: nat, ghost acc: Expr, ghost st: CompileState)
      returns (ret: Option<nat>, ghost acc': Expr)
      requires Valid() && level < PREFIX && SignAt(tokens, level) && scopes == st.scopes
      requires Compile(acc, st.code, st.scopes) == Some(Compiled(Now().code, left))
      modifies this`tokens, builder`registerNr, currentBb`instList
      modifies currentBb.Chain()`constantTable, currentBb.Chain()`numericValue
      ensures |tokens| < old(|tokens|) || ret == None
      ensures match ret
              case None => LoopOutcome(level, acc, old(tokens), st) == None
              case Some(reg) =>
                && Compile(acc', st.code, st.scopes) == Some(Compiled(Now().code, reg))
                && LoopOutcome(level, acc, old(tokens), st) == LoopOutcome(level, acc', tokens, st)
      ensures currentBb.Upper() == old(currentBb.Upper())
      decreases |tokens|, 1 + PREFIX - level
    {
      hide Combine, BasicBlock.Constants, BasicBlock.Numbers, BasicBlock.Dominated, BasicBlock.Upper, BasicBlock.Open;
      hide IRBuilder.CodeOf, Compile;
      hide LevelOutcome, LoopOutcome;
      LevelShrinks(level + 1, tokens[1..], Now());
      acc' := LoopStep(level, acc, Compiled(Now().code, left), tokens, st);
      var op := tokens[0].op;
      Next();
      ret := ParseLevelExpr(level + 1);
      if ret.Some? {
        ret := Build(op, left, ret.value);
      }
    }

    /** _parse_compare_expr (0), _parse_add_expr (1) and _parse_mul_expr (2): the
        same loop over different operators; 3 is _parse_prefix_expr. */
    method ParseLevelExpr(level: nat) returns (ret: Option<nat>)
      requires Valid() && level <= PREFIX
      modifies this`tokens, builder`registerNr, currentBb`instList
      modifies currentBb.Chain()`constantTable, currentBb.Chain()`numericValue
      ensures Gave(ret, LevelOutcome(level, old(tokens), old(Now())))
      ensures currentBb.Upper() == old(currentBb.Upper())
      decreases |tokens|, 2 + PREFIX - level
    {
      hide Combine, BasicBlock.Constants, BasicBlock.Numbers, BasicBlock.Dominated, BasicBlock.Upper, BasicBlock.Open;
      hide IRBuilder.CodeOf, Compile;
      hide PrefixOutcome, LevelOutcome, LoopOutcome;
      ghost var ts, st := tokens, Now();
      if level == PREFIX {
        LevelPrefix(ts, st);
        ret := ParsePrefixExpr();
        return;
      }
      LevelShrinks(level + 1, ts, st);
      ghost var acc := LoopStart(level, ts, st);
      ret := ParseLevelExpr(level + 1);
      if ret == None {
        return;
      }
      while SignAt(tokens, level)
        invariant Valid() && scopes == st.scopes && |tokens| < |ts|
        invariant ret.Some? && Compile(acc, st.code, st.scopes) == Some(Compiled(Now().code, ret.value))
        invariant LevelOutcome(level, ts, st) == LoopOutcome(level, acc, tokens, st)
        invariant currentBb.Upper() == old(currentBb.Upper())
        decreases |tokens|
      {
        ret, acc := ParseOperand(level, ret.value, acc, st);
        if ret == None {
          return;
        }
      }
      LoopEnd(level, acc, Compiled(Now().code, ret.value), tokens, st);
    }

    /** The method succeeded or not, and left this state and these tokens. */
    ghost predicate Left(ok: bool, o: Stated)
      reads this, builder`registerNr, currentBb`instList
      reads currentBb.Chain()`constantTable, currentBb.Chain()`numericValue
    {
      match o
      case None => !ok
      case Some(q) => ok && Now() == q.0 && tokens == q.1
    }

    /** The value of a declaration or an assignment: a copy if no register was
        allocated for it. */
    method ParseValue() returns (ret: Option<nat>)
      requires Valid()
      modifies this`tokens, builder`registerNr, currentBb`instList
      modifies currentBb.Chain()`constantTable, currentBb.Chain()`numericValue
      ensures Gave(ret, ValueOutcome(old(tokens), old(Now())))
    {
      hide Codes.Mov, BasicBlock.Constants, BasicBlock.Numbers, BasicBlock.Dominated, BasicBlock.Upper;
      hide BasicBlock.Open, LevelOutcome;
      var currentReg := builder.registerNr;
      ret := ParseLevelExpr(0);
      if ret.Some? && builder.registerNr == currentReg {
        var copy := builder.Mov(currentBb, ret.value);
        ret := Some(copy);
      }
    }

    /** One turn of the loop of _parse_let_stmt. */
    method ParseDeclaration() returns (ok: bool)
      requires Valid()
      modifies this`tokens, this`scopes, builder`registerNr, currentBb`instList
      modifies currentBb.Chain()`constantTable, currentBb.Chain()`numericValue
      ensures Valid() && Left(ok, DeclOutcome(old(tokens), old(Now())))
    {
      hide BasicBlock.Constants, BasicBlock.Numbers, BasicBlock.Dominated, BasicBlock.Upper, BasicBlock.Open;
      hide IRBuilder.CodeOf;
      hide ValueOutcome, DeclOutcome, Undef, Define;
      DeclStep(tokens, Now());
      if tokens == [] || !tokens[0].Id? {
        return false;
      }
      var literal := tokens[0].x;
      Next();
      if literal in scopes[0].symbols {
        return false;
      }
      var reg: nat;
      if Starts(tokens, Gets) {
        Next();
        var value := ParseValue();
        if value == None {
          return false;
        }
        reg := value.value;
      } else {
        reg := builder.Undefined(currentBb);
      }
      scopes := Define(scopes, literal, reg);
      ok := true;
    }

    /** _parse_let_stmt, from the token behind `let` */
    method ParseLetStmt() returns (ok: bool)
      requires Valid()
      modifies this`tokens, this`scopes, builder`registerNr, currentBb`instList
      modifies currentBb.Chain()`constantTable, currentBb.Chain()`numericValue
      ensures Valid() && Left(ok, DeclsOutcome(old(tokens), old(Now())))
    {
      hide BasicBlock.Constants, BasicBlock.Numbers, BasicBlock.Dominated, BasicBlock.Upper, BasicBlock.Open;
      hide IRBuilder.CodeOf;
      hide DeclOutcome, DeclsOutcome, MoreDecls;
      ghost var all := DeclsOutcome(tokens, Now());
      DeclsStep(tokens, Now());
      OutcomeSizes(tokens, Now());
      ok := ParseDeclaration();
      while ok && Starts(tokens, Comma)
        invariant Valid() && all == if ok then MoreDecls(tokens, Now()) else None
        decreases ok, |tokens|
      {
        MoreStep(tokens, Now());
        Next();
        OutcomeSizes(tokens, Now());
        ok := ParseDeclaration();
      }
      if ok {
        MoreStep(tokens, Now());
        ok := Starts(tokens, Semi);
        Next();
      }
    }

    /** _parse_expr_stmt */
    method ParseExprStmt() returns (ok: bool)
      requires Valid() && tokens != [] && tokens[0].Id?
      modifies this`tokens, this`scopes, builder`registerNr, currentBb`instList
      modifies currentBb.Chain()`constantTable, currentBb.Chain()`numericValue
      ensures Valid() && Left(ok, StmtOutcome(old(tokens), old(Now())))
    {
      hide BasicBlock.Constants, BasicBlock.Numbers, BasicBlock.Dominated, BasicBlock.Upper, BasicBlock.Open;
      hide IRBuilder.CodeOf;
      hide StmtOutcome, ValueOutcome, Assign, Lookup;
      ExprStmtStep(tokens, Now());
      var literal := tokens[0].x;
      Next();
      if Lookup(scopes, literal) == None {
        return false;
      }
      if Starts(tokens, Semi) {
        Next();
        return true;
      }
      if !Starts(tokens, Gets) {
        return false;
      }
      Next();
      var value := ParseValue();
      if value == None || !Starts(tokens, Semi) {
        return false;
      }
      scopes := Assign(scopes, literal, value.value);
      Next();
      ok := true;
    }

    /** _parse_join_scope and the closing brace of a block. */
    method CloseBlock() returns (ok: bool)
      requires |scopes| >= 2
      modifies this`tokens, this`scopes
      ensures scopes == Join(old(scopes)) && ok == Starts(old(tokens), RightBrace)
      ensures ok ==> tokens == old(tokens)[1..]
    {
      hide Join;
      scopes := JoinScope(scopes);
      ok := Starts(tokens, RightBrace);
      Next();
    }

    /** _parse_block_stmt */
    method ParseBlockStmt() returns (ok: bool)
      requires Valid() && Starts(tokens, LeftBrace)
      modifies this`tokens, this`scopes, builder`registerNr, currentBb`instList
      modifies currentBb.Chain()`constantTable, currentBb.Chain()`numericValue
      ensures Valid() && Left(ok, StmtOutcome(old(tokens), old(Now())))
      decreases |tokens|, 0
    {
      hide BasicBlock.Constants, BasicBlock.Numbers, BasicBlock.Dominated, BasicBlock.Upper, BasicBlock.Open;
      hide IRBuilder.CodeOf;
      hide StmtOutcome, StmtsOutcome, DeclsOutcome, Join, Push;
      StmtStep(tokens, Now());
      Next();
      scopes := Push(scopes);
      OutcomeSizes(tokens, Now());
      ok := ParseStatements();
      if ok {
        ghost var inner := Now();
        ok := CloseBlock();
        assert Now() == CompileState(inner.code, Join(inner.scopes));
      }
    }

    /** _parse_statement */
    method ParseStatement() returns (ok: bool)
      requires Valid()
      modifies this`tokens, this`scopes, builder`registerNr, currentBb`instList
      modifies currentBb.Chain()`constantTable, currentBb.Chain()`numericValue
      ensures Valid() && Left(ok, StmtOutcome(old(tokens), old(Now())))
      decreases |tokens|, 1
    {
      hide BasicBlock.Constants, BasicBlock.Numbers, BasicBlock.Dominated, BasicBlock.Upper, BasicBlock.Open;
      hide IRBuilder.CodeOf;
      hide StmtOutcome, StmtsOutcome, DeclsOutcome, Join;
      StmtStep(tokens, Now());
      if Starts(tokens, LeftBrace) {
        ok := ParseBlockStmt();
      } else if Starts(tokens, KwLet) {
        Next();
        ok := ParseLetStmt();
      } else if tokens != [] && tokens[0].Id? {
        ok := ParseExprStmt();
      } else {
        ok := false;
      }
    }

    /** The loop over the statements of a block. */
    method ParseStatements() returns (ok: bool)
      requires Valid()
      modifies this`tokens, this`scopes, builder`registerNr, currentBb`instList
      modifies currentBb.Chain()`constantTable, currentBb.Chain()`numericValue
      ensures Valid() && Left(ok, StmtsOutcome(old(tokens), old(Now())))
      decreases |tokens|, 2
    {
      hide BasicBlock.Constants, BasicBlock.Numbers, BasicBlock.Dominated, BasicBlock.Upper, BasicBlock.Open;
      hide IRBuilder.CodeOf;
      hide StmtOutcome, StmtsOutcome;
      ghost var ts, st := tokens, Now();
      ok := true;
      StmtsStep(ts, st);
      while ok && tokens != [] && tokens[0] != RightBrace
        invariant Valid()
        invariant StmtsOutcome(ts, st) == if ok then StmtsOutcome(tokens, Now()) else None
        invariant ok ==> |tokens| <= |ts|
        decreases ok, |tokens|
      {
        StmtsStep(tokens, Now());
        OutcomeSizes(tokens, Now());
        ok := ParseStatement();
      }
      if ok {
        StmtsStep(tokens, Now());
      }
    }

    /** parse: the whole program.  It succeeds exactly when the tokens are a
        program that compiles, and leaves the code of that program. */
    method Parse() returns (ok: bool)
      requires Valid()
      modifies this`tokens, this`scopes, builder`registerNr, currentBb`instList
      modifies currentBb.Chain()`constantTable, currentBb.Chain()`numericValue
      ensures Valid()
      ensures match ProgramOutcome(old(tokens), old(Now()))
              case None => !ok
              case Some(last) => ok && Now() == last && tokens == []
    {
      hide BasicBlock.Constants, BasicBlock.Numbers, BasicBlock.Dominated, BasicBlock.Upper, BasicBlock.Open;
      hide IRBuilder.CodeOf, StmtsOutcome;
      ok := ParseStatements();
      ok := ok && tokens == [];
    }
  }

  /** Compiling the text of a program is compiling the program. */
  lemma TextCompiles(program: seq<Stmt>, st: CompileState)
    requires AllWritable(program) && st.scopes != []
    ensures ProgramOutcome(RenderStmts(program), st) == CompileStmts(program, st)
  {
    hide ParseStmts, CompileStmts, RenderStmts, AllWritable;
    ReadStmts(program, []);
    assert RenderStmts(program) + [] == RenderStmts(program);
  }

  lemma LevelShrinks(level: nat, ts: seq<Token>, st: CompileState)
    requires level <= PREFIX
    ensures LevelOutcome(level, ts, st).Some? ==> |LevelOutcome(level, ts, st).value.1| < |ts|
  {
    hide ParseLevel, Compile;
  }
}
