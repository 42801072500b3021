/** What the statements of the language do, told without the functions that define it:
  which declaration a name means, and what is left of a block. */
module Language {
  import opened Values
  import opened Arithmetic
  import opened Scopes
  import opened Programs

  /** The i-th block outwards is the innermost that declares x. */
  predicate InnermostAt<V>(env: Env<V>, x: Name, i: nat) {
    i < |env| && x in env[i] && forall j :: 0 <= j < i ==> x !in env[j]
  }

  predicate Undeclared<V>(env: Env<V>, x: Name) {
    forall j :: 0 <= j < |env| ==> x !in env[j]
  }

  /** The i-th block with a new value for x. */
  function With<V>(env: Env<V>, i: nat, x: Name, v: V): Env<V>
    requires i < |env|
  {
    var block: map<Name, V> := env[i][x := v];
    env[i := block]
  }

  /** A name means its innermost declaration, and an assignment changes that one. */
  lemma {:induction false} NameMeans<V>(env: Env<V>, x: Name, v: V)
    ensures Undeclared(env, x) ==> Find(env, x) == None
    ensures forall i: nat :: InnermostAt(env, x, i) ==>
              Find(env, x) == Some(env[i][x]) && Update(env, x, v) == With(env, i, x, v)
    decreases |env|
  {
    if env != [] && x !in env[0] {
      NameMeans(env[1..], x, v);
      forall i: nat | InnermostAt(env, x, i)
        ensures Find(env, x) == Some(env[i][x]) && Update(env, x, v) == With(env, i, x, v)
      {
        assert forall j :: 0 <= j < i - 1 ==> env[1..][j] == env[j + 1];
        assert InnermostAt(env[1..], x, i - 1);
        assert [env[0]] + With(env[1..], i - 1, x, v) == With(env, i, x, v);
      }
    }
  }

  lemma {:induction false} Somewhere<V>(env: Env<V>, x: Name) returns (i: nat)
    requires Find(env, x).Some?
    ensures InnermostAt(env, x, i)
    decreases |env|
  {
    i := 0;
    if x !in env[0] {
      var j := Somewhere(env[1..], x);
      i := j + 1;
    }
  }

  /** An assignment needs a declared variable and a value. */
  lemma AssignmentMeans(x: Name, e: Expr, env: Env<Val>)
    requires env != []
    ensures Undeclared(env, x) || Eval(e, env) == None ==> ExecStmt(Set(x, e), env) == None
    ensures forall i: nat, v :: InnermostAt(env, x, i) && Eval(e, env) == Some(v) ==>
              ExecStmt(Set(x, e), env) == Some(With(env, i, x, v))
  {
    hide Eval, Find, Update;
    forall i: nat, v | InnermostAt(env, x, i) && Eval(e, env) == Some(v)
      ensures ExecStmt(Set(x, e), env) == Some(With(env, i, x, v))
    {
      NameMeans(env, x, v);
    }
    NameMeans(env, x, Other(UNDEFINED));
  }

  /** A declaration adds to the innermost block, once; without a value it is undefined. */
  lemma DeclarationMeans(x: Name, init: Option<Expr>, more: seq<Decl>, env: Env<Val>)
    requires env != []
    ensures var d := [Decl(x, init)] + more;
            var v := if init.Some? then Eval(init.value, env) else Some(Other(3));
            ExecStmt(Let(d), env) ==
            if x in env[0] || v == None then None
            else if more == [] then Some(With(env, 0, x, v.value))
            else ExecStmt(Let(more), With(env, 0, x, v.value))
  {
    hide Eval;
    var d := [Decl(x, init)] + more;
    assert d[1..] == more;
    var v := if init.Some? then Eval(init.value, env) else Some(Other(3));
    assert ExecDecls([], env) == Some(env);
    if v.Some? && x !in env[0] {
      assert Declare(env, x, v.value) == With(env, 0, x, v.value);
      assert ExecDecl(Decl(x, init), env) == Some(With(env, 0, x, v.value));
      assert ExecDecls(d, env) == ExecDecls(more, With(env, 0, x, v.value));
    }
  }

  /** The same variables in every block. */
  predicate SameNames<V>(env: Env<V>, env': Env<V>) {
    |env'| == |env| && forall i :: 0 <= i < |env| ==> env'[i].Keys == env[i].Keys
  }

  /** Variables are only added, and only to the innermost block. */
  predicate AddsInside<V>(env: Env<V>, env': Env<V>) {
    && |env'| == |env|
    && forall i :: 0 <= i < |env| ==>
         if i == 0 then env[i].Keys <= env'[i].Keys else env'[i].Keys == env[i].Keys
  }

  lemma SetAdds(x: Name, e: Expr, env: Env<Val>)
    requires env != [] && ExecSet(x, e, env).Some?
    ensures SameNames(env, ExecSet(x, e, env).value)
  {
    hide Eval, Find, Update;
    var i := Somewhere(env, x);
    NameMeans(env, x, Eval(e, env).value);
  }

  lemma {:induction false} DeclsAdd(ds: seq<Decl>, env: Env<Val>)
    requires env != [] && ExecDecls(ds, env).Some?
    ensures AddsInside(env, ExecDecls(ds, env).value)
    decreases ds
  {
    hide Eval;
    if ds != [] {
      DeclsAdd(ds[1..], ExecDecl(ds[0], env).value);
    }
  }

  /** A block leaves no variable behind and takes none away, and neither does an assignment. */
  lemma {:induction false} StmtAdds(s: Stmt, env: Env<Val>)
    requires env != [] && ExecStmt(s, env).Some?
    ensures AddsInside(env, ExecStmt(s, env).value)
    ensures !s.Let? ==> SameNames(env, ExecStmt(s, env).value)
    decreases s
  {
    hide Eval, ExecDecls, ExecSet;
    match s
    case Let(decls) => DeclsAdd(decls, env);
    case Set(x, e) => SetAdds(x, e, env);
    case Touch(_) =>
    case Block(body) =>
      var inner := [map[]] + env;
      StmtsAdd(body, inner);
      var last := ExecStmts(body, inner).value;
      forall i | 0 <= i < |env| ensures last[1..][i].Keys == env[i].Keys {
        assert last[i + 1].Keys == inner[i + 1].Keys;
      }
  }

  lemma {:induction false} StmtsAdd(ss: seq<Stmt>, env: Env<Val>)
    requires env != [] && ExecStmts(ss, env).Some?
    ensures AddsInside(env, ExecStmts(ss, env).value)
    decreases ss
  {
    hide ExecStmt;
    if ss != [] {
      StmtAdds(ss[0], env);
      StmtsAdd(ss[1..], ExecStmt(ss[0], env).value);
    }
  }

  /** Statements are run one after another, and an error ends the program. */
  lemma {:induction false} OneAfterAnother(ss: seq<Stmt>, more: seq<Stmt>, env: Env<Val>)
    requires env != []
    ensures ExecStmts(ss + more, env) ==
            match ExecStmts(ss, env)
            case None => None
            case Some(mid) => ExecStmts(more, mid)
    decreases |ss|
  {
    hide ExecStmt;
    if ss == [] {
      assert ss + more == more;
    } else {
      assert (ss + more)[0] == ss[0] && (ss + more)[1..] == ss[1..] + more;
      if ExecStmt(ss[0], env).Some? {
        OneAfterAnother(ss[1..], more, ExecStmt(ss[0], env).value);
      }
    }
  }
}
