/** The scopes of one function, innermost first: ParseScope of
  src/parse_internal.h and the scope operations of src/parse.c.

  A scope keeps the variables it declares in `symbols`, and in `uppers` the new
  registers of outer variables that were assigned inside it.  An outer variable
  thus has a stale register further out until the scope is joined. */
module Scopes {
  import opened Values

  /** The address of the interned identifier. */
  type Name = Word

  datatype Scope = Scope(symbols: map<Name, nat>, uppers: map<Name, nat>)

  /** _parse_symbol_table_lookup, within one function. */
  function Lookup(scopes: seq<Scope>, x: Name): Option<nat> {
    if scopes == [] then None
    else if x in scopes[0].symbols then Some(scopes[0].symbols[x])
    else if x in scopes[0].uppers then Some(scopes[0].uppers[x])
    else Lookup(scopes[1..], x)
  }

  /** _parse_find_define_scope: the position of the scope that declares x. */
  function FindDefineScope(scopes: seq<Scope>, x: Name): Option<nat> {
    if scopes == [] then None
    else if x in scopes[0].symbols then Some(0)
    else
      match FindDefineScope(scopes[1..], x)
      case None => None
      case Some(i) => Some(i + 1)
  }

  /** _parse_push_scope */
  function Push(scopes: seq<Scope>): (pushed: seq<Scope>)
    ensures |pushed| == |scopes| + 1
  {
    [Scope(map[], map[])] + scopes
  }

  /** _parse_define_into_scope, on the innermost scope. */
  function Define(scopes: seq<Scope>, x: Name, reg: nat): (after: seq<Scope>)
    requires scopes != []
    ensures |after| == |scopes|
  {
    [scopes[0].(symbols := scopes[0].symbols[x := reg])] + scopes[1..]
  }

  /** _parse_insert_into_scope, on the innermost scope. */
  function Insert(scopes: seq<Scope>, x: Name, reg: nat): (after: seq<Scope>)
    requires scopes != []
    ensures |after| == |scopes|
  {
    [scopes[0].(uppers := scopes[0].uppers[x := reg])] + scopes[1..]
  }

  /** The end of an assignment: in place where x is declared, as an outer variable otherwise. */
  function Assign(scopes: seq<Scope>, x: Name, reg: nat): (after: seq<Scope>)
    requires scopes != []
    ensures |after| == |scopes|
  {
    if FindDefineScope(scopes, x) == Some(0) then Define(scopes, x, reg) else Insert(scopes, x, reg)
  }

  function Restrict(m: map<Name, nat>, names: set<Name>): map<Name, nat> {
    map x | x in m && x in names :: m[x]
  }

  /** A scope that takes over the outer variables of the scope inside it. */
  function Merged(scope: Scope, uppers: map<Name, nat>): Scope {
    Scope(scope.symbols + Restrict(uppers, scope.symbols.Keys), scope.uppers + (uppers - scope.symbols.Keys))
  }

  /** What _parse_join_scope leaves. */
  function Join(scopes: seq<Scope>): (joined: seq<Scope>)
    requires |scopes| >= 2
    ensures |joined| == |scopes| - 1
  {
    [Merged(scopes[1], scopes[0].uppers)] + scopes[2..]
  }

  /** _parse_join_scope: one outer variable of the innermost scope after another,
      in whatever order the table yields them. */
  method JoinScope(scopes: seq<Scope>) returns (joined: seq<Scope>)
    requires |scopes| >= 2
    ensures joined == Join(scopes)
  {
    var uppers := scopes[0].uppers;
    joined := scopes[1..];
    var rest := uppers.Keys;
    ghost var done: map<Name, nat> := map[];
    MergeNothing(scopes[1]);
    hide Merged;
    while rest != {}
      invariant rest <= uppers.Keys && done == uppers - rest
      invariant joined == [Merged(scopes[1], done)] + scopes[2..]
      decreases rest
    {
      var x :| x in rest;
      MergeOne(scopes[1], done, x, uppers[x]);
      DefinesHere(joined, x);
      joined := Assign(joined, x, uppers[x]);
      rest := rest - {x};
      done := done[x := uppers[x]];
      assert done == uppers - rest;
    }
    assert done == uppers;
  }

  lemma MergeNothing(scope: Scope)
    ensures Merged(scope, map[]) == scope
  {
  }

  lemma MergeOne(scope: Scope, uppers: map<Name, nat>, x: Name, reg: nat)
    ensures Merged(scope, uppers[x := reg])
         == if x in scope.symbols then Merged(scope, uppers).(symbols := Merged(scope, uppers).symbols[x := reg])
            else Merged(scope, uppers).(uppers := Merged(scope, uppers).uppers[x := reg])
    ensures x in Merged(scope, uppers).symbols <==> x in scope.symbols
  {
    var names := scope.symbols.Keys;
    RestrictOne(uppers, names, x, reg);
    assert (uppers[x := reg]) - names == if x in names then uppers - names else (uppers - names)[x := reg];
    hide Restrict;
  }

  lemma RestrictOne(m: map<Name, nat>, names: set<Name>, x: Name, reg: nat)
    ensures Restrict(m[x := reg], names) == if x in names then Restrict(m, names)[x := reg] else Restrict(m, names)
    ensures Restrict(m, names).Keys <= names
  {
  }

  // ----- lexical scoping -----

  /** A stack of environments, innermost first: one map for each block. */
  type Env<V> = seq<map<Name, V>>

  function Find<V>(env: Env<V>, x: Name): Option<V> {
    if env == [] then None
    else if x in env[0] then Some(env[0][x])
    else Find(env[1..], x)
  }

  /** Assign to the innermost declaration of x. */
  function Update<V>(env: Env<V>, x: Name, v: V): (env': Env<V>)
    ensures |env'| == |env|
  {
    if env == [] then []
    else if x in env[0] then [env[0][x := v]] + env[1..]
    else [env[0]] + Update(env[1..], x, v)
  }

  function Declare<V>(env: Env<V>, x: Name, v: V): Env<V>
    requires env != []
  {
    [env[0][x := v]] + env[1..]
  }

  /** The environments that the scopes stand for: what the innermost scope
      declares, and what is left once it has been joined. */
  function Layers(scopes: seq<Scope>): (env: Env<nat>)
    ensures |env| == |scopes|
    decreases |scopes|
  {
    if scopes == [] then []
    else [scopes[0].symbols] + (if |scopes| == 1 then [] else Layers(Join(scopes)))
  }

  predicate Declared(scopes: seq<Scope>, x: Name) {
    scopes != [] && (x in scopes[0].symbols || Declared(scopes[1..], x))
  }

  /** Every outer variable is declared further out. */
  ghost predicate ScopesOk(scopes: seq<Scope>) {
    scopes != [] ==>
      && (forall x :: x in scopes[0].uppers ==> Declared(scopes[1..], x))
      && ScopesOk(scopes[1..])
  }

  lemma JoinTail(scopes: seq<Scope>)
    requires |scopes| >= 2
    ensures Join(scopes)[0] == Merged(scopes[1], scopes[0].uppers)
    ensures Join(scopes)[1..] == scopes[1..][1..]
  {
  }

  lemma JoinDeclared(scopes: seq<Scope>, x: Name)
    requires |scopes| >= 2
    ensures Declared(Join(scopes), x) <==> Declared(scopes[1..], x)
  {
    hide Join;
    JoinTail(scopes);
  }

  lemma JoinOk(scopes: seq<Scope>)
    requires |scopes| >= 2 && ScopesOk(scopes)
    ensures ScopesOk(Join(scopes))
  {
    JoinTail(scopes);
    hide Join;
    assert ScopesOk(scopes[1..]);
  }

  lemma JoinLookup(scopes: seq<Scope>, x: Name)
    requires |scopes| >= 2 && x !in scopes[0].symbols
    ensures Lookup(Join(scopes), x) == Lookup(scopes, x)
  {
    JoinTail(scopes);
    hide Join;
  }

  /** Looking a name up finds the register of its current value. */
  lemma {:induction false} LookupIsFind(scopes: seq<Scope>, x: Name)
    requires ScopesOk(scopes)
    ensures Lookup(scopes, x) == Find(Layers(scopes), x)
    ensures Lookup(scopes, x).Some? <==> Declared(scopes, x)
    decreases |scopes|
  {
    if scopes != [] && x !in scopes[0].symbols {
      if |scopes| == 1 {
        assert scopes[1..] == [];
      } else {
        JoinOk(scopes);
        JoinLookup(scopes, x);
        JoinDeclared(scopes, x);
        LookupIsFind(Join(scopes), x);
        assert Layers(scopes)[1..] == Layers(Join(scopes));
      }
    }
  }

  /** Leaving a block drops its environment and keeps what was assigned in it. */
  lemma JoinIsPop(scopes: seq<Scope>)
    requires |scopes| >= 2
    ensures Layers(Join(scopes)) == Layers(scopes)[1..]
  {
  }

  /** Entering a block starts an empty environment. */
  lemma PushIsPush(scopes: seq<Scope>)
    requires scopes != []
    ensures Layers(Push(scopes)) == [map[]] + Layers(scopes)
    ensures ScopesOk(scopes) ==> ScopesOk(Push(scopes))
  {
    MergeNothing(scopes[0]);
    assert Join(Push(scopes)) == scopes;
    assert Push(scopes)[1..] == scopes;
  }

  lemma DefineIsDeclare(scopes: seq<Scope>, x: Name, reg: nat)
    requires scopes != []
    ensures Layers(Define(scopes, x, reg)) == Declare(Layers(scopes), x, reg)
    ensures ScopesOk(scopes) ==> ScopesOk(Define(scopes, x, reg))
  {
    hide Merged;
    assert Define(scopes, x, reg)[1..] == scopes[1..];
    if |scopes| >= 2 {
      assert Join(Define(scopes, x, reg)) == Join(scopes);
    }
  }

  lemma DefinesHere(scopes: seq<Scope>, x: Name)
    requires scopes != []
    ensures FindDefineScope(scopes, x) == Some(0) <==> x in scopes[0].symbols
  {
  }

  lemma JoinInsert(scopes: seq<Scope>, x: Name, reg: nat)
    requires |scopes| >= 2 && x !in scopes[0].symbols
    ensures Join(Insert(scopes, x, reg)) == Assign(Join(scopes), x, reg)
  {
    DefinesHere(Join(scopes), x);
    MergeOne(scopes[1], scopes[0].uppers, x, reg);
    hide FindDefineScope, Merged;
  }

  /** An assignment updates the innermost declaration, also when that is several
      blocks further out, and also before a shadowing declaration. */
  lemma {:induction false} AssignIsUpdate(scopes: seq<Scope>, x: Name, reg: nat)
    requires ScopesOk(scopes) && Declared(scopes, x)
    ensures Layers(Assign(scopes, x, reg)) == Update(Layers(scopes), x, reg)
    decreases |scopes|
  {
    DefinesHere(scopes, x);
    if x in scopes[0].symbols {
      DefineIsDeclare(scopes, x, reg);
    } else {
      DeclaredDeeper(scopes, x);
      JoinOk(scopes);
      JoinDeclared(scopes, x);
      AssignIsUpdate(Join(scopes), x, reg);
      JoinInsert(scopes, x, reg);
      assert Layers(scopes)[1..] == Layers(Join(scopes));
    }
  }

  lemma DeclaredDeeper(scopes: seq<Scope>, x: Name)
    requires Declared(scopes, x) && x !in scopes[0].symbols
    ensures |scopes| >= 2 && Declared(scopes[1..], x)
  {
  }

  lemma AssignOk(scopes: seq<Scope>, x: Name, reg: nat)
    requires ScopesOk(scopes) && Declared(scopes, x)
    ensures ScopesOk(Assign(scopes, x, reg))
  {
    DefinesHere(scopes, x);
    assert Insert(scopes, x, reg)[1..] == scopes[1..];
    assert Define(scopes, x, reg)[1..] == scopes[1..];
  }

  // ----- whole runs -----

  datatype Event = Enter | Leave | Declaring(x: Name, reg: nat) | Assigning(x: Name, reg: nat)

  /** What the parser does; None is one of its errors. */
  function StepScopes(scopes: seq<Scope>, event: Event): (r: Option<seq<Scope>>)
    requires scopes != []
    ensures r.Some? ==> r.value != []
  {
    match event
    case Enter => Some(Push(scopes))
    case Leave => if |scopes| >= 2 then Some(Join(scopes)) else None
    case Declaring(x, reg) => if x in scopes[0].symbols then None else Some(Define(scopes, x, reg))
    case Assigning(x, reg) => if Lookup(scopes, x).None? then None else Some(Assign(scopes, x, reg))
  }

  /** What lexical scoping says. */
  function StepEnv(env: Env<nat>, event: Event): (r: Option<Env<nat>>)
    requires env != []
    ensures r.Some? ==> r.value != []
  {
    match event
    case Enter => Some([map[]] + env)
    case Leave => if |env| >= 2 then Some(env[1..]) else None
    case Declaring(x, reg) => if x in env[0] then None else Some(Declare(env, x, reg))
    case Assigning(x, reg) => if Find(env, x).None? then None else Some(Update(env, x, reg))
  }

  function RunScopes(scopes: seq<Scope>, events: seq<Event>): (r: Option<seq<Scope>>)
    requires scopes != []
    ensures r.Some? ==> r.value != []
    decreases |events|
  {
    if events == [] then Some(scopes)
    else
      match StepScopes(scopes, events[0])
      case None => None
      case Some(next) => RunScopes(next, events[1..])
  }

  function RunEnv(env: Env<nat>, events: seq<Event>): Option<Env<nat>>
    requires env != []
    decreases |events|
  {
    if events == [] then Some(env)
    else
      match StepEnv(env, events[0])
      case None => None
      case Some(next) => RunEnv(next, events[1..])
  }

  lemma StepRefines(scopes: seq<Scope>, event: Event)
    requires scopes != [] && ScopesOk(scopes)
    ensures match StepScopes(scopes, event)
            case None => StepEnv(Layers(scopes), event) == None
            case Some(next) => StepEnv(Layers(scopes), event) == Some(Layers(next)) && ScopesOk(next)
  {
    hide Join, Push, Define, Insert, Assign, Update, Declare, Lookup, Find, Declared;
    assert Layers(scopes)[0] == scopes[0].symbols;
    match event
    case Enter => PushIsPush(scopes);
    case Leave =>
      if |scopes| >= 2 {
        JoinOk(scopes);
        JoinIsPop(scopes);
      }
    case Declaring(x, reg) => DefineIsDeclare(scopes, x, reg);
    case Assigning(x, reg) =>
      LookupIsFind(scopes, x);
      if Lookup(scopes, x).Some? {
        AssignIsUpdate(scopes, x, reg);
        AssignOk(scopes, x, reg);
      }
  }

  /** Two tables a scope refine lexical scoping: over any sequence of entering
      and leaving blocks, declarations and assignments, the parser reports an
      error exactly when the plain stack does, and afterwards every lookup gives
      the register of the current value. */
  lemma {:induction false} ScopingRefines(scopes: seq<Scope>, events: seq<Event>, x: Name)
    requires scopes != [] && ScopesOk(scopes)
    ensures match RunScopes(scopes, events)
            case None => RunEnv(Layers(scopes), events) == None
            case Some(last) =>
              && RunEnv(Layers(scopes), events) == Some(Layers(last))
              && Lookup(last, x) == Find(Layers(last), x)
    decreases |events|
  {
    hide StepScopes, StepEnv, Lookup, Find, Layers, ScopesOk;
    StepsExist(scopes);
    if events == [] {
      LookupIsFind(scopes, x);
    } else {
      StepRefines(scopes, events[0]);
      var next := StepScopes(scopes, events[0]);
      if next.Some? {
        ScopingRefines(next.value, events[1..], x);
      }
    }
  }

  lemma StepsExist(scopes: seq<Scope>)
    requires scopes != []
    ensures Layers(scopes) != []
  {
  }
}
