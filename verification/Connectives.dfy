/** `&&` and `||` told by their tokens: what a chain is read as, where it stops, and
  what its code leaves. */
module Connectives {
  import opened Values
  import opened Insts
  import opened Layout
  import opened Arithmetic
  import opened Scopes
  import opened Codes
  import opened Programs
  import opened Grammar
  import opened Precedence
  import opened Parsers
  import opened Expressions
  import opened Compilation
  import opened Machines
  import opened ShortCircuit
  import opened Logic
  import opened Lowering

  /** Operands with a connective between them. */
  function Spelled(connective: Token, es: seq<Expr>): seq<Token>
    requires es != []
  {
    if |es| == 1 then Spell(es[0]) else Spell(es[0]) + [connective] + Spelled(connective, es[1..])
  }

  lemma {:induction false} SpelledIsRendered(isAnd: bool, es: seq<Expr>)
    requires es != []
    ensures Spelled(if isAnd then AndAnd else OrOr, es) == RenderOperands(isAnd, es)
    decreases |es|
  {
    hide Spell, Render;
    SpellIsRender(es[0]);
    if |es| > 1 {
      SpelledIsRendered(isAnd, es[1..]);
    }
  }

  /** The parser of `&&` takes all operands with `&&` between them, and stops in
      front of anything else, `||` included. */
  lemma ReadConjunction(es: seq<Expr>, rest: seq<Token>)
    requires es != [] && Stops(rest) && !Starts(rest, AndAnd)
    ensures ParseOperands(true, Spelled(AndAnd, es) + rest) == Some((es, rest))
  {
    hide ParseOperands, Spelled, RenderOperands;
    SpelledIsRendered(true, es);
    ReadOperands(true, es, rest);
  }

  lemma ReadDisjunction(es: seq<Expr>, rest: seq<Token>)
    requires es != [] && Stops(rest) && !Starts(rest, AndAnd) && !Starts(rest, OrOr)
    ensures ParseOperands(false, Spelled(OrOr, es) + rest) == Some((es, rest))
  {
    hide ParseOperands, Spelled, RenderOperands;
    SpelledIsRendered(false, es);
    ReadOperands(false, es, rest);
  }

  // ----- values -----

  /** The number 0, null and undefined. */
  predicate CountsAsFalse(v: Val) {
    v == Val.Number(0) || v == Other(NULL) || (v.Other? && v.w % 4 == 3)
  }

  /** `&&` goes on behind a value that counts as true, `||` behind one that counts as false. */
  predicate GoesOn(connective: Token, v: Option<Val>) {
    v.Some? && (connective == AndAnd ==> !CountsAsFalse(v.value)) && (connective == OrOr ==> CountsAsFalse(v.value))
  }

  /** The k-th operand is the last that is evaluated. */
  predicate EndsAt(connective: Token, es: seq<Expr>, env: Env<Val>, k: nat) {
    && k < |es|
    && (forall i :: 0 <= i < k ==> GoesOn(connective, Eval(es[i], env)))
    && (k + 1 == |es| || !GoesOn(connective, Eval(es[k], env)))
  }

  lemma FalseIs(v: Val)
    ensures IsFalseVal(v) == CountsAsFalse(v)
  {
  }

  lemma {:induction false} ValueIs(isAnd: bool, es: seq<Expr>, env: Env<Val>, k: nat)
    requires EndsAt(if isAnd then AndAnd else OrOr, es, env, k)
    ensures LogicEval(isAnd, es, env) == Eval(es[k], env)
    decreases |es|
  {
    hide Eval, IsFalseVal, CountsAsFalse;
    var v := Eval(es[0], env);
    if v.Some? {
      FalseIs(v.value);
      if k > 0 {
        assert GoesOn(if isAnd then AndAnd else OrOr, Eval(es[0], env));
        forall i | 0 <= i < k - 1 ensures GoesOn(if isAnd then AndAnd else OrOr, Eval(es[1..][i], env)) {
          assert es[1..][i] == es[i + 1];
        }
        ValueIs(isAnd, es[1..], env, k - 1);
      }
    }
  }

  /** The code of a written chain: in any function with the blocks that reading it
      leaves, it traps if the last operand evaluated has no value, and otherwise
      gets to the end block with that operand's value in the chain's register. */
  lemma TextInCode(connective: Token, es: seq<Expr>, rest: seq<Token>, st: CompileState, env: Env<Val>, init: RegFile,
        regs: Regs, last: nat, g: Graph, code: seq<Inst>, current: nat, n: nat)
    returns (steps: nat)
    requires |es| >= 2 && (connective == AndAnd || connective == OrOr)
    requires Stops(rest) && !Starts(rest, AndAnd) && !(connective == OrOr && Starts(rest, OrOr))
    requires Sound(st.code, st.scopes, env, init, regs) && Straight(st.code.insts)
    requires EndsAt(connective, es, env, last)
    requires var o := LogicOutcome(connective == AndAnd, Spelled(connective, es) + rest, st);
             o.Some? && (o.value.0.Joined? ==>
               var chain := o.value.0.chain;
               && HasRoom(chain.atEnd.registerNr, init) && WellLinked(g) && HasCode(g, code)
               && HasChain(g, connective == AndAnd, chain.temp, chain.ops, current, n))
    ensures current < |g| && n < |g|
    ensures var o := LogicOutcome(connective == AndAnd, Spelled(connective, es) + rest, st).value;
            && o.1 == rest && o.0.Joined?
            && var end := FlatRun(CVM, code, At(Entry(g, current), init), steps);
               match Eval(es[last], env)
               case None => end == Done(Trapped)
               case Some(v) =>
                 && end.At? && end.pc == Entry(g, n)
                 && o.0.chain.temp < |end.s| && Decode(end.s[o.0.chain.temp]) == v
  {
    hide ParseOperands, Spelled, Sound, Straight, CompileLogic, WellLinked, HasCode, HasChain, LogicEval, Decode;
    hide FlatRun, Entry, EndsAt, Eval, Starts, Stops;
    var isAnd := connective == AndAnd;
    ReadChain(connective, es, rest);
    ValueIs(isAnd, es, env, last);
    steps := LogicInCode(g, code, isAnd, es, st.code, st.scopes, env, init, regs, current, n);
  }

  lemma ReadChain(connective: Token, es: seq<Expr>, rest: seq<Token>)
    requires es != [] && (connective == AndAnd || connective == OrOr)
    requires Stops(rest) && !Starts(rest, AndAnd) && !(connective == OrOr && Starts(rest, OrOr))
    ensures ParseOperands(connective == AndAnd, Spelled(connective, es) + rest) == Some((es, rest))
  {
    hide ParseOperands, Spelled, Starts, Stops;
    if connective == AndAnd {
      ReadConjunction(es, rest);
    } else {
      ReadDisjunction(es, rest);
    }
  }

  /** `a && b` and `a || b`. */
  lemma PairMeans(a: Expr, b: Expr, env: Env<Val>)
    requires Eval(a, env).Some?
    ensures LogicEval(true, [a, b], env) == if CountsAsFalse(Eval(a, env).value) then Eval(a, env) else Eval(b, env)
    ensures LogicEval(false, [a, b], env) == if CountsAsFalse(Eval(a, env).value) then Eval(b, env) else Eval(a, env)
  {
    hide Eval, CountsAsFalse, LogicEval;
    var first := CountsAsFalse(Eval(a, env).value);
    ValueIs(true, [a, b], env, if first then 0 else 1);
    ValueIs(false, [a, b], env, if first then 1 else 0);
  }
}
