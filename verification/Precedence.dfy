/** Which operator takes which operand: precedence and grouping, told by the
  operators alone. */
module Precedence {
  import opened Values
  import opened Scopes
  import opened Programs
  import opened Grammar

  /** `q` takes the operand between them away from an operator `p` on its left. */
  predicate Tighter(q: Operator, p: Operator) {
    || (q in {Times, Operator.Over, Rem} && p !in {Times, Operator.Over, Rem})
    || (q in {Plus, Minus} && p !in {Times, Operator.Over, Rem, Plus, Minus})
  }

  lemma TighterIsHigher(q: Operator, p: Operator)
    ensures Tighter(q, p) <==> Level(q) > Level(p)
  {
  }

  // ----- parentheses -----

  /** The operand in parentheses. */
  function Enclosed(ts: seq<Token>): seq<Token> {
    [Open] + ts + [Close]
  }

  /** An expression with parentheses around a left operand whose operator binds
      less tightly, and around a right operand whose operator does not bind more
      tightly. */
  function Spell(e: Expr): seq<Token>
    decreases e, 0
  {
    match e
    case Num(n) => [Number(n)]
    case Var(x) => [Id(x)]
    case Not(e) => [Bang] + SpellOperand(e)
    case Neg(e) => [Sign(Minus)] + SpellOperand(e)
    case Bin(op, l, r) =>
      (if l.Bin? && Tighter(op, l.op) then Enclosed(Spell(l)) else Spell(l))
      + [Sign(op)]
      + (if r.Bin? && !Tighter(r.op, op) then Enclosed(Spell(r)) else Spell(r))
  }

  /** An operand of a prefix operator, or one in a row of binary operators. */
  function SpellOperand(e: Expr): seq<Token>
    decreases e, 1
  {
    if e.Bin? then Enclosed(Spell(e)) else Spell(e)
  }

  /** Render, one operand deep. */
  lemma RenderShape(level: nat, e: Expr)
    requires level <= PREFIX
    ensures e.Bin? && Level(e.op) < level ==> Render(level, e) == Enclosed(Render(0, e))
    ensures !(e.Bin? && Level(e.op) < level) ==> Render(level, e) == Render(0, e)
  {
  }

  lemma {:induction false} SpellIsRender(e: Expr)
    ensures Spell(e) == Render(0, e) && SpellOperand(e) == Render(PREFIX, e)
  {
    match e
    case Num(_) =>
    case Var(_) =>
    case Not(e1) => SpellIsRender(e1);
    case Neg(e1) => SpellIsRender(e1);
    case Bin(op, l, r) =>
      SpellIsRender(l);
      SpellIsRender(r);
      RenderSides(op, l, r);
      RenderShape(Level(op), e);
      RenderShape(Level(op), l);
      RenderShape(Level(op) + 1, r);
      RenderShape(PREFIX, e);
      TighterIsHigher(op, if l.Bin? then l.op else op);
      TighterIsHigher(if r.Bin? then r.op else op, op);
  }

  /** Nothing here belongs to an expression in front of it. */
  predicate Stops(rest: seq<Token>) {
    rest != [] ==> !rest[0].Sign? && rest[0] != Open && rest[0] != Otherwise
  }

  /** An expression with the parentheses that precedence asks for, and no others,
      is read back, whatever is in it. */
  lemma {:induction false} ReadSpelled(e: Expr, rest: seq<Token>)
    requires Stops(rest)
    ensures ParseLevel(0, Spell(e) + rest) == Some((e, rest))
  {
    hide ParseLevel, Spell, Render;
    SpellIsRender(e);
    ReadOperand(0, e, rest);
  }

  // ----- rows of operators -----

  /** A level that the tokens do not go on with leaves what the level above read. */
  lemma {:induction false} Descend(level: nat, from: nat, ts: seq<Token>, e: Expr, rest: seq<Token>)
    requires level <= from <= PREFIX && Ends(level, rest)
    requires ParseLevel(from, ts) == Some((e, rest))
    ensures ParseLevel(level, ts) == Some((e, rest))
    decreases from - level
  {
    hide ParseLevel, Continue, Level;
    if level < from {
      OneDown(from - 1, ts, e, rest);
      Descend(level, from - 1, ts, e, rest);
    }
  }

  lemma OneDown(level: nat, ts: seq<Token>, e: Expr, rest: seq<Token>)
    requires level < PREFIX && ParseLevel(level + 1, ts) == Some((e, rest))
    ensures ParseLevel(level, ts) == Continue(level, e, rest)
    ensures Ends(level, rest) ==> ParseLevel(level, ts) == Some((e, rest))
  {
    hide Continue, Level;
    if Ends(level, rest) {
      ContinueEnds(level, e, rest);
    }
  }

  lemma EndsHigher(level: nat, level': nat, ts: seq<Token>)
    requires Ends(level, ts) && level <= level'
    ensures Ends(level', ts)
  {
  }

  /** Reading an operand of a row. */
  lemma ReadRowOperand(level: nat, e: Expr, rest: seq<Token>)
    requires level <= PREFIX && Ends(level, rest)
    ensures ParseLevel(level, SpellOperand(e) + rest) == Some((e, rest))
  {
    hide ParseLevel, Spell, SpellOperand, Render, Ends;
    SpellIsRender(e);
    EndsHigher(level, PREFIX, rest);
    ReadOperand(PREFIX, e, rest);
    Descend(level, PREFIX, SpellOperand(e) + rest, e, rest);
  }

  /** The tokens of an operator and its right operand. */
  function Then(op: Operator, e: Expr, rest: seq<Token>): seq<Token> {
    [Sign(op)] + (SpellOperand(e) + rest)
  }

  /** With a left operand read, the loop of the operator's level takes the right one. */
  lemma TakeRight(l: Expr, op: Operator, r: Expr, rest: seq<Token>)
    requires Ends(Level(op) + 1, rest)
    ensures Continue(Level(op), l, Then(op, r, rest)) == Continue(Level(op), Bin(op, l, r), rest)
  {
    hide ParseLevel, Continue, Level, SpellOperand, Ends;
    ReadRowOperand(Level(op) + 1, r, rest);
    var after := Then(op, r, rest);
    assert after[1..] == SpellOperand(r) + rest;
    ContinueOnce(Level(op), l, op, r, after, rest);
  }

  lemma ThenEnds(op: Operator, e: Expr, rest: seq<Token>)
    ensures Ends(Level(op) + 1, Then(op, e, rest))
  {
  }

  /** The tokens of `a p b`. */
  lemma ReadPair(a: Expr, p: Operator, b: Expr, rest: seq<Token>)
    requires Ends(Level(p) + 1, rest)
    ensures ParseLevel(Level(p), SpellOperand(a) + Then(p, b, rest)) == Continue(Level(p), Bin(p, a, b), rest)
  {
    hide ParseLevel, Continue, Level, SpellOperand, Ends, Then;
    var after := Then(p, b, rest);
    ThenEnds(p, b, rest);
    ReadRowOperand(Level(p) + 1, a, after);
    OneDown(Level(p), SpellOperand(a) + after, a, after);
    TakeRight(a, p, b, rest);
  }

  /** Of two operators in a row, the tighter one takes the operand between them, and
      of two that bind alike the left one. */
  lemma ReadRow(a: Expr, p: Operator, b: Expr, q: Operator, c: Expr, rest: seq<Token>)
    requires Stops(rest)
    ensures ParseLevel(0, SpellOperand(a) + ([Sign(p)] + (SpellOperand(b) + ([Sign(q)] + (SpellOperand(c) + rest)))))
         == Some((if Tighter(q, p) then Bin(p, a, Bin(q, b, c)) else Bin(q, Bin(p, a, b), c), rest))
  {
    hide ParseLevel, Continue, Level, SpellOperand;
    TighterIsHigher(q, p);
    var mid := Then(q, c, rest);
    var after := Then(p, b, mid);
    var ts := SpellOperand(a) + after;
    ThenEnds(q, c, rest);
    ThenEnds(p, b, mid);
    if Tighter(q, p) {
      var right := SpellOperand(b) + mid;
      ReadPair(b, q, c, rest);
      ContinueEnds(Level(q), Bin(q, b, c), rest);
      Descend(Level(p) + 1, Level(q), right, Bin(q, b, c), rest);
      ReadRowOperand(Level(p) + 1, a, after);
      OneDown(Level(p), ts, a, after);
      assert after[1..] == right;
      ContinueOnce(Level(p), a, p, Bin(q, b, c), after, rest);
      ContinueEnds(Level(p), Bin(p, a, Bin(q, b, c)), rest);
      Descend(0, Level(p), ts, Bin(p, a, Bin(q, b, c)), rest);
    } else {
      EndsHigher(Level(q) + 1, Level(p) + 1, mid);
      ReadPair(a, p, b, mid);
      if Level(q) < Level(p) {
        ContinueEnds(Level(p), Bin(p, a, b), mid);
        Descend(Level(q) + 1, Level(p), ts, Bin(p, a, b), mid);
        OneDown(Level(q), ts, Bin(p, a, b), mid);
      }
      TakeRight(Bin(p, a, b), q, c, rest);
      ContinueEnds(Level(q), Bin(q, Bin(p, a, b), c), rest);
      Descend(0, Level(q), ts, Bin(q, Bin(p, a, b), c), rest);
    }
  }
}
