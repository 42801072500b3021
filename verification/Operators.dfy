/** The operators in plain numbers: what every operator of the language, and every
  instruction it is compiled to, gives. */
module Operators {
  import opened Values
  import opened Arithmetic
  import opened Scopes
  import opened Programs

  // ----- words -----

  /** Sums, differences and products of number words, before they are tagged. */
  lemma SumsGive(x: Word, y: Word)
    requires IsInt(x) && IsInt(y)
    ensures ExecOp(Add, x, y) == Some(FromInt(ToInt(x) + ToInt(y)))
    ensures ExecOp(Sub, x, y) == Some(FromInt(ToInt(x) - ToInt(y)))
    ensures ExecOp(Mul, x, y) == Some(FromInt(ToInt(x) * ToInt(y)))
  {
    hide FromInt, ToInt, C32, IsInt;
    TagForgetsHighBits(ToInt(x) + ToInt(y));
    TagForgetsHighBits(ToInt(x) - ToInt(y));
    TagForgetsHighBits(ToInt(x) * ToInt(y));
  }

  /** Comparisons give 1 or 0; equality compares words of any kind. */
  lemma ComparisonsGive(x: Word, y: Word)
    ensures IsInt(x) && IsInt(y) ==> ExecOp(Lt, x, y) == Some(FromInt(if ToInt(x) < ToInt(y) then 1 else 0))
    ensures IsInt(x) && IsInt(y) ==> ExecOp(Le, x, y) == Some(FromInt(if ToInt(x) <= ToInt(y) then 1 else 0))
    ensures ExecOp(Eq, x, y) == Some(FromInt(if x == y then 1 else 0))
    ensures ExecNot(x) == if IsInt(x) then Some(FromInt(if ToInt(x) == 0 then 1 else 0)) else None
  {
    hide FromInt, ToInt, C32, IsInt;
    TagForgetsHighBits(1);
    TagForgetsHighBits(0);
  }

  /** The one quotient and remainder of C: towards zero, with the sign of the dividend. */
  predicate Divides(a: int, b: int, q: int, r: int) {
    && a == q * b + r
    && (if b > 0 then -b < r < b else b < r < -b)
    && (a >= 0 ==> r >= 0) && (a <= 0 ==> r <= 0)
  }

  lemma {:induction false} AtLeast(k: int, b: int)
    requires k > 0 && b > 0
    ensures k * b >= b
    decreases k
  {
    if k > 1 {
      AtLeast(k - 1, b);
      assert k * b == (k - 1) * b + b;
    }
  }

  /** No multiple of `b` but 0 is smaller than `b`. */
  lemma SmallMultiple(k: int, b: int)
    requires b > 0 && -b < k * b < b
    ensures k == 0
  {
    assert (-k) * b == -(k * b);
    if k > 0 {
      AtLeast(k, b);
    } else if k < 0 {
      AtLeast(-k, b);
    }
  }

  lemma DivisionIsUnique(a: int, b: int, q: int, r: int, q': int, r': int)
    requires b != 0 && Divides(a, b, q, r) && Divides(a, b, q', r')
    ensures q == q' && r == r'
  {
    if b > 0 {
      assert (q - q') * b == q * b - q' * b;
      SmallMultiple(q - q', b);
    } else {
      assert (q - q') * -b == -(q * b - q' * b);
      SmallMultiple(q - q', -b);
    }
  }

  lemma QuotientsGive(x: Word, y: Word)
    requires IsInt(x) && IsInt(y)
    ensures ToInt(y) == 0 ==> ExecOp(Div, x, y) == None && ExecOp(Mod, x, y) == None
    ensures forall q, r :: ToInt(y) != 0 && Divides(ToInt(x), ToInt(y), q, r) ==>
              ExecOp(Div, x, y) == Some(FromInt(q)) && ExecOp(Mod, x, y) == Some(FromInt(r))
  {
    hide FromInt, ToInt, C32, IsInt, CDiv, CMod;
    var a, b := ToInt(x), ToInt(y);
    if b != 0 {
      CDivMod(a, b);
      assert Divides(a, b, CDiv(a, b), CMod(a, b));
      TagForgetsHighBits(CDiv(a, b));
      TagForgetsHighBits(CMod(a, b));
      forall q, r | Divides(a, b, q, r) ensures q == CDiv(a, b) && r == CMod(a, b) {
        DivisionIsUnique(a, b, q, r, CDiv(a, b), CMod(a, b));
      }
    }
  }

  /** Everything but equality rejects what is no number. */
  lemma OthersTrap(op: BinOp, x: Word, y: Word)
    requires op != Eq && !(IsInt(x) && IsInt(y))
    ensures ExecOp(op, x, y) == None
  {
  }

  // ----- values -----

  /** Reducing to 30 bits. */
  lemma Wrap30Is(i: int)
    ensures -0x2000_0000 <= Wrap30(i) < 0x2000_0000 && (Wrap30(i) - i) % 0x4000_0000 == 0
    ensures -0x2000_0000 <= i < 0x2000_0000 ==> Wrap30(i) == i
  {
  }

  /** The operators of the language on numbers. */
  lemma NumbersMean(a: int, b: int)
    ensures Meaning(Plus, Number(a), Number(b)) == Some(Number(Wrap30(a + b)))
    ensures Meaning(Minus, Number(a), Number(b)) == Some(Number(Wrap30(a - b)))
    ensures Meaning(Times, Number(a), Number(b)) == Some(Number(Wrap30(a * b)))
    ensures Meaning(Less, Number(a), Number(b)) == Some(Number(if a < b then 1 else 0))
    ensures Meaning(Greater, Number(a), Number(b)) == Some(Number(if a > b then 1 else 0))
    ensures Meaning(LessEq, Number(a), Number(b)) == Some(Number(if a <= b then 1 else 0))
    ensures Meaning(GreaterEq, Number(a), Number(b)) == Some(Number(if a >= b then 1 else 0))
    ensures Meaning(Equals, Number(a), Number(b)) == Some(Number(if a == b then 1 else 0))
    ensures Meaning(NotEquals, Number(a), Number(b)) == Some(Number(if a != b then 1 else 0))
  {
    hide Wrap30;
  }

  lemma QuotientsMean(a: int, b: int, q: int, r: int)
    requires -0x2000_0000 <= a < 0x2000_0000
    ensures b == 0 ==> Meaning(Over, Number(a), Number(b)) == None && Meaning(Rem, Number(a), Number(b)) == None
    ensures b != 0 && Divides(a, b, q, r) ==>
              && Meaning(Over, Number(a), Number(b)) == Some(Number(Wrap30(q)))
              && Meaning(Rem, Number(a), Number(b)) == Some(Number(r))
  {
    hide CDiv, CMod, Wrap30;
    if b != 0 {
      CDivMod(a, b);
      assert a - CDiv(a, b) * b == CMod(a, b);
      if Divides(a, b, q, r) {
        DivisionIsUnique(a, b, q, r, CDiv(a, b), CMod(a, b));
      }
    }
  }

  /** Values of other kinds can be compared for equality, and for nothing else. */
  lemma OthersMean(op: Operator, a: Val, b: Val)
    requires !(a.Number? && b.Number?)
    ensures Meaning(op, a, b) ==
            match op
            case Equals => Some(Number(if a == b then 1 else 0))
            case NotEquals => Some(Number(if a != b then 1 else 0))
            case _ => None
  {
  }

  /** The prefix operators. */
  lemma PrefixesMean(e: Expr, env: Env<Val>)
    ensures Eval(Not(e), env) ==
            match Eval(e, env)
            case Some(Number(n)) => Some(Number(if n == 0 then 1 else 0))
            case _ => None
    ensures Eval(Neg(e), env) ==
            match Eval(e, env)
            case Some(Number(n)) => Some(Number(Wrap30(-n)))
            case _ => None
  {
    hide Wrap30;
  }
}
