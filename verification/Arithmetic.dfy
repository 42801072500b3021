/** The eight binary operators three times: on the numbers of the language, on
  the words of the VM, and in the constant folder. */
module Arithmetic {
  import opened Values
  import opened Insts
  import opened Probe

  datatype BinOp = Add | Sub | Mul | Div | Mod | Eq | Lt | Le

  // ----- the operators of C -----

  /** The 32-bit two's-complement integer an overflowing C expression leaves. */
  function C32(i: int): int {
    Signed(Wrap(i))
  }

  function Abs(i: int): nat {
    if i < 0 then -i else i
  }

  /** C division rounds towards zero. */
  function CDiv(a: int, b: int): int
    requires b != 0
  {
    if (a < 0) == (b < 0) then Abs(a) / Abs(b) else -(Abs(a) / Abs(b))
  }

  function CMod(a: int, b: int): int
    requires b != 0
  {
    a - CDiv(a, b) * b
  }

  function Truth(b: bool): int {
    if b then 1 else 0
  }

  /** `a op b` on C integers, before it is cut to a word; dividing by zero traps. */
  function COp(op: BinOp, a: int, b: int): Option<int> {
    match op
    case Add => Some(a + b)
    case Sub => Some(a - b)
    case Mul => Some(a * b)
    case Div => if b == 0 then None else Some(CDiv(a, b))
    case Mod => if b == 0 then None else Some(CMod(a, b))
    case Eq => Some(Truth(a == b))
    case Lt => Some(Truth(a < b))
    case Le => Some(Truth(a <= b))
  }

  /** The quotient is truncated and the remainder has the sign of the dividend. */
  lemma CDivMod(a: int, b: int)
    requires b != 0
    ensures a == CDiv(a, b) * b + CMod(a, b)
    ensures Abs(CMod(a, b)) < Abs(b)
    ensures a >= 0 ==> CMod(a, b) >= 0
    ensures a <= 0 ==> CMod(a, b) <= 0
  {
    var q := Abs(a) / Abs(b);
    var r := Abs(a) % Abs(b);
    assert Abs(a) == q * Abs(b) + r;
    assert CDiv(a, b) * b == if a < 0 then -(q * Abs(b)) else q * Abs(b);
  }

  // ----- the language -----

  /** What a variable can hold: a 30-bit number, or something arithmetic rejects. */
  datatype Val = Number(n: int) | Other(w: Word)

  /** The value a tagged word stands for. */
  function Decode(w: Word): Val {
    if IsInt(w) then Number(ToInt(w)) else Other(w)
  }

  /** Reduce to 30 bits of two's complement. */
  function Wrap30(i: int): int {
    (i + INT_LIMIT) % (2 * INT_LIMIT) - INT_LIMIT
  }

  /** The binary operators of the language: 30-bit arithmetic that wraps around,
      comparisons that give 1 or 0, equality on all values. */
  function Apply(op: BinOp, a: Val, b: Val): Option<Val> {
    if op == Eq then Some(Number(Truth(a == b)))
    else if !a.Number? || !b.Number? then None
    else
      match op
      case Add => Some(Number(Wrap30(a.n + b.n)))
      case Sub => Some(Number(Wrap30(a.n - b.n)))
      case Mul => Some(Number(Wrap30(a.n * b.n)))
      case Div => if b.n == 0 then None else Some(Number(Wrap30(CDiv(a.n, b.n))))
      case Mod => if b.n == 0 then None else Some(Number(a.n - CDiv(a.n, b.n) * b.n))
      case Lt => Some(Number(Truth(a.n < b.n)))
      case Le => Some(Number(Truth(a.n <= b.n)))
  }

  function Negate(a: Val): Option<Val> {
    if a.Number? then Some(Number(Truth(a.n == 0))) else None
  }

  // ----- the VM -----

  /** The arithmetic instructions of cvm_state_run on two register words. */
  function ExecOp(op: BinOp, x: Word, y: Word): Option<Word> {
    if op == Eq then Some(FromInt(Truth(x == y)))
    else if IsInt(x) && IsInt(y) then
      match COp(op, ToInt(x), ToInt(y))
      case None => None
      case Some(i) => Some(FromInt(C32(i)))
    else None
  }

  function ExecNot(x: Word): Option<Word> {
    if IsInt(x) then Some(FromInt(Truth(ToInt(x) == 0))) else None
  }

  // ----- the folder -----

  /** The immediate _ir_fold_constant hands to ir_builder_li. */
  function FoldOp(op: BinOp, x: Word, y: Word): Option<int>
    requires IsInt(x) && IsInt(y)
  {
    match COp(op, ToInt(x), ToInt(y))
    case None => None
    case Some(i) => Some(C32(i))
  }

  /** Tagged words and values correspond one to one. */
  lemma DecodeInjective(x: Word, y: Word)
    ensures Decode(x) == Decode(y) <==> x == y
  {
    if IsInt(x) && IsInt(y) {
      ToIntRoundTrip(x);
      ToIntRoundTrip(y);
    }
  }

  lemma C32Offset(i: int) returns (k: int)
    ensures C32(i) == i + k * WORD_RANGE
  {
    k := -(i / WORD_RANGE) - if Wrap(i) < SIGN_BIT then 0 else 1;
  }

  /** Cutting to 32 bits first does not change the tagged word. */
  lemma TagForgetsHighBits(i: int)
    ensures FromInt(C32(i)) == FromInt(i)
  {
    hide C32;
    var k := C32Offset(i);
    assert 4 * C32(i) + 1 == 4 * i + 1 + 4 * k * WORD_RANGE;
    ModShift(4 * i + 1, 4 * k);
  }

  /** A number written as a tagged word is the number reduced to 30 bits. */
  lemma DecodeFromInt(i: int)
    ensures IsInt(FromInt(i)) && Decode(FromInt(i)) == Number(Wrap30(i))
  {
    hide Wrap, ToInt;
    FromIntRoundTrip(i);
    ToIntRoundTrip(FromInt(i));
    var m := 2 * INT_LIMIT;
    var t := ToInt(FromInt(i));
    assert (t - i) % m == 0;
    Congruent(t + INT_LIMIT, i + INT_LIMIT, m);
    assert (t + INT_LIMIT) % m == t + INT_LIMIT;
  }

  lemma DecodeC32(i: int)
    ensures Decode(FromInt(C32(i))) == Number(Wrap30(i))
  {
    TagForgetsHighBits(i);
    DecodeFromInt(i);
  }

  lemma TruthFits(b: bool)
    ensures Decode(FromInt(Truth(b))) == Number(Truth(b))
  {
    DecodeFromInt(Truth(b));
  }

  /** Remainders and truth values need no reduction. */
  lemma SmallResults(op: BinOp, x: Word, y: Word)
    requires IsInt(x) && IsInt(y)
    ensures op == Lt || op == Le ==> Wrap30(COp(op, ToInt(x), ToInt(y)).value) == COp(op, ToInt(x), ToInt(y)).value
    ensures op == Mod && ToInt(y) != 0 ==> Wrap30(CMod(ToInt(x), ToInt(y))) == CMod(ToInt(x), ToInt(y))
  {
    hide ToInt, IsInt, CDiv, CMod;
    ToIntRoundTrip(x);
    ToIntRoundTrip(y);
    if op == Mod && ToInt(y) != 0 {
      CDivMod(ToInt(x), ToInt(y));
    }
  }

  /** The instructions compute the operators of the language: same result, same traps. */
  lemma ExecIsApply(op: BinOp, x: Word, y: Word)
    ensures match ExecOp(op, x, y)
            case None => Apply(op, Decode(x), Decode(y)) == None
            case Some(w) => Apply(op, Decode(x), Decode(y)) == Some(Decode(w))
  {
    hide FromInt, ToInt, C32, Wrap30, IsInt;
    DecodeInjective(x, y);
    TruthFits(x == y);
    if op != Eq && IsInt(x) && IsInt(y) {
      var r := COp(op, ToInt(x), ToInt(y));
      if r.Some? {
        DecodeC32(r.value);
        SmallResults(op, x, y);
      }
    }
  }

  lemma NotIsNegate(x: Word)
    ensures match ExecNot(x)
            case None => Negate(Decode(x)) == None
            case Some(w) => Negate(Decode(x)) == Some(Decode(w))
  {
    hide FromInt, ToInt, IsInt;
    if IsInt(x) {
      TruthFits(ToInt(x) == 0);
    }
  }

  /** Folding agrees with the VM on every pair of numbers: loading the folded
      immediate gives the word the instruction would have computed, and the
      folder divides by zero exactly when the instruction would. */
  lemma FoldingAgrees(op: BinOp, x: Word, y: Word)
    requires IsInt(x) && IsInt(y)
    ensures match FoldOp(op, x, y)
            case None => ExecOp(op, x, y) == None
            case Some(imm) => ExecOp(op, x, y) == Some(FromInt(imm))
  {
    hide FromInt, ToInt, C32, IsInt;
    ToIntRoundTrip(x);
    ToIntRoundTrip(y);
    TagForgetsHighBits(Truth(x == y));
  }
}
