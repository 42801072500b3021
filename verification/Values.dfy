/** Tagged machine words of the 32-bit target: src/value.h.

  A `Value` of the source is one 32-bit word whose two low bits are a tag.  The
  model keeps the word itself, so that equal words, wrap-around and the layout
  of the tags stay visible to every other module.
*/
module Values {

  const WORD_RANGE := 0x1_0000_0000
  const SIGN_BIT := 0x8000_0000

  type Word = w: int | 0 <= w < WORD_RANGE

  datatype Option<+T> = None | Some(value: T)

  /** The word a 32-bit register keeps of an integer. */
  function Wrap(i: int): Word {
    i % WORD_RANGE
  }

  /** A word read as a two's-complement integer. */
  function Signed(w: Word): int {
    if w < SIGN_BIT then w else w - WORD_RANGE
  }

  const NULL: Word := 0
  const UNDEFINED: Word := 3

  predicate IsPtr(v: Word) { v % 4 == 0 }
  predicate IsInt(v: Word) { v % 4 == 1 }
  predicate IsString(v: Word) { v % 4 == 2 }
  predicate IsUndefined(v: Word) { v % 4 == 3 }

  /** `w & -3`: the mask of value_to_ptr and value_to_string clears bit 1. */
  function ClearBit1(w: Word): Word {
    if w / 2 % 2 == 1 then w - 2 else w
  }

  function ToPtr(v: Word): Word
    requires IsPtr(v)
  {
    ClearBit1(v)
  }

  function FromPtr(address: Word): Word {
    address
  }

  function ToStr(v: Word): Word
    requires IsString(v)
  {
    ClearBit1(v)
  }

  /** `str | T_STRING`: sets bit 1. */
  function FromStr(address: Word): Word {
    if address / 2 % 2 == 1 then address else Wrap(address + 2)
  }

  predicate IsNull(v: Word) {
    IsPtr(v) && ToPtr(v) == 0
  }

  /** A slot value that stands for a stored entry: neither null nor undefined. */
  predicate IsLive(v: Word) {
    !IsNull(v) && !IsUndefined(v)
  }

  /** `val._int >> 2`, an arithmetic shift, so it rounds towards minus infinity. */
  function ToInt(v: Word): int
    requires IsInt(v)
  {
    Signed(v) / 4
  }

  /** `(value << 2) + T_NUMBER` on a 32-bit word. */
  function FromInt(i: int): Word {
    Wrap(4 * i + 1)
  }

  const INT_LIMIT := 0x2000_0000

  /** The 30-bit signed integers a tagged word can hold. */
  predicate Fits30(i: int) {
    -INT_LIMIT <= i < INT_LIMIT
  }

  /** Every tagged number is in range, and reading then writing it gives the same word. */
  lemma ToIntRoundTrip(v: Word)
    requires IsInt(v)
    ensures Fits30(ToInt(v))
    ensures FromInt(ToInt(v)) == v
  {
  }

  /** Writing a number and reading it back gives it reduced to 30 bits; the
      number survives exactly when it fits in 30 bits. */
  lemma FromIntRoundTrip(i: int)
    ensures IsInt(FromInt(i)) && !IsNull(FromInt(i)) && !IsUndefined(FromInt(i))
    ensures (ToInt(FromInt(i)) - i) % (2 * INT_LIMIT) == 0
    ensures ToInt(FromInt(i)) == i <==> Fits30(i)
  {
    var w := FromInt(i);
    var q := (4 * i + 1) / WORD_RANGE;
    assert 4 * i + 1 == q * WORD_RANGE + w;
    assert w == 4 * (i - q * (2 * INT_LIMIT)) + 1;
    assert w / 4 == i - q * (2 * INT_LIMIT);
  }

  /** Numbers that agree on their low 30 bits become the same word, and only those do. */
  lemma FromIntEqual(i: int, j: int)
    ensures FromInt(i) == FromInt(j) <==> (i - j) % (2 * INT_LIMIT) == 0
  {
    FromIntRoundTrip(i);
    FromIntRoundTrip(j);
    ghost var m := 2 * INT_LIMIT;
    if (i - j) % m == 0 {
      ghost var q := (i - j) / m;
      assert 4 * i + 1 == 4 * j + 1 + q * WORD_RANGE;
      ModShift(4 * j + 1, q);
    }
  }

  lemma ModShift(a: int, q: int)
    ensures (a + q * WORD_RANGE) % WORD_RANGE == a % WORD_RANGE
  {
  }

  /** The C library hands out 4-aligned addresses, which keep their own tag
      and are read back as they were stored. */
  lemma PointerRoundTrip(address: Word)
    requires address % 4 == 0
    ensures IsPtr(FromPtr(address)) && ToPtr(FromPtr(address)) == address
    ensures IsNull(FromPtr(address)) <==> address == 0
  {
  }

  lemma StringRoundTrip(address: Word)
    requires address % 4 == 0
    ensures IsString(FromStr(address)) && ToStr(FromStr(address)) == address
  {
    var q := address / 4;
    assert FromStr(address) == 4 * q + 2;
  }
}
