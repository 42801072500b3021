/** The string interning pool of src/string_pool.c.

  The pool is an open-addressing table of string pointers without removal.  Its
  `size` field is set back to 0 by every expansion, so it does not count the
  strings; the pool still never fills up. */
module Strings {
  import opened Values
  import opened Probe

  type Byte = b: int | 0 <= b < 256
  type Bytes = seq<Byte>

  const MAX_SHORT_STRING_LENGTH: nat := 256
  const STRING_POOL_DEFAULT_CAPACITY: nat := 16

  /** An interned string.  Its identity is its address. */
  class CString {
    const content: Bytes

    constructor (content: Bytes)
      ensures this.content == content
    {
      this.content := content;
    }
  }

  datatype StringNode = StringNode(key: Word, str: CString?)

  // ----- string_hash_vec -----

  /** Bitwise exclusive or of the low bits of two naturals. */
  function XorBits(a: nat, b: nat, bits: nat): nat {
    if bits == 0 then 0
    else (if a % 2 == b % 2 then 0 else 1) + 2 * XorBits(a / 2, b / 2, bits - 1)
  }

  function Xor(a: Word, b: Word): Word {
    Wrap(XorBits(a, b, 32))
  }

  /** Four bytes read as a little-endian word. */
  function LoadWord(vec: Bytes, i: nat): Word
    requires i + 4 <= |vec|
  {
    var b0: int, b1: int, b2: int, b3: int := vec[i], vec[i + 1], vec[i + 2], vec[i + 3];
    b0 + 0x100 * b1 + 0x1_0000 * b2 + 0x100_0000 * b3
  }

  /** A byte as a signed char, widened to a word. */
  function SignExtend(b: Byte): Word {
    if b < 128 then b else WORD_RANGE - 256 + b
  }

  /** The hash of the bytes from position i on, continuing from an accumulator. */
  function HashFrom(vec: Bytes, i: nat, acc: Word): Word
    requires i <= |vec|
    decreases |vec| - i
  {
    if |vec| - i > 4 then HashFrom(vec, i + 4, Xor(Wrap(acc * 128 + acc), LoadWord(vec, i)))
    else if i < |vec| then HashFrom(vec, i + 1, Xor(Wrap(acc * 8 + acc), SignExtend(vec[i])))
    else acc
  }

  function StringHash(vec: Bytes): Word {
    HashFrom(vec, 0, Wrap(|vec|))
  }

  method StringHashVec(vec: Bytes) returns (hash: Word)
    ensures hash == StringHash(vec)
  {
    hash := Wrap(|vec|);
    var i := 0;
    while |vec| - i > 4
      invariant i <= |vec| && HashFrom(vec, i, hash) == StringHash(vec)
    {
      hash := Xor(Wrap(hash * 128 + hash), LoadWord(vec, i));
      i := i + 4;
    }
    while i < |vec|
      invariant i <= |vec| <= i + 4 && HashFrom(vec, i, hash) == StringHash(vec)
    {
      hash := Xor(Wrap(hash * 8 + hash), SignExtend(vec[i]));
      i := i + 1;
    }
  }

  /** Five bytes: a word is added to 129 times the length, a signed byte to 9 times that. */
  lemma HashOfFive(a: Byte, b: Byte, c: Byte, d: Byte, e: Byte)
    ensures StringHash([a, b, c, d, e]) ==
            Xor(Wrap(9 * Xor(645, a + 0x100 * b + 0x1_0000 * c + 0x100_0000 * d)), if e < 128 then e else 0xFFFF_FF00 + e)
  {
    hide Xor;
    var vec := [a, b, c, d, e];
    var word := LoadWord(vec, 0);
    assert HashFrom(vec, 0, 5) == HashFrom(vec, 4, Xor(645, word));
    var byte := SignExtend(vec[4]);
    assert HashFrom(vec, 5, Xor(Wrap(9 * Xor(645, word)), byte)) == Xor(Wrap(9 * Xor(645, word)), byte);
  }

  function Bit(a: nat, i: nat): nat {
    if i == 0 then a % 2 else Bit(a / 2, i - 1)
  }

  /** Exclusive or, bit by bit. */
  lemma {:induction false} XorAt(a: nat, b: nat, bits: nat, i: nat)
    requires i < bits
    ensures Bit(XorBits(a, b, bits), i) == if Bit(a, i) == Bit(b, i) then 0 else 1
    decreases bits
  {
    if i > 0 {
      XorAt(a / 2, b / 2, bits - 1, i - 1);
      assert XorBits(a, b, bits) / 2 == XorBits(a / 2, b / 2, bits - 1);
    }
  }

  // ----- searching -----

  ghost function Visit(hash: Word, n: nat, capacity: nat): (i: nat)
    requires IsCapacity(capacity)
    ensures i < capacity
  {
    CapacityBound(capacity);
    Slot(hash % capacity, n, capacity)
  }

  lemma VisitNext(hash: Word, n: nat, capacity: nat)
    requires IsCapacity(capacity)
    ensures Visit(hash, n, capacity) < WORD_RANGE
    ensures Visit(hash, n + 1, capacity) == NextIndex(Visit(hash, n, capacity), capacity)
  {
    CapacityBound(capacity);
  }

  /** The comparison of the find loop. */
  predicate Matches(node: StringNode, vec: Bytes, hash: Word) {
    node.str != null && node.key == hash && |vec| == |node.str.content| && vec == node.str.content
  }

  predicate Stops(node: StringNode, vec: Bytes) {
    node.str == null || Matches(node, vec, StringHash(vec))
  }

  /** The first step, from step n on, at which the search for a string stops. */
  ghost function Seek(nodes: seq<StringNode>, vec: Bytes, n: nat): (m: nat)
    requires IsCapacity(|nodes|) && n <= |nodes|
    ensures n <= m <= |nodes|
    ensures m < |nodes| ==> Stops(nodes[Visit(StringHash(vec), m, |nodes|)], vec)
    ensures forall j: nat :: n <= j < m ==> !Stops(nodes[Visit(StringHash(vec), j, |nodes|)], vec)
    decreases |nodes| - n
  {
    if n == |nodes| || Stops(nodes[Visit(StringHash(vec), n, |nodes|)], vec) then n else Seek(nodes, vec, n + 1)
  }

  lemma SeekUnique(nodes: seq<StringNode>, vec: Bytes, n: nat)
    requires IsCapacity(|nodes|) && n < |nodes|
    requires Stops(nodes[Visit(StringHash(vec), n, |nodes|)], vec)
    requires forall j: nat :: j < n ==> !Stops(nodes[Visit(StringHash(vec), j, |nodes|)], vec)
    ensures Seek(nodes, vec, 0) == n
  {
  }

  /** With an empty slot every search ends. */
  lemma SeekEnds(nodes: seq<StringNode>, vec: Bytes, i: nat)
    requires IsCapacity(|nodes|) && i < |nodes| && nodes[i].str == null
    ensures Seek(nodes, vec, 0) < |nodes|
  {
    CapacityBound(|nodes|);
    var n := FullPeriod(StringHash(vec) % |nodes|, i, |nodes|);
    assert Stops(nodes[Visit(StringHash(vec), n, |nodes|)], vec);
  }

  /** The string at slot i is where the search for its bytes ends. */
  ghost predicate Leads(nodes: seq<StringNode>, i: nat)
    requires IsCapacity(|nodes|) && i < |nodes| && nodes[i].str != null
  {
    var n := Seek(nodes, nodes[i].str.content, 0);
    && nodes[i].key == StringHash(nodes[i].str.content)
    && n < |nodes|
    && Visit(nodes[i].key, n, |nodes|) == i
  }

  ghost predicate WellFormed(nodes: seq<StringNode>) {
    && IsCapacity(|nodes|)
    && forall i: nat :: i < |nodes| && nodes[i].str != null ==> Leads(nodes, i)
  }

  lemma TableCapacity(nodes: seq<StringNode>)
    requires WellFormed(nodes)
    ensures IsCapacity(|nodes|)
  {
  }

  ghost function Taken(nodes: seq<StringNode>): set<nat> {
    set i: nat | i < |nodes| && nodes[i].str != null
  }

  ghost function Keys(nodes: seq<StringNode>): set<Bytes> {
    set i: nat | i < |nodes| && nodes[i].str != null :: nodes[i].str.content
  }

  /** The strings of a pool, by their bytes. */
  ghost function Interned(nodes: seq<StringNode>): (m: map<Bytes, CString>)
    requires WellFormed(nodes)
    ensures forall vec :: vec in m ==> m[vec].content == vec
  {
    map vec | vec in Keys(nodes) :: FoundAt(nodes, vec)
  }

  ghost function FoundAt(nodes: seq<StringNode>, vec: Bytes): (s: CString)
    requires WellFormed(nodes) && vec in Keys(nodes)
    ensures s.content == vec
  {
    var i: nat :| i < |nodes| && nodes[i].str != null && nodes[i].str.content == vec;
    nodes[i].str
  }

  /** Two slots never hold the same bytes. */
  lemma SlotsDiffer(nodes: seq<StringNode>, i: nat, j: nat)
    requires WellFormed(nodes) && i < |nodes| && j < |nodes| && i != j
    requires nodes[i].str != null && nodes[j].str != null
    ensures nodes[i].str.content != nodes[j].str.content
  {
    hide Seek, Visit;
    assert Leads(nodes, i) && Leads(nodes, j);
  }

  lemma InternedAt(nodes: seq<StringNode>, i: nat)
    requires WellFormed(nodes) && i < |nodes| && nodes[i].str != null
    ensures nodes[i].str.content in Interned(nodes)
    ensures Interned(nodes)[nodes[i].str.content] == nodes[i].str
  {
    var vec := nodes[i].str.content;
    assert vec in Keys(nodes);
    forall j: nat | j < |nodes| && nodes[j].str != null && nodes[j].str.content == vec ensures j == i {
      if j != i {
        SlotsDiffer(nodes, i, j);
      }
    }
    hide Leads, Seek;
  }

  /** The search finds a string exactly when it is interned. */
  lemma SeekFinds(nodes: seq<StringNode>, vec: Bytes)
    requires WellFormed(nodes) && Seek(nodes, vec, 0) < |nodes|
    ensures var found := nodes[Visit(StringHash(vec), Seek(nodes, vec, 0), |nodes|)].str;
      if vec in Interned(nodes) then found == Interned(nodes)[vec] else found == null
  {
    hide Seek, Visit;
    var i := Visit(StringHash(vec), Seek(nodes, vec, 0), |nodes|);
    if nodes[i].str != null {
      InternedAt(nodes, i);
    }
  }

  /** A pool map given slot by slot. */
  lemma InternedUnique(nodes: seq<StringNode>, m: map<Bytes, CString>)
    requires WellFormed(nodes)
    requires forall i: nat :: i < |nodes| && nodes[i].str != null ==>
               nodes[i].str.content in m && m[nodes[i].str.content] == nodes[i].str
    requires forall vec :: vec in m ==> vec in Keys(nodes)
    ensures Interned(nodes) == m
  {
    forall vec | vec in m ensures vec in Interned(nodes) && Interned(nodes)[vec] == m[vec] {
      var i: nat :| i < |nodes| && nodes[i].str != null && nodes[i].str.content == vec;
      InternedAt(nodes, i);
    }
  }

  // ----- counting -----

  lemma {:induction false} KeysOfSlots(nodes: seq<StringNode>, s: set<nat>)
    requires WellFormed(nodes) && s <= Taken(nodes)
    ensures |set i | i in s :: nodes[i].str.content| == |s|
    decreases |s|
  {
    hide WellFormed;
    if s != {} {
      var i :| i in s;
      KeysOfSlots(nodes, s - {i});
      forall j | j in s - {i} ensures nodes[j].str.content != nodes[i].str.content {
        SlotsDiffer(nodes, i, j);
      }
      assert (set j | j in s :: nodes[j].str.content)
          == (set j | j in s - {i} :: nodes[j].str.content) + {nodes[i].str.content};
    }
  }

  lemma InternedSize(nodes: seq<StringNode>)
    requires WellFormed(nodes)
    ensures |Interned(nodes)| == |Taken(nodes)|
  {
    KeysOfSlots(nodes, Taken(nodes));
    assert Interned(nodes).Keys == (set i | i in Taken(nodes) :: nodes[i].str.content);
    hide Interned, WellFormed;
  }

  /** Fewer strings than slots leave an empty slot. */
  lemma EmptySlot(nodes: seq<StringNode>) returns (i: nat)
    requires WellFormed(nodes) && |Interned(nodes)| < |nodes|
    ensures i < |nodes| && nodes[i].str == null
  {
    InternedSize(nodes);
    hide WellFormed, Interned;
    assert (forall j: nat :: j < |nodes| ==> nodes[j].str != null) ==> Taken(nodes) == Below(|nodes|);
    i :| i < |nodes| && nodes[i].str == null;
  }

  lemma SearchEnds(nodes: seq<StringNode>, vec: Bytes)
    requires WellFormed(nodes) && |Interned(nodes)| < |nodes|
    ensures Seek(nodes, vec, 0) < |nodes|
  {
    var i := EmptySlot(nodes);
    SeekEnds(nodes, vec, i);
  }

  // ----- storing a new string -----

  ghost function Stored(nodes: seq<StringNode>, s: CString): (nodes': seq<StringNode>)
    requires IsCapacity(|nodes|) && Seek(nodes, s.content, 0) < |nodes|
    ensures |nodes'| == |nodes|
  {
    var hash := StringHash(s.content);
    nodes[Visit(hash, Seek(nodes, s.content, 0), |nodes|) := StringNode(hash, s)]
  }

  lemma StoredKeepsPath(nodes: seq<StringNode>, s: CString, j: nat)
    requires WellFormed(nodes) && Seek(nodes, s.content, 0) < |nodes| && s.content !in Interned(nodes)
    requires j < |nodes| && nodes[j].str != null
    ensures Stored(nodes, s)[j] == nodes[j] && Leads(Stored(nodes, s), j)
  {
    var nodes', vec := Stored(nodes, s), nodes[j].str.content;
    SeekFinds(nodes, s.content);
    assert Leads(nodes, j);
    hide WellFormed, Interned, Visit, StringHash;
    var n := Seek(nodes, vec, 0);
    forall i: nat | i < n ensures !Stops(nodes'[Visit(StringHash(vec), i, |nodes|)], vec) {
      assert !Stops(nodes[Visit(StringHash(vec), i, |nodes|)], vec);
    }
    SeekUnique(nodes', vec, n);
  }

  lemma StoredLeads(nodes: seq<StringNode>, s: CString)
    requires WellFormed(nodes) && Seek(nodes, s.content, 0) < |nodes|
    ensures Leads(Stored(nodes, s), Visit(StringHash(s.content), Seek(nodes, s.content, 0), |nodes|))
  {
    var nodes', vec := Stored(nodes, s), s.content;
    var n := Seek(nodes, vec, 0);
    TableCapacity(nodes);
    CapacityBound(|nodes|);
    forall i: nat | i < n
      ensures Visit(StringHash(vec), i, |nodes|) != Visit(StringHash(vec), n, |nodes|)
    {
      SlotsDistinct(StringHash(vec) % |nodes|, i, n, |nodes|);
    }
    hide WellFormed, Visit, StringHash;
    forall i: nat | i < n ensures !Stops(nodes'[Visit(StringHash(vec), i, |nodes|)], vec) {
      assert !Stops(nodes[Visit(StringHash(vec), i, |nodes|)], vec);
    }
    SeekUnique(nodes', vec, n);
  }

  lemma StoredKeepsWellFormed(nodes: seq<StringNode>, s: CString)
    requires WellFormed(nodes) && Seek(nodes, s.content, 0) < |nodes| && s.content !in Interned(nodes)
    ensures WellFormed(Stored(nodes, s))
  {
    hide Seek, Visit, StringHash, Leads, Interned;
    var nodes' := Stored(nodes, s);
    forall j: nat | j < |nodes'| && nodes'[j].str != null ensures Leads(nodes', j) {
      StoredLeads(nodes, s);
      if j != Visit(StringHash(s.content), Seek(nodes, s.content, 0), |nodes|) {
        StoredKeepsPath(nodes, s, j);
      }
    }
  }

  /** Storing a new string adds it to the map and moves nothing else. */
  lemma StoredAdds(nodes: seq<StringNode>, s: CString)
    requires WellFormed(nodes) && Seek(nodes, s.content, 0) < |nodes| && s.content !in Interned(nodes)
    ensures WellFormed(Stored(nodes, s))
    ensures Interned(Stored(nodes, s)) == Interned(nodes)[s.content := s]
  {
    hide Seek, Visit, StringHash, Leads;
    StoredKeepsWellFormed(nodes, s);
    SeekFinds(nodes, s.content);
    var nodes', m := Stored(nodes, s), Interned(nodes)[s.content := s];
    var t := Visit(StringHash(s.content), Seek(nodes, s.content, 0), |nodes|);
    forall i: nat | i < |nodes'| && nodes'[i].str != null
      ensures nodes'[i].str.content in m && m[nodes'[i].str.content] == nodes'[i].str
    {
      if i != t {
        InternedAt(nodes, i);
      }
    }
    forall vec | vec in m ensures vec in Keys(nodes') {
      if vec == s.content {
        assert nodes'[t].str.content == vec;
      } else {
        var i: nat :| i < |nodes| && nodes[i].str != null && nodes[i].str.content == vec;
        assert nodes'[i].str.content == vec;
      }
    }
    InternedUnique(nodes', m);
  }
}
