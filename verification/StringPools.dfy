/** The string pool object of src/string_pool.c and its whole histories. */
module StringPools {
  import opened Values
  import opened Probe
  import opened Strings

  class StringPool {
    const capacity: nat
    var size: nat
    const content: array<StringNode>

    ghost predicate IsTable()
      reads content
    {
      content.Length == capacity && WellFormed(content[..])
    }

    ghost function Map(): map<Bytes, CString>
      requires IsTable()
      reads content
    {
      Interned(content[..])
    }

    /** The load invariant: `size` counts the strings stored since the last
        expansion, which found the table at its threshold. */
    ghost predicate Valid()
      reads this, content
    {
      && IsTable()
      && capacity >= STRING_POOL_DEFAULT_CAPACITY && capacity % 2 == 0
      && |Map()| + 8 == size + capacity / 2
      && size <= capacity / 2
    }

    /** At least eight slots are always empty, so every search ends. */
    lemma LoadBound(vec: Bytes)
      requires Valid()
      ensures |Map()| <= capacity - 8
      ensures Seek(content[..], vec, 0) < capacity
    {
      SearchEnds(content[..], vec);
    }

    /** _string_pool_construct */
    constructor (capacity: nat)
      requires IsCapacity(capacity)
      ensures this.capacity == capacity && size == 0 && fresh(content)
      ensures IsTable() && Map() == map[]
    {
      this.capacity, size := capacity, 0;
      content := new StringNode[capacity](_ => StringNode(0, null));
    }

    /** string_pool_new */
    static method New() returns (pool: StringPool)
      ensures fresh(pool) && fresh(pool.content) && pool.Valid() && pool.Map() == map[]
    {
      assert Pow2(4) == STRING_POOL_DEFAULT_CAPACITY;
      pool := new StringPool(STRING_POOL_DEFAULT_CAPACITY);
    }

    /** _string_hash_insert */
    method HashInsert(key: Word, str: CString)
      requires IsTable() && |Map()| < capacity
      requires key == StringHash(str.content) && str.content !in Map()
      modifies content
      ensures IsTable() && Map() == old(Map())[str.content := str]
    {
      hide WellFormed, Interned, StringHash, Visit, NextIndex, Seek;
      ghost var nodes, vec := content[..], str.content;
      TableCapacity(nodes);
      SearchEnds(nodes, vec);
      SeekFinds(nodes, vec);
      ghost var n: nat := 0;
      var index: nat := Start(key, capacity);
      while content[index].str != null
        invariant content[..] == nodes
        invariant n <= Seek(nodes, vec, 0) && index == Visit(key, n, |nodes|)
        decreases Seek(nodes, vec, 0) - n
      {
        VisitNext(key, n, capacity);
        index := NextIndex(index, capacity);
        n := n + 1;
      }
      content[index] := StringNode(key, str);
      assert content[..] == Stored(nodes, str);
      StoredAdds(nodes, str);
    }

    /** _string_expand_pool: every string moves, by its pointer, into a table twice as large. */
    method Expand() returns (pool: StringPool)
      requires IsTable() && capacity < SIGN_BIT
      ensures fresh(pool) && fresh(pool.content) && pool.IsTable()
      ensures pool.capacity == 2 * capacity && pool.size == 0 && pool.Map() == Map()
    {
      hide WellFormed, Interned, StringHash;
      ghost var nodes := content[..];
      DoubleCapacity(nodes);
      pool := new StringPool(2 * capacity);
      var i := 0;
      while i < capacity
        invariant i <= capacity && content[..] == nodes
        invariant fresh(pool) && fresh(pool.content) && pool.IsTable()
        invariant pool.capacity == 2 * capacity && pool.size == 0
        invariant pool.Map() == Prefix(nodes, i)
      {
        PrefixNext(nodes, i);
        if content[i].str != null {
          pool.HashInsert(content[i].key, content[i].str);
        }
        i := i + 1;
      }
      PrefixAll(nodes);
    }

    /** _string_pool_find_hash */
    method FindHash(vec: Bytes, hash: Word) returns (str: CString?)
      requires Valid() && hash == StringHash(vec)
      ensures vec in Map() ==> str == Map()[vec]
      ensures vec !in Map() ==> str == null
    {
      hide WellFormed, Interned, StringHash, Visit, NextIndex, Seek;
      ghost var nodes := content[..];
      TableCapacity(nodes);
      LoadBound(vec);
      SeekFinds(nodes, vec);
      ghost var n: nat := 0;
      var index: nat := Start(hash, capacity);
      while content[index].str != null
        invariant n <= Seek(nodes, vec, 0) && index == Visit(hash, n, |nodes|)
        decreases Seek(nodes, vec, 0) - n
      {
        if content[index].key == hash && |vec| == |content[index].str.content| && vec == content[index].str.content {
          return content[index].str;
        }
        VisitNext(hash, n, capacity);
        index := NextIndex(index, capacity);
        n := n + 1;
      }
      return null;
    }

    /** string_pool_find_vec */
    method FindVec(vec: Bytes) returns (str: CString?)
      requires Valid()
      ensures vec in Map() ==> str == Map()[vec]
      ensures vec !in Map() ==> str == null
    {
      var hash := StringHashVec(vec);
      str := FindHash(vec, hash);
    }

    /** string_pool_insert_vec: the caller's pointer becomes the returned pool. */
    method InsertVec(vec: Bytes) returns (pool: StringPool, str: CString)
      requires Valid() && |vec| < MAX_SHORT_STRING_LENGTH && capacity < SIGN_BIT
      modifies `size, content
      ensures pool.Valid() && (pool == this || (fresh(pool) && fresh(pool.content)))
      ensures Interns(old(Map()), vec, str, pool.Map())
      ensures vec in old(Map()) ==> pool == this && unchanged(this, content)
    {
      hide WellFormed, Interned, StringHash;
      pool := this;
      var hash := StringHashVec(vec);
      var found := FindHash(vec, hash);
      if found != null {
        InternedContent(content[..], vec);
        return pool, found;
      }
      if size + 1 > capacity - capacity / 2 {
        pool := Expand();
      }
      str := new CString(vec);
      pool.HashInsert(hash, str);
      pool.size := pool.size + 1;
    }
  }

  lemma InternedContent(nodes: seq<StringNode>, vec: Bytes)
    requires WellFormed(nodes) && vec in Interned(nodes)
    ensures Interned(nodes)[vec].content == vec
  {
  }

  /** `key % pool->capacity` */
  function Start(key: Word, capacity: nat): (r: nat)
    requires IsCapacity(capacity)
    ensures r == Visit(key, 0, capacity)
  {
    key % capacity
  }

  lemma DoubleCapacity(nodes: seq<StringNode>)
    requires WellFormed(nodes) && |nodes| < SIGN_BIT
    ensures IsCapacity(2 * |nodes|) && |Interned(nodes)| < 2 * |nodes|
  {
    DoubleIsCapacity(|nodes|);
    InternedSize(nodes);
    hide WellFormed, Interned;
    var rest := Below(|nodes|) - Taken(nodes);
    assert Below(|nodes|) == Taken(nodes) + rest;
  }

  /** The strings in the first n slots. */
  ghost function Prefix(nodes: seq<StringNode>, n: nat): map<Bytes, CString>
    requires n <= |nodes|
  {
    if n == 0 then map[]
    else if nodes[n - 1].str == null then Prefix(nodes, n - 1)
    else Prefix(nodes, n - 1)[nodes[n - 1].str.content := nodes[n - 1].str]
  }

  ghost predicate HasBytes(node: StringNode, vec: Bytes) {
    node.str != null && node.str.content == vec
  }

  /** The map holds the strings of the first n slots, and no others. */
  ghost predicate IsPrefix(nodes: seq<StringNode>, n: nat, p: map<Bytes, CString>)
    requires n <= |nodes|
  {
    && (forall i: nat, vec :: i < n && HasBytes(nodes[i], vec) ==> vec in p && p[vec] == nodes[i].str)
    && (forall vec :: vec in p ==> exists i: nat :: i < n && HasBytes(nodes[i], vec))
  }

  lemma NoneEarlier(nodes: seq<StringNode>, n: nat)
    requires WellFormed(nodes) && n < |nodes| && nodes[n].str != null
    ensures forall i: nat :: i < n ==> !HasBytes(nodes[i], nodes[n].str.content)
  {
    forall i: nat | i < n && nodes[i].str != null ensures nodes[i].str.content != nodes[n].str.content {
      SlotsDiffer(nodes, i, n);
    }
  }

  lemma IsPrefixNext(nodes: seq<StringNode>, n: nat, p: map<Bytes, CString>)
    requires n < |nodes| && IsPrefix(nodes, n, p) && nodes[n].str != null
    requires forall i: nat :: i < n ==> !HasBytes(nodes[i], nodes[n].str.content)
    ensures IsPrefix(nodes, n + 1, p[nodes[n].str.content := nodes[n].str])
  {
    var vec, q := nodes[n].str.content, p[nodes[n].str.content := nodes[n].str];
    assert HasBytes(nodes[n], vec);
    forall v | v in q ensures exists i: nat :: i < n + 1 && HasBytes(nodes[i], v) {
      if v != vec {
        var i: nat :| i < n && HasBytes(nodes[i], v);
      }
    }
  }

  lemma {:induction false} PrefixIs(nodes: seq<StringNode>, n: nat)
    requires WellFormed(nodes) && n <= |nodes|
    ensures IsPrefix(nodes, n, Prefix(nodes, n))
  {
    hide WellFormed;
    if n > 0 {
      PrefixIs(nodes, n - 1);
      if nodes[n - 1].str != null {
        NoneEarlier(nodes, n - 1);
        hide IsPrefix, HasBytes;
        IsPrefixNext(nodes, n - 1, Prefix(nodes, n - 1));
      }
    }
  }

  lemma PrefixNext(nodes: seq<StringNode>, n: nat)
    requires WellFormed(nodes) && n < |nodes|
    ensures |Prefix(nodes, n)| <= |Interned(nodes)|
    ensures nodes[n].str != null ==>
              nodes[n].key == StringHash(nodes[n].str.content) && nodes[n].str.content !in Prefix(nodes, n)
  {
    PrefixIs(nodes, n);
    var p, all := Prefix(nodes, n).Keys, Interned(nodes).Keys;
    forall vec | vec in p ensures vec in all {
      var i: nat :| i < n && HasBytes(nodes[i], vec);
      InternedAt(nodes, i);
    }
    assert all == p + (all - p);
    if nodes[n].str != null {
      assert Leads(nodes, n);
      NoneEarlier(nodes, n);
    }
  }

  lemma PrefixAll(nodes: seq<StringNode>)
    requires WellFormed(nodes)
    ensures Prefix(nodes, |nodes|) == Interned(nodes)
  {
    PrefixIs(nodes, |nodes|);
    hide Prefix, Interned, WellFormed;
    var p := Prefix(nodes, |nodes|);
    forall i: nat | i < |nodes| && nodes[i].str != null
      ensures nodes[i].str.content in p && p[nodes[i].str.content] == nodes[i].str
    {
      assert HasBytes(nodes[i], nodes[i].str.content);
    }
    forall vec | vec in p ensures vec in Keys(nodes) {
      var i: nat :| i < |nodes| && HasBytes(nodes[i], vec);
    }
    InternedUnique(nodes, p);
  }

  // ----- histories -----

  /** One insertion seen from outside: a known string is returned as it is, a
      new one is added under its bytes. */
  ghost predicate Interns(m: map<Bytes, CString>, vec: Bytes, str: CString, m': map<Bytes, CString>) {
    && str.content == vec
    && (if vec in m then m' == m && m[vec] == str else m' == m[vec := str])
  }

  /** A history of insertions: maps[i] is the pool before insertion i. */
  ghost predicate IsHistory(maps: seq<map<Bytes, CString>>, vecs: seq<Bytes>, strs: seq<CString>) {
    && |maps| == |vecs| + 1 && |strs| == |vecs|
    && forall i :: 0 <= i < |vecs| ==> Interns(maps[i], vecs[i], strs[i], maps[i + 1])
  }

  lemma {:induction false} StaysInterned(maps: seq<map<Bytes, CString>>, vecs: seq<Bytes>,
          strs: seq<CString>, i: nat, j: nat)
    requires IsHistory(maps, vecs, strs) && i < |vecs| && i < j <= |vecs|
    ensures vecs[i] in maps[j] && maps[j][vecs[i]] == strs[i]
    decreases j
  {
    assert Interns(maps[j - 1], vecs[j - 1], strs[j - 1], maps[j]);
    if i + 1 < j {
      StaysInterned(maps, vecs, strs, i, j - 1);
    }
  }

  /** Interning is canonical over any history, through every expansion: two
      insertions return the same pointer exactly when their bytes are equal. */
  lemma Canonical(maps: seq<map<Bytes, CString>>, vecs: seq<Bytes>, strs: seq<CString>, i: nat, j: nat)
    requires IsHistory(maps, vecs, strs) && i <= j < |vecs|
    ensures strs[i] == strs[j] <==> vecs[i] == vecs[j]
  {
    assert Interns(maps[i], vecs[i], strs[i], maps[i + 1]);
    assert Interns(maps[j], vecs[j], strs[j], maps[j + 1]);
    if i < j {
      StaysInterned(maps, vecs, strs, i, j);
    }
  }
}
