/** What the open-addressing tables of src/hash.c mean: the probe search, the
  update with tombstone reuse and the copy into another table, as functions on
  the sequence of slots, and the map such a sequence stands for.

  A slot whose value is null ends a chain; a slot whose value is undefined is a
  deleted entry (a tombstone). */
module HashTables {
  import opened Values
  import opened Probe

  datatype HashType = HT_OBJECT | HT_ARRAY | HT_REDIRECT | HT_LIGHTFUNC | HT_CLOSURE | HT_USERDATA | HT_GC_LEFT

  /** The `_info` union: a function, a closure, or a data pointer with its destructor. */
  datatype Info = Info(first: Word, second: Word)

  datatype Node = Node(key: Word, value: Word)

  const EMPTY_NODE := Node(0, NULL)
  const HASH_MIN_CAPACITY: nat := 16

  ghost function Home(key: Word, capacity: nat): (h: Word)
    requires IsCapacity(capacity)
    ensures h < capacity
  {
    CapacityBound(capacity);
    key % capacity
  }

  /** The probe loops stop at the key or at a null slot. */
  predicate Stops(node: Node, key: Word) {
    node.key == key || IsNull(node.value)
  }

  /** The slot looked at after n steps of the search for a key. */
  ghost function Visit(key: Word, n: nat, capacity: nat): (i: nat)
    requires IsCapacity(capacity)
    ensures i < capacity
  {
    Slot(Home(key, capacity), n, capacity)
  }

  lemma VisitNext(key: Word, n: nat, capacity: nat)
    requires IsCapacity(capacity)
    ensures Visit(key, n, capacity) < WORD_RANGE
    ensures Visit(key, n + 1, capacity) == NextIndex(Visit(key, n, capacity), capacity)
  {
    CapacityBound(capacity);
  }

  /** The first step, from step n on, at which the search stops; the capacity if it never does. */
  ghost function Seek(nodes: seq<Node>, key: Word, n: nat): (m: nat)
    requires IsCapacity(|nodes|) && n <= |nodes|
    ensures n <= m <= |nodes|
    ensures m < |nodes| ==> Stops(nodes[Visit(key, m, |nodes|)], key)
    ensures forall j: nat :: n <= j < m ==> !Stops(nodes[Visit(key, j, |nodes|)], key)
    decreases |nodes| - n
  {
    if n == |nodes| || Stops(nodes[Visit(key, n, |nodes|)], key) then n else Seek(nodes, key, n + 1)
  }

  /** The search for this key comes to an end. */
  ghost predicate Ends(nodes: seq<Node>, key: Word)
    requires IsCapacity(|nodes|)
  {
    Seek(nodes, key, 0) < |nodes|
  }

  /** The slot at which the search for a key ends. */
  ghost function At(nodes: seq<Node>, key: Word): (i: nat)
    requires IsCapacity(|nodes|) && Ends(nodes, key)
    ensures i < |nodes| && Stops(nodes[i], key)
  {
    Visit(key, Seek(nodes, key, 0), |nodes|)
  }

  lemma SeekUnique(nodes: seq<Node>, key: Word, n: nat)
    requires IsCapacity(|nodes|) && n < |nodes|
    requires Stops(nodes[Visit(key, n, |nodes|)], key)
    requires forall j: nat :: j < n ==> !Stops(nodes[Visit(key, j, |nodes|)], key)
    ensures Seek(nodes, key, 0) == n && Ends(nodes, key) && At(nodes, key) == Visit(key, n, |nodes|)
  {
  }

  /** A search ends exactly when some slot is null or already carries the key;
      otherwise it runs for ever. */
  lemma SearchEndsIff(nodes: seq<Node>, key: Word)
    requires IsCapacity(|nodes|)
    ensures Ends(nodes, key) <==> exists i :: 0 <= i < |nodes| && Stops(nodes[i], key)
    ensures !Ends(nodes, key) ==> forall n: nat :: !Stops(nodes[Visit(key, n, |nodes|)], key)
  {
    if i :| 0 <= i < |nodes| && Stops(nodes[i], key) {
      var n := FullPeriod(Home(key, |nodes|), i, |nodes|);
      assert Stops(nodes[Visit(key, n, |nodes|)], key);
    }
  }

  /** Slot i is where the search for its own key ends. */
  ghost predicate Leads(nodes: seq<Node>, i: nat)
    requires IsCapacity(|nodes|) && i < |nodes|
  {
    Ends(nodes, nodes[i].key) && At(nodes, nodes[i].key) == i
  }

  /** The table invariant: every slot in use, tombstones included, is reached
      by the search for its key, and null slots have key 0.  Keys in use are
      therefore distinct. */
  ghost predicate WellFormed(nodes: seq<Node>) {
    && IsCapacity(|nodes|)
    && forall i: nat :: i < |nodes| ==> if IsNull(nodes[i].value) then nodes[i].key == 0 else Leads(nodes, i)
  }

  lemma TableCapacity(nodes: seq<Node>)
    requires WellFormed(nodes)
    ensures IsCapacity(|nodes|)
  {
  }

  ghost function LiveSlots(nodes: seq<Node>): set<nat> {
    set i: nat | i < |nodes| && IsLive(nodes[i].value)
  }

  ghost function LiveKeys(nodes: seq<Node>): set<Word> {
    set i: nat | i < |nodes| && IsLive(nodes[i].value) :: nodes[i].key
  }

  /** The map a table stands for. */
  ghost function Contents(nodes: seq<Node>): map<Word, Word>
    requires WellFormed(nodes)
  {
    map key | key in LiveKeys(nodes) :: nodes[At(nodes, key)].value
  }

  lemma ContentsAt(nodes: seq<Node>, i: nat)
    requires WellFormed(nodes) && i < |nodes| && IsLive(nodes[i].value)
    ensures nodes[i].key in Contents(nodes) && Contents(nodes)[nodes[i].key] == nodes[i].value
  {
    assert Leads(nodes, i);
  }

  lemma KeyAt(nodes: seq<Node>, key: Word)
    requires WellFormed(nodes) && key in Contents(nodes)
    ensures Ends(nodes, key) && nodes[At(nodes, key)].key == key && IsLive(nodes[At(nodes, key)].value)
  {
    var i: nat :| i < |nodes| && IsLive(nodes[i].value) && nodes[i].key == key;
    assert Leads(nodes, i);
  }

  /** A map that has exactly the live slots of a table is its contents. */
  lemma ContentsUnique(nodes: seq<Node>, m: map<Word, Word>)
    requires WellFormed(nodes)
    requires forall i: nat :: i < |nodes| && IsLive(nodes[i].value) ==>
               nodes[i].key in m && m[nodes[i].key] == nodes[i].value
    requires forall key :: key in m ==> key in LiveKeys(nodes)
    ensures Contents(nodes) == m
  {
    forall key | key in m ensures key in Contents(nodes) && Contents(nodes)[key] == m[key] {
      var i: nat :| i < |nodes| && IsLive(nodes[i].value) && nodes[i].key == key;
      ContentsAt(nodes, i);
    }
  }

  // ----- hash_find -----

  ghost function FindIn(nodes: seq<Node>, key: Word): Word
    requires IsCapacity(|nodes|) && Ends(nodes, key)
  {
    var node := nodes[At(nodes, key)];
    if IsNull(node.value) then UNDEFINED else node.value
  }

  /** A search that ends answers with the stored value, or with an undefined
      word when the key is absent. */
  lemma FindIsLookup(nodes: seq<Node>, key: Word)
    requires WellFormed(nodes) && Ends(nodes, key)
    ensures key in Contents(nodes) ==> FindIn(nodes, key) == Contents(nodes)[key]
    ensures key !in Contents(nodes) ==> IsUndefined(FindIn(nodes, key))
  {
    var i := At(nodes, key);
    if IsLive(nodes[i].value) {
      ContentsAt(nodes, i);
    }
  }

  // ----- hash_set -----

  /** The first tombstone on the search path from step n on, or its last step. */
  ghost function Reuse(nodes: seq<Node>, key: Word, n: nat): (m: nat)
    requires IsCapacity(|nodes|) && Ends(nodes, key) && n <= Seek(nodes, key, 0)
    ensures n <= m <= Seek(nodes, key, 0)
    ensures m < Seek(nodes, key, 0) ==> IsUndefined(nodes[Visit(key, m, |nodes|)].value)
    ensures forall j: nat :: n <= j < m ==> !IsUndefined(nodes[Visit(key, j, |nodes|)].value)
    decreases Seek(nodes, key, 0) - n
  {
    if n == Seek(nodes, key, 0) || IsUndefined(nodes[Visit(key, n, |nodes|)].value) then n
    else Reuse(nodes, key, n + 1)
  }

  /** The slot hash_set writes: the one that carries the key, else the first
      tombstone of the path, else the null slot that ends it. */
  ghost function Target(nodes: seq<Node>, key: Word): (i: nat)
    requires IsCapacity(|nodes|) && Ends(nodes, key)
    ensures i < |nodes|
  {
    if nodes[At(nodes, key)].key == key then At(nodes, key)
    else Visit(key, Reuse(nodes, key, 0), |nodes|)
  }

  /** Storing null removes the entry. */
  function Stored(value: Word): Word {
    if IsNull(value) then UNDEFINED else value
  }

  ghost function SetIn(nodes: seq<Node>, key: Word, value: Word): (nodes': seq<Node>)
    requires IsCapacity(|nodes|) && Ends(nodes, key)
    ensures |nodes'| == |nodes|
  {
    nodes[Target(nodes, key) := Node(key, Stored(value))]
  }

  ghost function Updated(m: map<Word, Word>, key: Word, value: Word): map<Word, Word> {
    if IsLive(value) then m[key := value] else m - {key}
  }

  /** The written slot is on the path of its key, before the end or at it. */
  lemma TargetStep(nodes: seq<Node>, key: Word) returns (n: nat)
    requires WellFormed(nodes) && Ends(nodes, key)
    ensures n <= Seek(nodes, key, 0) && Target(nodes, key) == Visit(key, n, |nodes|)
    ensures !IsLive(nodes[Target(nodes, key)].value) || nodes[Target(nodes, key)].key == key
  {
    n := if nodes[At(nodes, key)].key == key then Seek(nodes, key, 0) else Reuse(nodes, key, 0);
  }

  /** Any other slot that carries the key is null. */
  lemma OtherSlots(nodes: seq<Node>, key: Word, j: nat)
    requires WellFormed(nodes) && Ends(nodes, key)
    requires j < |nodes| && j != Target(nodes, key) && !IsNull(nodes[j].value)
    ensures nodes[j].key != key
  {
    assert Leads(nodes, j);
  }

  /** Writing one slot leaves the search paths of all other slots as they were. */
  lemma SetKeepsPath(nodes: seq<Node>, key: Word, value: Word, j: nat)
    requires WellFormed(nodes) && Ends(nodes, key)
    requires j < |nodes| && j != Target(nodes, key) && !IsNull(nodes[j].value)
    ensures Leads(SetIn(nodes, key, value), j)
  {
    var nodes', t := SetIn(nodes, key, value), Target(nodes, key);
    OtherSlots(nodes, key, j);
    assert Leads(nodes, j);
    var other := nodes[j].key;
    var n := Seek(nodes, other, 0);
    forall i: nat | i < n ensures !Stops(nodes'[Visit(other, i, |nodes|)], other) {
      assert !Stops(nodes[Visit(other, i, |nodes|)], other);
    }
    SeekUnique(nodes', other, n);
  }

  lemma SetLeads(nodes: seq<Node>, key: Word, value: Word)
    requires WellFormed(nodes) && Ends(nodes, key)
    ensures Leads(SetIn(nodes, key, value), Target(nodes, key))
  {
    var nodes' := SetIn(nodes, key, value);
    var n := TargetStep(nodes, key);
    forall i: nat | i < n ensures !Stops(nodes'[Visit(key, i, |nodes|)], key) {
      assert !Stops(nodes[Visit(key, i, |nodes|)], key);
      SlotsDistinct(Home(key, |nodes|), i, n, |nodes|);
    }
    SeekUnique(nodes', key, n);
  }

  lemma SetKeepsWellFormed(nodes: seq<Node>, key: Word, value: Word)
    requires WellFormed(nodes) && Ends(nodes, key)
    ensures WellFormed(SetIn(nodes, key, value))
  {
    var nodes' := SetIn(nodes, key, value);
    forall j: nat | j < |nodes'|
      ensures if IsNull(nodes'[j].value) then nodes'[j].key == 0 else Leads(nodes', j)
    {
      if IsNull(nodes'[j].value) {
        assert nodes'[j] == nodes[j];
      } else if j == Target(nodes, key) {
        SetLeads(nodes, key, value);
      } else {
        SetKeepsPath(nodes, key, value, j);
      }
    }
  }

  lemma SetSlotLive(nodes: seq<Node>, key: Word, value: Word, i: nat)
    requires WellFormed(nodes) && Ends(nodes, key)
    requires i < |nodes| && IsLive(SetIn(nodes, key, value)[i].value)
    ensures var node, m := SetIn(nodes, key, value)[i], Updated(Contents(nodes), key, value);
      node.key in m && m[node.key] == node.value
  {
    if i != Target(nodes, key) {
      OtherSlots(nodes, key, i);
      ContentsAt(nodes, i);
    }
  }

  lemma SetKeyLive(nodes: seq<Node>, key: Word, value: Word, k: Word)
    requires WellFormed(nodes) && Ends(nodes, key)
    requires k in Updated(Contents(nodes), key, value)
    ensures k in LiveKeys(SetIn(nodes, key, value))
  {
    var nodes', t := SetIn(nodes, key, value), Target(nodes, key);
    if k == key {
      assert nodes'[t].key == k && IsLive(nodes'[t].value);
    } else {
      KeyAt(nodes, k);
      var i := At(nodes, k);
      var _ := TargetStep(nodes, key);
      assert nodes'[i] == nodes[i];
    }
  }

  /** hash_set is map update, or removal when the value is null or undefined. */
  lemma SetIsUpdate(nodes: seq<Node>, key: Word, value: Word)
    requires WellFormed(nodes) && Ends(nodes, key)
    ensures WellFormed(SetIn(nodes, key, value))
    ensures Contents(SetIn(nodes, key, value)) == Updated(Contents(nodes), key, value)
  {
    SetKeepsWellFormed(nodes, key, value);
    var nodes', m := SetIn(nodes, key, value), Updated(Contents(nodes), key, value);
    forall i: nat | i < |nodes'| && IsLive(nodes'[i].value)
      ensures nodes'[i].key in m && m[nodes'[i].key] == nodes'[i].value
    {
      SetSlotLive(nodes, key, value, i);
    }
    forall k | k in m ensures k in LiveKeys(nodes') {
      SetKeyLive(nodes, key, value, k);
    }
    ContentsUnique(nodes', m);
  }

  // ----- counting -----

  lemma {:induction false} KeysOfSlots(nodes: seq<Node>, s: set<nat>)
    requires WellFormed(nodes) && s <= LiveSlots(nodes)
    ensures |set i | i in s :: nodes[i].key| == |s|
    decreases |s|
  {
    if s != {} {
      var i :| i in s;
      KeysOfSlots(nodes, s - {i});
      assert Leads(nodes, i);
      forall j | j in s - {i} ensures nodes[j].key != nodes[i].key {
        assert Leads(nodes, j);
      }
      assert (set j | j in s :: nodes[j].key) == (set j | j in s - {i} :: nodes[j].key) + {nodes[i].key};
    }
  }

  /** A table has as many entries as live slots. */
  lemma ContentsSize(nodes: seq<Node>)
    requires WellFormed(nodes)
    ensures |Contents(nodes)| == |LiveSlots(nodes)| <= |nodes|
  {
    KeysOfSlots(nodes, LiveSlots(nodes));
    assert Contents(nodes).Keys == (set i | i in LiveSlots(nodes) :: nodes[i].key);
    SubsetSize(LiveSlots(nodes), Below(|nodes|));
  }

  lemma SubsetSize<T>(a: set<T>, b: set<T>)
    requires a <= b
    ensures |a| <= |b|
    ensures |a| == |b| ==> a == b
  {
    var rest := b - a;
    assert b == a + rest;
  }

  /** A slot that is not live leaves room for one more entry: the assertion of
      hash_set on a full table cannot fail. */
  lemma RoomForOne(nodes: seq<Node>, i: nat)
    requires WellFormed(nodes) && i < |nodes| && !IsLive(nodes[i].value)
    ensures |Contents(nodes)| < |nodes|
  {
    ContentsSize(nodes);
    SubsetSize(LiveSlots(nodes), Below(|nodes|));
    assert i in Below(|nodes|) && i !in LiveSlots(nodes);
  }

  ghost predicate NoTombstones(nodes: seq<Node>) {
    forall i :: 0 <= i < |nodes| ==> !IsUndefined(nodes[i].value)
  }

  /** Without tombstones, a table with fewer entries than slots lets every search end. */
  lemma FreeSlotEndsSearch(nodes: seq<Node>, key: Word)
    requires WellFormed(nodes) && NoTombstones(nodes) && |Contents(nodes)| < |nodes|
    ensures Ends(nodes, key)
  {
    ContentsSize(nodes);
    if forall i: nat :: i < |nodes| ==> IsLive(nodes[i].value) {
      assert LiveSlots(nodes) == Below(|nodes|);
    } else {
      var i: nat :| i < |nodes| && !IsLive(nodes[i].value);
      assert Stops(nodes[i], key);
      SearchEndsIff(nodes, key);
    }
  }

  // ----- hash_init and hash_rehash -----

  ghost function EmptyNodes(capacity: nat): (nodes: seq<Node>)
    ensures |nodes| == capacity
  {
    seq(capacity, _ => EMPTY_NODE)
  }

  lemma EmptyIsEmpty(capacity: nat)
    requires IsCapacity(capacity)
    ensures WellFormed(EmptyNodes(capacity)) && NoTombstones(EmptyNodes(capacity))
    ensures Contents(EmptyNodes(capacity)) == map[]
  {
  }

  ghost function CopySlot(dst: seq<Node>, node: Node): (nodes: seq<Node>)
    requires IsCapacity(|dst|)
    ensures |nodes| == |dst|
  {
    if IsLive(node.value) && Ends(dst, node.key) then SetIn(dst, node.key, node.value) else dst
  }

  /** The destination after hash_rehash has copied the first n slots of the source. */
  ghost function Rehash(dst: seq<Node>, src: seq<Node>, n: nat): (nodes: seq<Node>)
    requires IsCapacity(|dst|) && n <= |src|
    ensures |nodes| == |dst|
  {
    if n == 0 then dst else CopySlot(Rehash(dst, src, n - 1), src[n - 1])
  }

  lemma RehashNext(dst: seq<Node>, src: seq<Node>, n: nat)
    requires IsCapacity(|dst|) && n < |src|
    ensures Rehash(dst, src, 0) == dst
    ensures Rehash(dst, src, n + 1) == CopySlot(Rehash(dst, src, n), src[n])
  {
  }

  /** The entries that sit in the first n slots. */
  ghost function Prefix(nodes: seq<Node>, n: nat): map<Word, Word>
    requires WellFormed(nodes) && n <= |nodes|
  {
    map key | key in Contents(nodes) && At(nodes, key) < n :: Contents(nodes)[key]
  }

  lemma PrefixDead(nodes: seq<Node>, n: nat)
    requires WellFormed(nodes) && n < |nodes| && !IsLive(nodes[n].value)
    ensures Prefix(nodes, n + 1) == Prefix(nodes, n)
  {
    forall key | key in Contents(nodes) ensures At(nodes, key) != n {
      KeyAt(nodes, key);
    }
  }

  lemma PrefixLive(nodes: seq<Node>, n: nat)
    requires WellFormed(nodes) && n < |nodes| && IsLive(nodes[n].value)
    ensures Prefix(nodes, n + 1) == Prefix(nodes, n)[nodes[n].key := nodes[n].value]
    ensures |Prefix(nodes, n)| < |Contents(nodes)|
  {
    var p := Prefix(nodes, n);
    ContentsAt(nodes, n);
    assert Leads(nodes, n);
    forall key | key in Contents(nodes) && key != nodes[n].key ensures At(nodes, key) != n {
      KeyAt(nodes, key);
    }
    assert Prefix(nodes, n + 1) == p[nodes[n].key := nodes[n].value];
    SubsetSize(p.Keys, Contents(nodes).Keys - {nodes[n].key});
  }

  /** A table without tombstones that holds the entries of the first n slots of the source. */
  ghost predicate Copied(nodes: seq<Node>, src: seq<Node>, n: nat)
    requires WellFormed(src) && n <= |src|
  {
    WellFormed(nodes) && NoTombstones(nodes) && Contents(nodes) == Prefix(src, n)
  }

  /** Copying one more slot: the search for its key ends, because an entry is
      still missing and there are no tombstones. */
  lemma CopyOne(nodes: seq<Node>, src: seq<Node>, n: nat)
    requires WellFormed(src) && n < |src| && Copied(nodes, src, n) && |Contents(src)| <= |nodes|
    ensures IsLive(src[n].value) ==> Ends(nodes, src[n].key)
    ensures Copied(CopySlot(nodes, src[n]), src, n + 1)
  {
    var node := src[n];
    if IsLive(node.value) {
      PrefixLive(src, n);
      FreeSlotEndsSearch(nodes, node.key);
      SetIsUpdate(nodes, node.key, node.value);
      assert NoTombstones(SetIn(nodes, node.key, node.value));
    } else {
      PrefixDead(src, n);
    }
  }

  lemma CopiedNone(capacity: nat, src: seq<Node>)
    requires IsCapacity(capacity) && WellFormed(src)
    ensures Copied(EmptyNodes(capacity), src, 0)
  {
    EmptyIsEmpty(capacity);
    assert Prefix(src, 0) == map[];
  }

  /** Copying into an empty table with enough slots keeps the map and drops the tombstones. */
  lemma {:induction false} RehashCopies(capacity: nat, src: seq<Node>, n: nat) returns (nodes: seq<Node>)
    requires IsCapacity(capacity) && WellFormed(src) && n <= |src| && |Contents(src)| <= capacity
    ensures nodes == Rehash(EmptyNodes(capacity), src, n)
    ensures Copied(nodes, src, n)
    decreases n
  {
    hide Copied, CopySlot, WellFormed, Contents, IsCapacity, EmptyNodes;
    if n == 0 {
      nodes := EmptyNodes(capacity);
      CopiedNone(capacity, src);
    } else {
      var last := RehashCopies(capacity, src, n - 1);
      CopyOne(last, src, n - 1);
      nodes := CopySlot(last, src[n - 1]);
    }
  }

  lemma CopiedAll(nodes: seq<Node>, src: seq<Node>)
    requires WellFormed(src) && Copied(nodes, src, |src|)
    ensures WellFormed(nodes) && NoTombstones(nodes) && Contents(nodes) == Contents(src)
  {
    assert Prefix(src, |src|) == Contents(src);
  }

  /** hash_rehash into an empty table, as a whole. */
  lemma RehashAll(capacity: nat, src: seq<Node>)
    requires IsCapacity(capacity) && WellFormed(src) && |Contents(src)| <= capacity
    ensures WellFormed(Rehash(EmptyNodes(capacity), src, |src|))
    ensures NoTombstones(Rehash(EmptyNodes(capacity), src, |src|))
    ensures Contents(Rehash(EmptyNodes(capacity), src, |src|)) == Contents(src)
  {
    hide Copied, Rehash;
    var nodes := RehashCopies(capacity, src, |src|);
    CopiedAll(nodes, src);
  }
}
