/** The hash table object of src/hash.c. */
module Hashes {
  import opened Values
  import opened Probe
  import opened HashTables
  import opened HashRuns

  class Hash {
    var kind: HashType
    var info: Info
    var capacity: nat
    var size: nat
    const content: array<Node>

    ghost predicate Valid()
      reads this, content
    {
      && capacity == content.Length
      && WellFormed(content[..])
      && size == |Contents(content[..])|
    }

    ghost function Map(): map<Word, Word>
      requires Valid()
      reads this, content
    {
      Contents(content[..])
    }

    /** hash_init */
    constructor (capacity: nat, kind: HashType)
      requires IsCapacity(capacity)
      ensures Valid() && fresh(content)
      ensures this.capacity == capacity && this.kind == kind
      ensures content[..] == EmptyNodes(capacity) && Map() == map[]
    {
      this.kind, this.info, this.capacity, this.size := kind, Info(0, 0), capacity, 0;
      content := new Node[capacity](_ => EMPTY_NODE);
      new;
      assert content[..] == EmptyNodes(capacity);
      EmptyIsEmpty(capacity);
    }

    /** A table that is already in memory. */
    constructor At(kind: HashType, info: Info, size: nat, nodes: seq<Node>)
      requires WellFormed(nodes) && size == |Contents(nodes)|
      ensures Valid() && fresh(content) && content[..] == nodes
      ensures this.capacity == |nodes| && this.size == size && this.kind == kind && this.info == info
    {
      this.kind, this.info, this.capacity, this.size := kind, info, |nodes|, size;
      content := new Node[|nodes|](i requires 0 <= i < |nodes| => nodes[i]);
      new;
      assert content[..] == nodes;
    }

    /** hash_new */
    static method New(capacity: nat) returns (h: Hash)
      requires capacity < HASH_MIN_CAPACITY || IsCapacity(capacity)
      ensures fresh(h) && fresh(h.content) && h.Valid()
      ensures h.content[..] == EmptyNodes(NewCapacity(capacity)) && h.kind == HT_OBJECT
    {
      var c := capacity;
      if c < HASH_MIN_CAPACITY {
        c := HASH_MIN_CAPACITY;
        assert Pow2(4) == c;
      }
      h := new Hash(c, HT_OBJECT);
    }

    /** hash_find: the mask `key & (capacity - 1)` starts the search. */
    method Find(key: Word) returns (value: Word)
      requires Valid() && Ends(content[..], key)
      ensures value == FindIn(content[..], key)
      ensures key in Map() ==> value == Map()[key]
      ensures key !in Map() ==> IsUndefined(value)
    {
      hide WellFormed, Contents, Seek, Visit, NextIndex, BitAnd;
      ghost var nodes := content[..];
      ghost var n: nat := 0;
      TableCapacity(nodes);
      MaskIsHome(key, capacity);
      var index := BitAnd(key, capacity - 1);
      while content[index].key != key && !IsNull(content[index].value)
        invariant n <= Seek(nodes, key, 0) && index == Visit(key, n, |nodes|)
        decreases Seek(nodes, key, 0) - n
      {
        VisitNext(key, n, capacity);
        index := NextIndex(index, capacity);
        n := n + 1;
      }
      FindIsLookup(nodes, key);
      if IsNull(content[index].value) {
        value := UNDEFINED;
      } else {
        value := content[index].value;
      }
    }

    /** hash_set */
    method Set(key: Word, value: Word)
      requires Valid() && Ends(content[..], key)
      modifies this`size, content
      ensures content[..] == SetIn(old(content[..]), key, value)
      ensures Valid() && Map() == Updated(old(Map()), key, value)
    {
      hide WellFormed, Contents, Seek, Visit, NextIndex, Reuse;
      ghost var nodes := content[..];
      ghost var n: nat := 0;
      TableCapacity(nodes);
      var index: nat := Remainder(key, capacity);
      var slot := capacity;
      var stored := value;
      if IsNull(value) {
        stored := UNDEFINED;
      }
      while content[index].key != key && !IsNull(content[index].value)
        invariant content[..] == nodes && size == old(size)
        invariant n <= Seek(nodes, key, 0) && index == Visit(key, n, |nodes|)
        invariant if slot == capacity then Reuse(nodes, key, 0) >= n
                  else Reuse(nodes, key, 0) < n && slot == Visit(key, Reuse(nodes, key, 0), |nodes|)
        decreases Seek(nodes, key, 0) - n
      {
        if slot == capacity && IsUndefined(content[index].value) {
          slot := index;
        }
        VisitNext(key, n, capacity);
        index := NextIndex(index, capacity);
        n := n + 1;
      }
      if content[index].key == key {
        slot := index;
      }
      if slot == capacity {
        slot := index;
      }
      assert slot == Target(nodes, key);
      ghost var _ := TargetStep(nodes, key);
      SetIsUpdate(nodes, key, value);
      CountAfterSet(nodes, key, value);
      if !IsUndefined(stored) && (IsNull(content[slot].value) || IsUndefined(content[slot].value)) {
        assert size != capacity;
        size := size + 1;
      }
      if IsUndefined(stored) && !IsUndefined(content[slot].value) && !IsNull(content[slot].value) {
        assert size > 0;
        size := size - 1;
      }
      content[slot] := Node(key, stored);
      assert content[..] == SetIn(nodes, key, value);
    }

    /** hash_rehash, into a new table with room for every entry of the source. */
    method Rehash(src: Hash)
      requires Valid() && src.Valid() && src != this && src.content != content
      requires content[..] == EmptyNodes(capacity) && src.size <= capacity
      modifies this, content
      ensures Valid() && capacity == old(capacity) && kind == old(kind) && info == src.info
      ensures content[..] == HashTables.Rehash(EmptyNodes(capacity), src.content[..], src.capacity)
      ensures NoTombstones(content[..]) && Map() == src.Map()
    {
      hide WellFormed, Contents, SetIn, Ends, HashTables.Rehash, Copied, EmptyNodes, NoTombstones;
      ghost var nodes := src.content[..];
      TableCapacity(content[..]);
      TableCapacity(nodes);
      info := src.info;
      var i := 0;
      CapacityBound(src.capacity);
      RehashNext(EmptyNodes(capacity), nodes, 0);
      ghost var _ := RehashCopies(capacity, nodes, 0);
      while i < src.capacity
        invariant i <= src.capacity && src.content[..] == nodes && src.Valid()
        invariant Valid() && capacity == old(capacity) && kind == old(kind) && info == src.info
        invariant content[..] == HashTables.Rehash(EmptyNodes(capacity), nodes, i)
        invariant Copied(content[..], nodes, i)
      {
        CopyOne(content[..], nodes, i);
        RehashNext(EmptyNodes(capacity), nodes, i);
        var node := src.content[i];
        if !IsUndefined(node.value) && !IsNull(node.value) {
          Set(node.key, node.value);
        }
        i := i + 1;
      }
      CopiedAll(content[..], nodes);
    }

    /** hash_expand */
    method Expand() returns (h: Hash)
      requires Valid() && capacity < SIGN_BIT
      ensures fresh(h) && fresh(h.content) && h.Valid()
      ensures h.content[..] == Expanded(content[..])
      ensures NoTombstones(h.content[..]) && h.Map() == Map()
    {
      DoubleCapacity(capacity);
      ContentsSize(content[..]);
      h := New(2 * capacity);
      h.Rehash(this);
    }

    /** hash_shrink */
    method Shrink() returns (h: Hash)
      requires Valid() && capacity > HASH_MIN_CAPACITY && size <= capacity / 2
      ensures fresh(h) && fresh(h.content) && h.Valid()
      ensures h.content[..] == Halved(content[..])
      ensures NoTombstones(h.content[..]) && h.Map() == Map()
    {
      HalveCapacity(capacity);
      h := New(capacity / 2);
      h.Rehash(this);
    }

    /** hash_set_and_update: the caller's pointer becomes the returned table. */
    method SetAndUpdate(key: Word, value: Word) returns (h: Hash)
      requires Valid() && Ends(content[..], key) && capacity < SIGN_BIT
      modifies this`size, content
      ensures h.Valid() && (h == this || (fresh(h) && fresh(h.content)))
      ensures h.content[..] == HashRuns.SetAndUpdate(old(content[..]), key, value)
      ensures h.Map() == Updated(old(Map()), key, value)
    {
      hide SetIn, HashTables.Rehash, Contents;
      Set(key, value);
      GrownKeeps(content[..]);
      ShrunkKeeps(Grown(content[..]));
      h := this;
      if NeedExpand(h.size, h.capacity) {
        h := h.Expand();
      }
      if NeedShrink(h.size, h.capacity) {
        h := h.Shrink();
      }
    }
  }

  lemma MaskIsHome(key: Word, capacity: nat)
    requires IsCapacity(capacity)
    ensures capacity > 0 && BitAnd(key, capacity - 1) == Visit(key, 0, capacity)
  {
    var k: nat :| k < 32 && capacity == Pow2(k);
    MaskIsRemainder(key, k, capacity);
  }

  /** `key % capacity` */
  function Remainder(key: Word, capacity: nat): (r: nat)
    requires IsCapacity(capacity)
    ensures r == Visit(key, 0, capacity)
  {
    key % capacity
  }

  /** The size field after hash_set is again the number of entries. */
  lemma CountAfterSet(nodes: seq<Node>, key: Word, value: Word)
    requires WellFormed(nodes) && Ends(nodes, key)
    ensures var was, now := nodes[Target(nodes, key)].value, |Updated(Contents(nodes), key, value)|;
      && (IsLive(value) && !IsLive(was) ==> |Contents(nodes)| < |nodes| && now == |Contents(nodes)| + 1)
      && (!IsLive(value) && IsLive(was) ==> |Contents(nodes)| > 0 && now == |Contents(nodes)| - 1)
      && ((IsLive(value) <==> IsLive(was)) ==> now == |Contents(nodes)|)
  {
    var t := Target(nodes, key);
    var _ := TargetStep(nodes, key);
    if IsLive(nodes[t].value) {
      ContentsAt(nodes, t);
    } else {
      RoomForOne(nodes, t);
      if key in Contents(nodes) {
        KeyAt(nodes, key);
      }
    }
  }
}
