/** Resizing (hash_expand, hash_shrink, hash_set_and_update of src/hash.h) and
  whole histories of updates. */
module HashRuns {
  import opened Values
  import opened Probe
  import opened HashTables

  /** hash_need_expand: more than three quarters are taken. */
  predicate NeedExpand(size: nat, capacity: nat) {
    size > capacity - capacity / 4
  }

  /** hash_need_shrink: less than half is taken, above the minimum capacity. */
  predicate NeedShrink(size: nat, capacity: nat) {
    capacity > HASH_MIN_CAPACITY && size < capacity / 2
  }

  /** The capacity hash_new settles on. */
  function NewCapacity(capacity: nat): nat {
    if capacity < HASH_MIN_CAPACITY then HASH_MIN_CAPACITY else capacity
  }

  lemma DoubleCapacity(capacity: nat)
    requires IsCapacity(capacity) && capacity < SIGN_BIT
    ensures IsCapacity(NewCapacity(2 * capacity)) && NewCapacity(2 * capacity) >= 2 * capacity
  {
    MinimumIsCapacity();
    DoubleIsCapacity(capacity);
  }

  lemma MinimumIsCapacity()
    ensures IsCapacity(HASH_MIN_CAPACITY) && Pow2(4) == HASH_MIN_CAPACITY
  {
    assert Pow2(4) == 16;
  }

  lemma HalveCapacity(capacity: nat)
    requires IsCapacity(capacity) && capacity > HASH_MIN_CAPACITY
    ensures IsCapacity(NewCapacity(capacity / 2)) && NewCapacity(capacity / 2) == capacity / 2 >= HASH_MIN_CAPACITY
  {
    MinimumIsCapacity();
    var k: nat :| k < 32 && capacity == Pow2(k);
    if k <= 4 {
      Pow2Monotone(k, 4);
      assert false;
    }
    Pow2Monotone(4, k - 1);
    assert capacity / 2 == Pow2(k - 1);
  }

  // ----- hash_normalize_capacity -----

  /** `1 << __builtin_ctz(x)` */
  function LowestBit(x: nat): nat
    requires x > 0
  {
    if x % 2 == 1 then 1 else 2 * LowestBit(x / 2)
  }

  /** `sizeof(size_t) * 8 - __builtin_clz(x)` */
  function BitLength(x: nat): nat {
    if x == 0 then 0 else 1 + BitLength(x / 2)
  }

  function NormalizeCapacity(expected: nat): nat
    requires expected > 0
  {
    if LowestBit(expected) == expected then expected else Pow2(BitLength(expected))
  }

  lemma {:induction false} LowestBitOfPower(x: nat)
    requires x > 0
    ensures LowestBit(x) == x ==> BitLength(x) > 0 && x == Pow2(BitLength(x) - 1)
    ensures forall k: nat :: x == Pow2(k) ==> LowestBit(x) == x
    decreases x
  {
    if x % 2 == 0 {
      LowestBitOfPower(x / 2);
      forall k: nat | x == Pow2(k) ensures LowestBit(x) == x {
        assert k > 0 && x / 2 == Pow2(k - 1);
      }
    } else {
      forall k: nat | x == Pow2(k) ensures LowestBit(x) == x {
        assert k == 0;
      }
    }
  }

  lemma {:induction false} BitLengthBounds(x: nat)
    requires x > 0
    ensures BitLength(x) > 0 && Pow2(BitLength(x) - 1) <= x < Pow2(BitLength(x))
    decreases x
  {
    if x > 1 {
      BitLengthBounds(x / 2);
    }
  }

  /** The normalized capacity is the smallest power of two that is large enough. */
  lemma NormalizeIsLeast(expected: nat, k: nat)
    requires expected > 0
    ensures expected <= NormalizeCapacity(expected)
    ensures exists j: nat :: NormalizeCapacity(expected) == Pow2(j)
    ensures Pow2(k) >= expected ==> Pow2(k) >= NormalizeCapacity(expected)
    ensures expected == Pow2(k) ==> NormalizeCapacity(expected) == expected
  {
    LowestBitOfPower(expected);
    BitLengthBounds(expected);
    var n := BitLength(expected);
    if k < n {
      Pow2Monotone(k, n - 1);
    } else {
      Pow2Monotone(n, k);
    }
    if LowestBit(expected) == expected {
      assert NormalizeCapacity(expected) == Pow2(n - 1);
    }
  }

  /** hash_expand and hash_shrink: a new table of the given capacity with the same entries. */
  ghost function Resized(nodes: seq<Node>, capacity: nat): (nodes': seq<Node>)
    requires IsCapacity(capacity)
    ensures |nodes'| == capacity
  {
    Rehash(EmptyNodes(capacity), nodes, |nodes|)
  }

  ghost function Expanded(nodes: seq<Node>): (nodes': seq<Node>)
    requires IsCapacity(|nodes|) && |nodes| < SIGN_BIT
    ensures |nodes'| == NewCapacity(2 * |nodes|) && IsCapacity(|nodes'|)
  {
    DoubleCapacity(|nodes|);
    Resized(nodes, NewCapacity(2 * |nodes|))
  }

  ghost function Halved(nodes: seq<Node>): (nodes': seq<Node>)
    requires IsCapacity(|nodes|) && |nodes| > HASH_MIN_CAPACITY
    ensures |nodes'| == |nodes| / 2 && IsCapacity(|nodes'|)
  {
    HalveCapacity(|nodes|);
    Resized(nodes, |nodes| / 2)
  }

  ghost function Grown(nodes: seq<Node>): (nodes': seq<Node>)
    requires WellFormed(nodes) && |nodes| < SIGN_BIT
    ensures IsCapacity(|nodes'|)
  {
    if NeedExpand(|Contents(nodes)|, |nodes|) then Expanded(nodes) else nodes
  }

  ghost function Shrunk(nodes: seq<Node>): (nodes': seq<Node>)
    requires WellFormed(nodes)
    ensures IsCapacity(|nodes'|)
  {
    if NeedShrink(|Contents(nodes)|, |nodes|) then Halved(nodes) else nodes
  }

  /** Expanding keeps the map; a table that was replaced has no tombstones and a free slot. */
  lemma GrownKeeps(nodes: seq<Node>)
    requires WellFormed(nodes) && |nodes| < SIGN_BIT
    ensures WellFormed(Grown(nodes)) && Contents(Grown(nodes)) == Contents(nodes)
    ensures NoTombstones(nodes) ==> NoTombstones(Grown(nodes))
    ensures |Grown(nodes)| != |nodes| ==>
              NoTombstones(Grown(nodes)) && |Contents(nodes)| < |Grown(nodes)| == NewCapacity(2 * |nodes|)
    ensures |Grown(nodes)| == |nodes| <==> !NeedExpand(|Contents(nodes)|, |nodes|)
  {
    hide Rehash, Contents;
    ContentsSize(nodes);
    CapacityBound(|nodes|);
    if NeedExpand(|Contents(nodes)|, |nodes|) {
      DoubleCapacity(|nodes|);
      RehashAll(NewCapacity(2 * |nodes|), nodes);
    }
  }

  /** Shrinking keeps the map; a table that was replaced has no tombstones and a free slot. */
  lemma ShrunkKeeps(nodes: seq<Node>)
    requires WellFormed(nodes)
    ensures WellFormed(Shrunk(nodes)) && Contents(Shrunk(nodes)) == Contents(nodes)
    ensures NoTombstones(nodes) ==> NoTombstones(Shrunk(nodes))
    ensures |Shrunk(nodes)| != |nodes| ==>
              NoTombstones(Shrunk(nodes)) && |Contents(nodes)| < |Shrunk(nodes)| == |nodes| / 2
    ensures |nodes| >= HASH_MIN_CAPACITY ==> HASH_MIN_CAPACITY <= |Shrunk(nodes)| <= |nodes|
  {
    hide Rehash, Contents;
    if NeedShrink(|Contents(nodes)|, |nodes|) {
      HalveCapacity(|nodes|);
      RehashAll(NewCapacity(|nodes| / 2), nodes);
    }
  }

  /** hash_set_and_update: set, then perhaps expand, then perhaps shrink. */
  ghost function SetAndUpdate(nodes: seq<Node>, key: Word, value: Word): (nodes': seq<Node>)
    requires WellFormed(nodes) && Ends(nodes, key) && |nodes| < SIGN_BIT
    ensures IsCapacity(|nodes'|)
  {
    SetIsUpdate(nodes, key, value);
    GrownKeeps(SetIn(nodes, key, value));
    Shrunk(Grown(SetIn(nodes, key, value)))
  }

  lemma SetAndUpdateIsUpdate(nodes: seq<Node>, key: Word, value: Word)
    requires WellFormed(nodes) && Ends(nodes, key) && |nodes| < SIGN_BIT
    ensures WellFormed(SetAndUpdate(nodes, key, value))
    ensures Contents(SetAndUpdate(nodes, key, value)) == Updated(Contents(nodes), key, value)
  {
    hide Contents, Grown, Shrunk, SetIn;
    SetIsUpdate(nodes, key, value);
    GrownKeeps(SetIn(nodes, key, value));
    ShrunkKeeps(Grown(SetIn(nodes, key, value)));
  }

  /** More than three quarters, and less than half above sixteen slots. */
  lemma Thresholds(size: nat, capacity: nat)
    requires IsCapacity(capacity) && capacity >= 4
    ensures NeedExpand(size, capacity) <==> 4 * size > 3 * capacity
    ensures NeedShrink(size, capacity) <==> capacity > 16 && 2 * size < capacity
  {
    var k: nat :| k < 32 && capacity == Pow2(k);
    assert k >= 2 by {
      if k < 2 {
        assert Pow2(1) == 2;
      }
    }
    assert capacity == 2 * Pow2(k - 1) == 4 * Pow2(k - 2);
  }

  /** An update doubles the table only when it is full, although it is copied from
      three quarters on: a copy that is not full is less than half full in the
      doubled table, which is halved again at once. */
  lemma CapacityAfter(nodes: seq<Node>, key: Word, value: Word)
    requires WellFormed(nodes) && Ends(nodes, key) && 16 <= |nodes| < SIGN_BIT
    ensures var n, c := |Updated(Contents(nodes), key, value)|, |nodes|;
            && n <= c
            && |SetAndUpdate(nodes, key, value)| == (if n == c then 2 * c else if c > 16 && 2 * n < c then c / 2 else c)
            && (4 * n > 3 * c ==> NoTombstones(SetAndUpdate(nodes, key, value)))
  {
    hide Contents, SetIn, NoTombstones, WellFormed, IsCapacity, NeedExpand, NeedShrink, Rehash, Ends, Updated;
    SetIsUpdate(nodes, key, value);
    var stored := SetIn(nodes, key, value);
    GrownKeeps(stored);
    var grown := Grown(stored);
    ShrunkKeeps(grown);
    ContentsSize(stored);
    TableCapacity(nodes);
    var n := |Contents(stored)|;
    Thresholds(n, |nodes|);
    Thresholds(n, |grown|);
  }

  /** The shape every insert-only history keeps: no tombstones, at least the
      minimum capacity, and a free slot. */
  ghost predicate Healthy(nodes: seq<Node>) {
    && WellFormed(nodes)
    && NoTombstones(nodes)
    && |nodes| >= HASH_MIN_CAPACITY
    && |Contents(nodes)| < |nodes|
  }

  /** Inserting or updating keeps a table healthy even when the insertion fills
      the last slot, and even when an expansion is undone by a shrink at once. */
  lemma InsertKeepsHealthy(nodes: seq<Node>, key: Word, value: Word)
    requires Healthy(nodes) && IsLive(value) && |nodes| < SIGN_BIT
    ensures Ends(nodes, key) && Healthy(SetAndUpdate(nodes, key, value))
    ensures |SetAndUpdate(nodes, key, value)| <= 4 * |Contents(SetAndUpdate(nodes, key, value))|
         || |SetAndUpdate(nodes, key, value)| <= |nodes|
  {
    FreeSlotEndsSearch(nodes, key);
    var stored := SetIn(nodes, key, value);
    SetIsUpdate(nodes, key, value);
    assert NoTombstones(stored);
    ContentsSize(stored);
    hide Contents, SetIn, Ends, NoTombstones, WellFormed, IsCapacity;
    GrownKeeps(stored);
    ShrunkKeeps(Grown(stored));
  }

  datatype Write = Write(key: Word, value: Word)

  /** The map a history of writes describes: each key has the last live value
      written to it, unless it was removed afterwards. */
  ghost function Replay(m: map<Word, Word>, writes: seq<Write>): map<Word, Word> {
    if writes == [] then m
    else
      var last := |writes| - 1;
      Updated(Replay(m, writes[..last]), writes[last].key, writes[last].value)
  }

  /** The table after a history of writes, if every search ended on the way. */
  ghost function Run(nodes: seq<Node>, writes: seq<Write>): (r: Option<seq<Node>>)
    requires WellFormed(nodes)
    ensures r.Some? ==> WellFormed(r.value) && Contents(r.value) == Replay(Contents(nodes), writes)
  {
    if writes == [] then Some(nodes)
    else
      var last := |writes| - 1;
      var before := Run(nodes, writes[..last]);
      if before.Some? && |before.value| < SIGN_BIT && Ends(before.value, writes[last].key) then
        SetAndUpdateIsUpdate(before.value, writes[last].key, writes[last].value);
        Some(SetAndUpdate(before.value, writes[last].key, writes[last].value))
      else None
  }

  /** The last value written to a key. */
  function LastWrite(writes: seq<Write>, key: Word): Option<Word> {
    if writes == [] then None
    else
      var last := |writes| - 1;
      if writes[last].key == key then Some(writes[last].value) else LastWrite(writes[..last], key)
  }

  /** What a history leaves under a key, read off its last write to that key. */
  lemma {:induction false} LastWriteWins(m: map<Word, Word>, writes: seq<Write>, key: Word)
    ensures match LastWrite(writes, key)
            case None => if key in m then key in Replay(m, writes) && Replay(m, writes)[key] == m[key]
                         else key !in Replay(m, writes)
            case Some(value) => if IsLive(value) then key in Replay(m, writes) && Replay(m, writes)[key] == value
                                else key !in Replay(m, writes)
    decreases |writes|
  {
    hide IsLive;
    if writes != [] {
      LastWriteWins(m, writes[..|writes| - 1], key);
    }
  }

  /** What hash_find has to give for a key after a history: the last value
      written, or, if there is none, what was there before; undefined after a removal. */
  ghost predicate Found(m: map<Word, Word>, writes: seq<Write>, key: Word, found: Word) {
    match LastWrite(writes, key)
    case None => if key in m then found == m[key] else IsUndefined(found)
    case Some(value) => if IsLive(value) then found == value else IsUndefined(found)
  }

  /** After any history of hash_set_and_update. */
  lemma FindAfterRun(nodes: seq<Node>, writes: seq<Write>, key: Word)
    requires WellFormed(nodes) && Run(nodes, writes).Some? && Ends(Run(nodes, writes).value, key)
    ensures Found(Contents(nodes), writes, key, FindIn(Run(nodes, writes).value, key))
  {
    hide Run, Contents, WellFormed, Ends, FindIn, Replay, LastWrite, IsLive;
    LastWriteWins(Contents(nodes), writes, key);
    FindIsLookup(Run(nodes, writes).value, key);
  }

  /** The table after a history of bare hash_set, if every search ended on the way. */
  ghost function Sets(nodes: seq<Node>, writes: seq<Write>): (r: Option<seq<Node>>)
    requires WellFormed(nodes)
    ensures r.Some? ==> WellFormed(r.value) && Contents(r.value) == Replay(Contents(nodes), writes)
  {
    if writes == [] then Some(nodes)
    else
      var last := |writes| - 1;
      var before := Sets(nodes, writes[..last]);
      if before.Some? && Ends(before.value, writes[last].key) then
        SetIsUpdate(before.value, writes[last].key, writes[last].value);
        Some(SetIn(before.value, writes[last].key, writes[last].value))
      else None
  }

  /** After any history of hash_set. */
  lemma FindAfterSets(nodes: seq<Node>, writes: seq<Write>, key: Word)
    requires WellFormed(nodes) && Sets(nodes, writes).Some? && Ends(Sets(nodes, writes).value, key)
    ensures Found(Contents(nodes), writes, key, FindIn(Sets(nodes, writes).value, key))
  {
    hide Sets, Contents, WellFormed, Ends, FindIn, Replay, LastWrite, IsLive;
    LastWriteWins(Contents(nodes), writes, key);
    FindIsLookup(Sets(nodes, writes).value, key);
  }

  /** Such a history is cut short exactly by a write whose search finds neither its
      key nor a null slot. */
  lemma SetsStuckIff(nodes: seq<Node>, writes: seq<Write>)
    requires WellFormed(nodes) && writes != [] && Sets(nodes, writes[..|writes| - 1]).Some?
    ensures var before, key := Sets(nodes, writes[..|writes| - 1]).value, writes[|writes| - 1].key;
            Sets(nodes, writes) == None <==> forall i :: 0 <= i < |before| ==> !Stops(before[i], key)
  {
    hide Contents, Ends, SetIn, Replay, Stops;
    var before, key := Sets(nodes, writes[..|writes| - 1]).value, writes[|writes| - 1].key;
    TableCapacity(before);
    SearchEndsIff(before, key);
  }

  /** Every history of inserts and updates that fits in memory runs to its end,
      and always leaves a power-of-two capacity of at least 16 with a free slot. */
  lemma {:induction false} InsertOnlyRun(nodes: seq<Node>, writes: seq<Write>)
    requires Healthy(nodes) && |nodes| < SIGN_BIT
    requires forall i :: 0 <= i < |writes| ==> IsLive(writes[i].value)
    requires |Contents(nodes)| + |writes| < SIGN_BIT / 4
    ensures Run(nodes, writes).Some? && Healthy(Run(nodes, writes).value)
    ensures |Contents(Run(nodes, writes).value)| <= |Contents(nodes)| + |writes|
    ensures |Run(nodes, writes).value| < SIGN_BIT
  {
    if writes != [] {
      var last := |writes| - 1;
      InsertOnlyRun(nodes, writes[..last]);
      var before := Run(nodes, writes[..last]).value;
      InsertKeepsHealthy(before, writes[last].key, writes[last].value);
      SetAndUpdateIsUpdate(before, writes[last].key, writes[last].value);
      hide Contents, SetAndUpdate, WellFormed, Ends, NoTombstones;
    }
  }

  // ----- removals can use up the null slots -----

  /** The table after removing the absent keys 0 .. n-1. */
  ghost function Graves(n: nat): (nodes: seq<Node>)
    ensures |nodes| == HASH_MIN_CAPACITY
  {
    seq(HASH_MIN_CAPACITY, i requires 0 <= i < HASH_MIN_CAPACITY => if i < n then Node(i, UNDEFINED) else EMPTY_NODE)
  }

  ghost function Removals(n: nat): seq<Write>
    requires n <= HASH_MIN_CAPACITY
  {
    seq(n, i requires 0 <= i < n => Write(i, UNDEFINED))
  }

  lemma RemoveAbsent(n: nat)
    requires n < HASH_MIN_CAPACITY && WellFormed(Graves(n))
    ensures Ends(Graves(n), n) && SetIn(Graves(n), n, UNDEFINED) == Graves(n + 1)
    ensures Contents(Graves(n)) == map[]
    ensures SetAndUpdate(Graves(n), n, UNDEFINED) == Graves(n + 1)
  {
    var nodes := Graves(n);
    assert Visit(n, 0, |nodes|) == n;
    SeekUnique(nodes, n, 0);
    assert SetIn(nodes, n, UNDEFINED) == Graves(n + 1);
    SetIsUpdate(nodes, n, UNDEFINED);
  }

  lemma {:induction false} RemovalsRun(n: nat)
    requires n <= HASH_MIN_CAPACITY
    ensures WellFormed(EmptyNodes(HASH_MIN_CAPACITY))
    ensures Run(EmptyNodes(HASH_MIN_CAPACITY), Removals(n)) == Some(Graves(n))
  {
    hide Contents, SetAndUpdate, Ends, WellFormed, IsCapacity;
    MinimumIsCapacity();
    EmptyIsEmpty(HASH_MIN_CAPACITY);
    if n == 0 {
      assert Graves(0) == EmptyNodes(HASH_MIN_CAPACITY);
    } else {
      RemovalsRun(n - 1);
      assert Removals(n)[..n - 1] == Removals(n - 1);
      assert Removals(n)[n - 1] == Write(n - 1, UNDEFINED);
      hide Graves, Removals, EmptyNodes;
      RemoveAbsent(n - 1);
    }
  }

  /** Free slots are not kept under removals: from a new table, removing the 16
      absent keys 0 to 15 leaves an empty map whose search for key 16 never ends.
      Tombstones are not counted by the load factor, so nothing resizes the table. */
  lemma RemovalsExhaust()
    ensures WellFormed(EmptyNodes(HASH_MIN_CAPACITY))
    ensures var r := Run(EmptyNodes(HASH_MIN_CAPACITY), Removals(HASH_MIN_CAPACITY));
      r.Some? && Contents(r.value) == map[] && !Ends(r.value, 16)
  {
    RemovalsRun(HASH_MIN_CAPACITY);
    hide Run, Removals, Contents;
    GravesAreFull(16);
  }

  lemma GravesAreFull(key: Word)
    requires key >= HASH_MIN_CAPACITY && WellFormed(Graves(HASH_MIN_CAPACITY))
    ensures Contents(Graves(HASH_MIN_CAPACITY)) == map[] && !Ends(Graves(HASH_MIN_CAPACITY), key)
  {
    var nodes := Graves(HASH_MIN_CAPACITY);
    assert forall i: nat :: i < |nodes| ==> nodes[i] == Node(i, UNDEFINED);
    assert LiveKeys(nodes) == {};
    hide Graves, Ends;
    SearchEndsIff(nodes, key);
  }
}
