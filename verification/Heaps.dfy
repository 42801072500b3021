/** The young generation's objects and what a copying collection has to keep:
  the mathematics behind src/young_gen.c. */
module Heaps {
  import opened Values
  import opened Probe
  import opened HashTables
  import opened HashRuns

  /** A heap header: an object with its table, a header that redirects to a
      larger table, or a header the collector has left behind. */
  datatype Obj =
    | Obj(kind: HashType, info: Info, size: nat, nodes: seq<Node>)
    | Redirect(to: Word)
    | GcLeft(to: Word)

  type Heap = map<Word, Obj>

  const YOUNG_GEN_BLOCK_SIZE: nat := 0x200_0000
  /** sizeof(YoungGenBlock): two counters and one bitmap bit for every word of the block. */
  const BLOCK_HEADER: nat := 0x10_0008

  /** _hash_total_size: sizeof(Hash) is 20 and sizeof(HashNode) is 8. */
  function TotalSize(capacity: nat): nat {
    20 + 8 * capacity
  }

  /** Userdata has no slots; every other object has a well-formed table with its entries counted. */
  ghost predicate TableOk(o: Obj) {
    && o.Obj?
    && o.kind in {HT_OBJECT, HT_ARRAY, HT_LIGHTFUNC, HT_CLOSURE, HT_USERDATA}
    && (if o.kind == HT_USERDATA then o.nodes == [] && o.size == 0
        else WellFormed(o.nodes) && o.size == |Contents(o.nodes)|)
  }

  ghost function Entries(o: Obj): map<Word, Word>
    requires TableOk(o)
  {
    if o.kind == HT_USERDATA then map[] else Contents(o.nodes)
  }

  /** A slot that holds a pointer. */
  predicate HoldsPtr(node: Node) {
    IsLive(node.value) && IsPtr(node.value)
  }

  ghost predicate PtrsIn(o: Obj, s: set<Word>) {
    o.Obj? ==> forall i: nat :: i < |o.nodes| && HoldsPtr(o.nodes[i]) ==> o.nodes[i].value in s
  }

  /** Addresses of objects proper, as opposed to redirect headers. */
  ghost function Objects(h: Heap): set<Word> {
    set a | a in h && h[a].Obj?
  }

  /** A heap between collections: tables are well formed and fields point at
      objects, never at redirect headers. */
  ghost predicate HeapOk(h: Heap) {
    forall a :: a in h ==>
      !h[a].GcLeft? && (h[a].Obj? ==> TableOk(h[a]) && PtrsIn(h[a], Objects(h)))
  }

  /** A set of objects that contains the objects its members point at. */
  ghost predicate Closed(h: Heap, s: set<Word>) {
    s <= Objects(h) && forall a :: a in s ==> PtrsIn(h[a], s)
  }

  // ----- forwarding -----

  /** Where the collector has moved each object it has left. */
  ghost function Fwd(c: Heap): map<Word, Word> {
    map a | a in c && c[a].GcLeft? :: c[a].to
  }

  ghost function Forward(f: map<Word, Word>, v: Word): Word {
    if IsLive(v) && IsPtr(v) && v in f then f[v] else v
  }

  ghost function ForwardAll(f: map<Word, Word>, m: map<Word, Word>): map<Word, Word> {
    map k | k in m :: Forward(f, m[k])
  }

  ghost function ForwardNode(f: map<Word, Word>, node: Node): Node {
    Node(node.key, Forward(f, node.value))
  }

  /** o' is a copy of o: same type and info, same keys, and every pointer moved. */
  ghost predicate CopyOf(o: Obj, o': Obj, f: map<Word, Word>) {
    && TableOk(o) && TableOk(o')
    && o'.kind == o.kind && o'.info == o.info
    && PtrsIn(o, f.Keys)
    && Entries(o') == ForwardAll(f, Entries(o))
  }

  ghost predicate Extends(f: map<Word, Word>, f': map<Word, Word>) {
    forall a :: a in f ==> a in f' && f'[a] == f[a]
  }

  lemma EntryIsSlot(nodes: seq<Node>, k: Word) returns (i: nat)
    requires WellFormed(nodes) && k in Contents(nodes)
    ensures i < |nodes| && nodes[i].key == k && nodes[i].value == Contents(nodes)[k] && IsLive(nodes[i].value)
  {
    KeyAt(nodes, k);
    i := At(nodes, k);
    ContentsAt(nodes, i);
  }

  // ----- moving the pointers of a table -----

  /** Slots that carry the same keys and are null, tombstone or live alike. */
  ghost predicate SameShape(nodes: seq<Node>, nodes': seq<Node>) {
    && |nodes'| == |nodes|
    && forall i: nat :: i < |nodes| ==>
      && nodes'[i].key == nodes[i].key
      && (IsNull(nodes'[i].value) <==> IsNull(nodes[i].value))
      && (IsLive(nodes'[i].value) <==> IsLive(nodes[i].value))
  }

  lemma SameShapeSeek(nodes: seq<Node>, nodes': seq<Node>, key: Word)
    requires IsCapacity(|nodes|) && SameShape(nodes, nodes')
    ensures Seek(nodes', key, 0) == Seek(nodes, key, 0)
  {
    var n := Seek(nodes, key, 0);
    hide IsCapacity, Visit;
    if n < |nodes| {
      forall j: nat | j < n ensures !Stops(nodes'[Visit(key, j, |nodes|)], key) {
        assert !Stops(nodes[Visit(key, j, |nodes|)], key);
      }
      SeekUnique(nodes', key, n);
    } else {
      forall j: nat | j < |nodes| ensures !Stops(nodes'[Visit(key, j, |nodes|)], key) {
        assert !Stops(nodes[Visit(key, j, |nodes|)], key);
      }
    }
  }

  lemma SameShapeWellFormed(nodes: seq<Node>, nodes': seq<Node>)
    requires WellFormed(nodes) && SameShape(nodes, nodes')
    ensures WellFormed(nodes')
  {
    hide Seek, Visit;
    forall i: nat | i < |nodes'| && !IsNull(nodes'[i].value) ensures Leads(nodes', i) {
      assert Leads(nodes, i);
      SameShapeSeek(nodes, nodes', nodes[i].key);
    }
  }

  /** Moving every pointer of a table moves every pointer of its map. */
  lemma ForwardTable(nodes: seq<Node>, nodes': seq<Node>, f: map<Word, Word>)
    requires WellFormed(nodes) && SameShape(nodes, nodes')
    requires forall i: nat :: i < |nodes| ==> nodes'[i] == ForwardNode(f, nodes[i])
    ensures WellFormed(nodes') && Contents(nodes') == ForwardAll(f, Contents(nodes))
  {
    SameShapeWellFormed(nodes, nodes');
    hide WellFormed, Contents;
    var m := ForwardAll(f, Contents(nodes));
    forall i: nat | i < |nodes'| && IsLive(nodes'[i].value)
      ensures nodes'[i].key in m && m[nodes'[i].key] == nodes'[i].value
    {
      ContentsAt(nodes, i);
    }
    forall key | key in m ensures key in LiveKeys(nodes') {
      var i := EntryIsSlot(nodes, key);
      assert IsLive(nodes'[i].value) && nodes'[i].key == key;
    }
    ContentsUnique(nodes', m);
  }

  // ----- sizes -----

  ghost function Sum(ext: map<Word, nat>, s: set<Word>): nat
    requires s <= ext.Keys
  {
    if s == {} then 0
    else
      var x :| x in s;
      ext[x] + Sum(ext, s - {x})
  }

  lemma {:induction false} SumAdd(ext: map<Word, nat>, s: set<Word>, x: Word)
    requires s <= ext.Keys && x in ext && x !in s
    ensures Sum(ext, s + {x}) == Sum(ext, s) + ext[x]
    decreases |s|
  {
    var t := s + {x};
    var y :| y in t && Sum(ext, t) == ext[y] + Sum(ext, t - {y});
    if y == x {
      assert t - {y} == s;
    } else {
      SumAdd(ext, s - {y}, x);
      assert t - {y} == (s - {y}) + {x};
      SumAdd(ext, s - {y}, y);
      assert s == (s - {y}) + {y};
    }
  }

  lemma {:induction false} SumSubset(ext: map<Word, nat>, s: set<Word>, t: set<Word>)
    requires s <= t <= ext.Keys
    ensures Sum(ext, s) <= Sum(ext, t)
    decreases |t - s|
  {
    if x :| x in t - s {
      SumSubset(ext, s + {x}, t);
      SumAdd(ext, s, x);
    } else {
      assert s == t;
    }
  }

  lemma {:induction false} SumSame(ext: map<Word, nat>, ext': map<Word, nat>, s: set<Word>)
    requires s <= ext.Keys && s <= ext'.Keys && forall x :: x in s ==> ext[x] == ext'[x]
    ensures Sum(ext, s) == Sum(ext', s)
    decreases |s|
  {
    if s != {} {
      var x :| x in s;
      SumSame(ext, ext', s - {x});
      SumAdd(ext, s - {x}, x);
      SumAdd(ext', s - {x}, x);
      assert s == (s - {x}) + {x};
    }
  }

  lemma SumWith(ext: map<Word, nat>, x: Word, size: nat)
    requires x !in ext
    ensures Sum(ext[x := size], ext[x := size].Keys) == Sum(ext, ext.Keys) + size
  {
    hide Sum;
    var ext' := ext[x := size];
    SumSame(ext, ext', ext.Keys);
    SumAdd(ext', ext.Keys, x);
    assert ext'.Keys == ext.Keys + {x};
  }
}
