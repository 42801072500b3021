/** Field writes that outgrow their table: _cvm_set_hash_in_register of
  src/cvm.c, and why no alias can tell. */
module Aliasing {
  import opened Values
  import opened Probe
  import opened HashTables
  import opened HashRuns
  import opened Heaps
  import opened Redirects

  /** An object whose table can be searched: any kind but userdata. */
  ghost predicate HasTable(o: Obj) {
    TableOk(o) && o.kind != HT_USERDATA
  }

  /** hash_set on an object of the heap. */
  ghost function SetObj(o: Obj, key: Word, value: Word): Obj
    requires HasTable(o) && Ends(o.nodes, key)
  {
    SetIsUpdate(o.nodes, key, value);
    Obj(o.kind, o.info, |Contents(SetIn(o.nodes, key, value))|, SetIn(o.nodes, key, value))
  }

  /** The copy in a table of twice the capacity. */
  ghost function GrownObj(o: Obj): Obj
    requires HasTable(o) && |o.nodes| < SIGN_BIT
  {
    DoubleIsCapacity(|o.nodes|);
    Obj(o.kind, o.info, o.size, Resized(o.nodes, 2 * |o.nodes|))
  }

  lemma SetObjEntries(o: Obj, key: Word, value: Word)
    requires HasTable(o) && Ends(o.nodes, key)
    ensures HasTable(SetObj(o, key, value))
    ensures Entries(SetObj(o, key, value)) == Updated(Entries(o), key, value)
    ensures |SetObj(o, key, value).nodes| == |o.nodes|
  {
    SetIsUpdate(o.nodes, key, value);
    hide WellFormed, Contents, SetIn;
  }

  lemma GrownObjEntries(o: Obj)
    requires HasTable(o) && |o.nodes| < SIGN_BIT
    ensures HasTable(GrownObj(o)) && Entries(GrownObj(o)) == Entries(o) && NoTombstones(GrownObj(o).nodes)
  {
    hide Contents, Rehash;
    TableCapacity(o.nodes);
    DoubleIsCapacity(|o.nodes|);
    ContentsSize(o.nodes);
    RehashAll(2 * |o.nodes|, o.nodes);
  }

  /** A write that hash_set can finish. */
  ghost predicate Writable(o: Obj, key: Word) {
    HasTable(o) && Ends(o.nodes, key) && |o.nodes| < SIGN_BIT
  }

  /** Does this write make the table expand? */
  ghost predicate Outgrows(o: Obj, key: Word, value: Word)
    requires Writable(o, key)
  {
    NeedExpand(SetObj(o, key, value).size, |o.nodes|)
  }

  /** The object after the write, in a larger table if need be. */
  ghost function SetResult(o: Obj, key: Word, value: Word): (o': Obj)
    requires Writable(o, key)
  {
    SetObjEntries(o, key, value);
    if Outgrows(o, key, value) then GrownObj(SetObj(o, key, value)) else SetObj(o, key, value)
  }

  lemma SetResultEntries(o: Obj, key: Word, value: Word)
    requires Writable(o, key)
    ensures HasTable(SetResult(o, key, value))
    ensures Entries(SetResult(o, key, value)) == Updated(Entries(o), key, value)
  {
    SetObjEntries(o, key, value);
    hide HasTable, Entries, SetObj, Ends, GrownObj, NeedExpand, TableOk;
    if Outgrows(o, key, value) {
      GrownObjEntries(SetObj(o, key, value));
    }
  }

  /** The table is replaced by one of twice the size when more than three quarters of it are taken. */
  lemma GrowsWhen(o: Obj, key: Word, value: Word)
    requires Writable(o, key) && |o.nodes| >= 4
    ensures o.Obj? && SetResult(o, key, value).Obj?
    ensures |SetResult(o, key, value).nodes|
         == if 4 * |Updated(Entries(o), key, value)| > 3 * |o.nodes| then 2 * |o.nodes| else |o.nodes|
  {
    SetObjEntries(o, key, value);
    SetIsUpdate(o.nodes, key, value);
    TableCapacity(o.nodes);
    Thresholds(SetObj(o, key, value).size, |o.nodes|);
    hide WellFormed, Contents, SetIn, NeedExpand, IsCapacity, Updated, Ends;
  }

  /** The object of `root` becomes o', in place or at the new address b with a
      redirect left behind. */
  ghost function Written(h: Heap, root: Word, b: Word, o': Obj, moved: bool): Heap {
    if moved then h[root := Redirect(b)][b := o'] else h[root := o']
  }

  /** The heap after a write to the object at `root`, with b the address of the
      larger table if one is needed. */
  ghost function SetHeap(h: Heap, root: Word, key: Word, value: Word, b: Word): Heap
    requires root in h && Writable(h[root], key)
  {
    Written(h, root, b, SetResult(h[root], key, value), Outgrows(h[root], key, value))
  }

  // ----- chains after a write -----

  /** Chains that end elsewhere are as they were; those that ended at the
      written object end there still, or at its larger table. */
  lemma {:induction false} ChaseAfter(h: Heap, root: Word, b: Word, o': Obj, moved: bool, a: Word, n: nat)
    returns (m: nat)
    requires root in h && h[root].Obj? && b !in h && o'.Obj?
    requires Chase(h, a, n).Some?
    ensures Chase(Written(h, root, b, o', moved), a, m)
         == Some(if Chase(h, a, n).value == root && moved then b else Chase(h, a, n).value)
    decreases n
  {
    var h' := Written(h, root, b, o', moved);
    if a == root {
      m := 1;
      assert Chase(h', b, 0) == if moved then Some(b) else None;
    } else if h[a].Redirect? {
      var k := ChaseAfter(h, root, b, o', moved, h[a].to, n - 1);
      m := k + 1;
    } else {
      m := 0;
    }
  }

  lemma RootAfter(h: Heap, root: Word, b: Word, o': Obj, moved: bool, a: Word)
    requires root in h && h[root].Obj? && b !in h && o'.Obj? && Resolves(h, a)
    ensures Resolves(Written(h, root, b, o', moved), a)
    ensures RootOf(Written(h, root, b, o', moved), a) == if RootOf(h, a) == root && moved then b else RootOf(h, a)
  {
    hide Chase, Written;
    var n := Hops(h, a);
    RootIs(h, a, n);
    var m := ChaseAfter(h, root, b, o', moved, a, n);
    RootIs(Written(h, root, b, o', moved), a, m);
  }

  /** What an address reads as: the map of the object it leads to. */
  ghost function View(h: Heap, a: Word): Option<map<Word, Word>> {
    if Resolves(h, a) && RootOf(h, a) in h && HasTable(h[RootOf(h, a)]) then Some(Entries(h[RootOf(h, a)])) else None
  }

  /** Two addresses that lead to the same object. */
  ghost predicate Aliases(h: Heap, a: Word, c: Word) {
    Resolves(h, a) && Resolves(h, c) && RootOf(h, a) == RootOf(h, c)
  }

  lemma WrittenView(h: Heap, root: Word, b: Word, o': Obj, moved: bool, a: Word)
    requires root in h && h[root].Obj? && b !in h && HasTable(o') && View(h, a).Some?
    ensures View(Written(h, root, b, o', moved), a)
         == Some(if RootOf(h, a) == root then Entries(o') else View(h, a).value)
  {
    HasTableIsObj(o');
    RootIsObject(h, a);
    hide HasTable, Entries, RootOf, Resolves;
    RootAfter(h, root, b, o', moved, a);
  }

  /** A redirect is invisible: after a write through one alias every alias of
      that object reads the updated map, all other objects read as before. */
  lemma SetIsTransparent(h: Heap, root: Word, key: Word, value: Word, b: Word, a: Word)
    requires root in h && Writable(h[root], key) && b !in h && View(h, a).Some?
    ensures View(SetHeap(h, root, key, value, b), a)
         == Some(if RootOf(h, a) == root then Updated(View(h, a).value, key, value) else View(h, a).value)
  {
    SetResultEntries(h[root], key, value);
    WritableIsObj(h[root], key);
    hide Writable, HasTable, Entries, SetResult, Outgrows, RootOf, Resolves, Written, Updated;
    WrittenView(h, root, b, SetResult(h[root], key, value), Outgrows(h[root], key, value), a);
  }

  /** No two addresses become or cease to be aliases by a write. */
  lemma SetKeepsAliases(h: Heap, root: Word, key: Word, value: Word, b: Word, a: Word, c: Word)
    requires root in h && Writable(h[root], key) && b !in h && Resolves(h, a) && Resolves(h, c)
    ensures Aliases(SetHeap(h, root, key, value, b), a, c) <==> Aliases(h, a, c)
  {
    var o', moved := SetResult(h[root], key, value), Outgrows(h[root], key, value);
    SetResultEntries(h[root], key, value);
    WritableIsObj(h[root], key);
    RootIsObject(h, a);
    RootIsObject(h, c);
    hide Writable, HasTable, Entries, SetResult, Outgrows, RootOf, Resolves;
    HasTableIsObj(o');
    RootAfter(h, root, b, o', moved, a);
    RootAfter(h, root, b, o', moved, c);
  }

  lemma WritableIsObj(o: Obj, key: Word)
    requires Writable(o, key)
    ensures o.Obj? && HasTable(o)
  {
  }

  lemma HasTableIsObj(o: Obj)
    requires HasTable(o)
    ensures o.Obj? && TableOk(o)
  {
  }

  // ----- what the collector needs -----

  ghost predicate SlotAt(o: Obj, root: Word) {
    o.Obj? && exists i: nat :: i < |o.nodes| && HoldsPtr(o.nodes[i]) && o.nodes[i].value == root
  }

  /** Some field of the heap points at this address. */
  ghost predicate FieldAt(h: Heap, root: Word) {
    exists a :: a in h && SlotAt(h[a], root)
  }

  lemma SlotsWithout(o: Obj, s: set<Word>, root: Word, b: Word)
    requires PtrsIn(o, s) && root != b
    ensures PtrsIn(o, s - {root} + {b}) <==> !SlotAt(o, root)
  {
    hide HoldsPtr;
    if i: nat :| o.Obj? && i < |o.nodes| && HoldsPtr(o.nodes[i]) && o.nodes[i].value == root {
      assert o.nodes[i].value !in s - {root} + {b};
    }
  }

  lemma ObjectsWritten(h: Heap, root: Word, b: Word, o': Obj)
    requires root in h && h[root].Obj? && b !in h && o'.Obj?
    ensures Objects(Written(h, root, b, o', true)) == Objects(h) - {root} + {b}
  {
  }

  lemma WrittenObject(h: Heap, root: Word, b: Word, o': Obj, a: Word)
    requires HeapOk(h) && root in h && b !in h && TableOk(o') && PtrsIn(o', Objects(h))
    requires a in Written(h, root, b, o', true)
    ensures var o := Written(h, root, b, o', true)[a];
      !o.GcLeft? && (o.Obj? ==> TableOk(o) && PtrsIn(o, Objects(h)))
  {
    HasTableObj(o');
    hide TableOk, Objects, PtrsIn;
  }

  /** The collector needs fields that point at objects, not at redirect headers.
      A write that expands an object keeps that exactly when no field points at
      the expanded object. */
  lemma ExpansionKeepsFields(h: Heap, root: Word, b: Word, o': Obj)
    requires HeapOk(h) && root in h && h[root].Obj? && b !in h && TableOk(o') && PtrsIn(o', Objects(h))
    ensures HeapOk(Written(h, root, b, o', true)) <==> !FieldAt(Written(h, root, b, o', true), root)
  {
    var h', s := Written(h, root, b, o', true), Objects(h);
    HasTableObj(o');
    ObjectsWritten(h, root, b, o');
    var s' := Objects(h');
    forall a | a in h'
      ensures !h'[a].GcLeft?
      ensures h'[a].Obj? ==> TableOk(h'[a])
      ensures (h'[a].Obj? ==> PtrsIn(h'[a], s')) <==> !SlotAt(h'[a], root)
    {
      WrittenObject(h, root, b, o', a);
      hide TableOk, Objects, PtrsIn, SlotAt, Written, HeapOk;
      if h'[a].Obj? {
        SlotsWithout(h'[a], s, root, b);
      } else {
        OnlyObjectsHaveSlots(h'[a], root);
      }
    }
    hide TableOk, Objects, PtrsIn, SlotAt, Written;
  }

  lemma HasTableObj(o: Obj)
    requires TableOk(o)
    ensures o.Obj?
  {
  }

  lemma OnlyObjectsHaveSlots(o: Obj, root: Word)
    requires !o.Obj?
    ensures !SlotAt(o, root)
  {
  }

  // ----- whole runs -----

  /** Programs hold addresses; behind them are objects known by a number. */
  datatype World = World(heap: Heap, ids: map<Word, nat>, store: map<nat, map<Word, Word>>)

  datatype Action =
    | New(address: Word, kind: HashType, id: nat)
    | Put(alias: Word, key: Word, value: Word, larger: Word)

  /** The heap implements the store: every known address reads as its object,
      and two addresses are aliases exactly when they name the same object. */
  ghost predicate Implements(w: World) {
    && (forall a :: a in w.ids ==> w.ids[a] in w.store && View(w.heap, a) == Some(w.store[w.ids[a]]))
    && (forall a, c :: a in w.ids && c in w.ids ==> (Aliases(w.heap, a, c) <==> w.ids[a] == w.ids[c]))
  }

  ghost predicate CanDo(w: World, action: Action) {
    match action
    case New(b, kind, id) =>
      b !in w.heap && id !in w.store && kind in {HT_OBJECT, HT_ARRAY, HT_CLOSURE, HT_LIGHTFUNC}
    case Put(a, key, _, b) =>
      && a in w.ids && b !in w.heap && Resolves(w.heap, a)
      && RootOf(w.heap, a) in w.heap && Writable(w.heap[RootOf(w.heap, a)], key)
  }

  ghost function NewObj(kind: HashType): Obj {
    Obj(kind, Info(0, 0), 0, EmptyNodes(HASH_MIN_CAPACITY))
  }

  /** What the program does, on the heap and on the store. */
  ghost function Do(w: World, action: Action): World
    requires CanDo(w, action)
  {
    match action
    case New(b, kind, id) =>
      World(w.heap[b := NewObj(kind)], w.ids[b := id], w.store[id := map[]])
    case Put(a, key, value, b) =>
      var root := RootOf(w.heap, a);
      var id := w.ids[a];
      World(SetHeap(w.heap, root, key, value, b),
            if Outgrows(w.heap[root], key, value) then w.ids[b := id] else w.ids,
            if id in w.store then w.store[id := Updated(w.store[id], key, value)] else w.store)
  }

  lemma {:induction false} ChaseMore(h: Heap, b: Word, o: Obj, a: Word, n: nat)
    requires b !in h && o.Obj? && Chase(h, a, n).Some?
    ensures Chase(h[b := o], a, n) == Chase(h, a, n)
    decreases n
  {
    if h[a].Redirect? {
      ChaseMore(h, b, o, h[a].to, n - 1);
    }
  }

  lemma NewKeepsViews(h: Heap, b: Word, o: Obj, a: Word)
    requires b !in h && o.Obj? && Resolves(h, a)
    ensures Resolves(h[b := o], a) && RootOf(h[b := o], a) == RootOf(h, a) && a != b && RootOf(h, a) != b
    ensures View(h[b := o], a) == View(h, a)
  {
    RootIsObject(h, a);
    var n := Hops(h, a);
    hide HasTable, Entries, Chase;
    RootIs(h, a, n);
    ChaseMore(h, b, o, a, n);
    RootIs(h[b := o], a, n);
  }

  /** After a write every known address reads as the store says. */
  lemma PutView(w: World, a: Word, key: Word, value: Word, b: Word, c: Word)
    requires Implements(w) && CanDo(w, Put(a, key, value, b)) && c in w.ids
    ensures View(SetHeap(w.heap, RootOf(w.heap, a), key, value, b), c)
         == Some(if w.ids[c] == w.ids[a] then Updated(w.store[w.ids[a]], key, value) else w.store[w.ids[c]])
  {
    hide Writable, HasTable, Entries, RootOf, Resolves, Chase, Updated, SetHeap;
    assert Aliases(w.heap, c, a) <==> w.ids[c] == w.ids[a];
    SetIsTransparent(w.heap, RootOf(w.heap, a), key, value, b, c);
  }

  /** The addresses known before a write. */
  lemma PutKeepsOld(w: World, a: Word, key: Word, value: Word, b: Word)
    requires Implements(w) && CanDo(w, Put(a, key, value, b))
    ensures Implements(World(SetHeap(w.heap, RootOf(w.heap, a), key, value, b), w.ids,
                             w.store[w.ids[a] := Updated(w.store[w.ids[a]], key, value)]))
  {
    hide View, Writable, RootOf, Resolves, SetHeap, Updated, Aliases;
    var root := RootOf(w.heap, a);
    var h' := SetHeap(w.heap, root, key, value, b);
    KnownResolve(w);
    forall c | c in w.ids
      ensures View(h', c) == Some(if w.ids[c] == w.ids[a] then Updated(w.store[w.ids[a]], key, value) else w.store[w.ids[c]])
    {
      PutView(w, a, key, value, b, c);
    }
    forall c, d | c in w.ids && d in w.ids ensures Aliases(h', c, d) <==> w.ids[c] == w.ids[d] {
      SetKeepsAliases(w.heap, root, key, value, b, c, d);
    }
  }

  /** Every write keeps the heap an implementation of the store. */
  lemma PutKeeps(w: World, a: Word, key: Word, value: Word, b: Word)
    requires Implements(w) && CanDo(w, Put(a, key, value, b))
    ensures Implements(Do(w, Put(a, key, value, b)))
  {
    KnownResolve(w);
    hide View, Writable, RootOf, Resolves, SetHeap, Updated, Aliases, Implements, Outgrows;
    var root, id := RootOf(w.heap, a), w.ids[a];
    PutKeepsOld(w, a, key, value, b);
    if Outgrows(w.heap[root], key, value) {
      PutLarger(w, a, key, value, b);
      ImplementsWith(SetHeap(w.heap, root, key, value, b), w.ids, w.store[id := Updated(w.store[id], key, value)], a, b);
    }
  }

  lemma NewKeepsAliases(h: Heap, b: Word, o: Obj, c: Word, d: Word)
    requires b !in h && o.Obj? && Resolves(h, c) && Resolves(h, d)
    ensures Aliases(h[b := o], c, d) <==> Aliases(h, c, d)
    ensures !Aliases(h[b := o], c, b)
  {
    RootIs(h[b := o], b, 0);
    hide RootOf, Resolves, Chase, HasTable, Entries;
    NewKeepsViews(h, b, o, c);
    NewKeepsViews(h, b, o, d);
  }

  lemma NewKeepsOld(w: World, b: Word, o: Obj)
    requires Implements(w) && b !in w.heap && o.Obj?
    ensures Implements(World(w.heap[b := o], w.ids, w.store))
    ensures b !in w.ids && forall c :: c in w.ids ==> !Aliases(w.heap[b := o], c, b)
  {
    hide RootOf, Resolves, View, Aliases;
    KnownResolve(w);
    forall c, d | c in w.ids && d in w.ids
      ensures Aliases(w.heap[b := o], c, d) <==> Aliases(w.heap, c, d)
      ensures !Aliases(w.heap[b := o], c, b)
    {
      NewKeepsAliases(w.heap, b, o, c, d);
    }
    forall c | c in w.ids ensures View(w.heap[b := o], c) == View(w.heap, c) {
      NewKeepsViews(w.heap, b, o, c);
    }
  }

  /** One more name for one more object. */
  lemma ImplementsNew(h: Heap, ids: map<Word, nat>, store: map<nat, map<Word, Word>>, b: Word, id: nat)
    requires Implements(World(h, ids, store)) && b !in ids && id !in store
    requires View(h, b) == Some(map[]) && forall c :: c in ids ==> !Aliases(h, c, b)
    ensures Implements(World(h, ids[b := id], store[id := map[]]))
  {
    ViewResolves(h, b);
    hide View, RootOf, Resolves;
  }

  /** A new object is a new name. */
  lemma NewKeeps(w: World, b: Word, kind: HashType, id: nat)
    requires Implements(w) && CanDo(w, New(b, kind, id))
    ensures Implements(Do(w, New(b, kind, id)))
  {
    NewObjOk(kind);
    RootIs(w.heap[b := NewObj(kind)], b, 0);
    hide Implements, HasTable, Entries, NewObj, RootOf, Resolves;
    NewKeepsOld(w, b, NewObj(kind));
    ImplementsNew(w.heap[b := NewObj(kind)], w.ids, w.store, b, id);
  }

  lemma NewObjOk(kind: HashType)
    requires kind in {HT_OBJECT, HT_ARRAY, HT_CLOSURE, HT_LIGHTFUNC}
    ensures NewObj(kind).Obj? && HasTable(NewObj(kind)) && Entries(NewObj(kind)) == map[]
  {
    MinimumIsCapacity();
    EmptyIsEmpty(HASH_MIN_CAPACITY);
  }

  /** A history of actions, each of which can be done when its turn comes. */
  ghost function DoAll(w: World, actions: seq<Action>): Option<World> {
    if actions == [] then Some(w)
    else
      var before := DoAll(w, actions[..|actions| - 1]);
      var action := actions[|actions| - 1];
      if before.Some? && CanDo(before.value, action) then Some(Do(before.value, action)) else None
  }

  /** Redirects are transparent over whole runs: however objects are aliased and
      however often their tables are replaced, every address reads as the object
      it names, in a store that knows nothing of tables or redirects. */
  lemma {:induction false} RunsAreTransparent(w: World, actions: seq<Action>)
    requires Implements(w) && DoAll(w, actions).Some?
    ensures Implements(DoAll(w, actions).value)
    decreases |actions|
  {
    hide Implements, Do, CanDo;
    if actions != [] {
      var last := |actions| - 1;
      RunsAreTransparent(w, actions[..last]);
      var before := DoAll(w, actions[..last]).value;
      match actions[last]
      case New(b, kind, id) => NewKeeps(before, b, kind, id);
      case Put(a, key, value, b) => PutKeeps(before, a, key, value, b);
    }
  }

  lemma PutLarger(w: World, a: Word, key: Word, value: Word, b: Word)
    requires Implements(w) && CanDo(w, Put(a, key, value, b)) && Outgrows(w.heap[RootOf(w.heap, a)], key, value)
    ensures b !in w.ids
    ensures Aliases(SetHeap(w.heap, RootOf(w.heap, a), key, value, b), a, b)
    ensures View(SetHeap(w.heap, RootOf(w.heap, a), key, value, b), b)
         == View(SetHeap(w.heap, RootOf(w.heap, a), key, value, b), a)
  {
    KnownResolve(w);
    hide Writable, HasTable, Entries, RootOf, Resolves, Chase, SetHeap, Outgrows;
    LargerTable(w.heap, RootOf(w.heap, a), key, value, b, a);
  }

  /** One more name for an object that has one already. */
  lemma ImplementsWith(h: Heap, ids: map<Word, nat>, store: map<nat, map<Word, Word>>, a: Word, b: Word)
    requires Implements(World(h, ids, store)) && a in ids && b !in ids && Aliases(h, a, b) && View(h, b) == View(h, a)
    ensures Implements(World(h, ids[b := ids[a]], store))
  {
    hide View, RootOf;
  }

  lemma KnownResolve(w: World)
    requires Implements(w)
    ensures forall a :: a in w.ids ==> Resolves(w.heap, a) && a in w.heap && w.ids[a] in w.store
  {
    hide HasTable, Entries, RootOf, Chase;
  }

  lemma ViewResolves(h: Heap, a: Word)
    requires View(h, a).Some?
    ensures Resolves(h, a)
  {
  }

  /** The larger table is one more name for the same object. */
  lemma LargerTable(h: Heap, root: Word, key: Word, value: Word, b: Word, a: Word)
    requires root in h && Writable(h[root], key) && b !in h && View(h, a).Some? && RootOf(h, a) == root
    requires Outgrows(h[root], key, value)
    ensures Aliases(SetHeap(h, root, key, value, b), a, b)
    ensures View(SetHeap(h, root, key, value, b), b) == View(SetHeap(h, root, key, value, b), a)
  {
    var o' := SetResult(h[root], key, value);
    SetResultEntries(h[root], key, value);
    WritableIsObj(h[root], key);
    hide Writable, HasTable, Entries, SetResult, Outgrows;
    HasTableIsObj(o');
    RootIs(SetHeap(h, root, key, value, b), b, 0);
    hide RootOf, Resolves, Chase;
    RootAfter(h, root, b, o', true, a);
  }

  /** hash_find through an address gives what the map it reads as says. */
  lemma FindThrough(h: Heap, a: Word, key: Word)
    requires View(h, a).Some? && Ends(h[RootOf(h, a)].nodes, key)
    ensures var v := FindIn(h[RootOf(h, a)].nodes, key);
            if key in View(h, a).value then v == View(h, a).value[key] else IsUndefined(v)
  {
    var o := h[RootOf(h, a)];
    hide Resolves, RootOf, Ends, FindIn, Contents, WellFormed;
    FindIsLookup(o.nodes, key);
  }

  /** A get through any alias, at any point of any run, returns the value the
      last set left under that key, or undefined. */
  lemma GetsAreTransparent(w: World, actions: seq<Action>, a: Word, key: Word)
    requires Implements(w) && DoAll(w, actions).Some?
    requires var w' := DoAll(w, actions).value;
             a in w'.ids && Resolves(w'.heap, a) && RootOf(w'.heap, a) in w'.heap
             && HasTable(w'.heap[RootOf(w'.heap, a)]) && Ends(w'.heap[RootOf(w'.heap, a)].nodes, key)
    ensures var w' := DoAll(w, actions).value;
            && w'.ids[a] in w'.store
            && var m, v := w'.store[w'.ids[a]], FindIn(w'.heap[RootOf(w'.heap, a)].nodes, key);
               if key in m then v == m[key] else IsUndefined(v)
  {
    hide DoAll, Resolves, RootOf, Ends, FindIn, Aliases, View;
    RunsAreTransparent(w, actions);
    FindThrough(DoAll(w, actions).value.heap, a, key);
  }
}
