/** What a finished collection has done: a renaming of exactly the reachable
  objects, or the loss of one. */
module Collections {
  import opened Values
  import opened Probe
  import opened HashTables
  import opened Heaps
  import opened Redirects
  import opened Marking

  /** The objects every closed set around the roots contains. */
  ghost function Reach(h: Heap, roots: set<Word>): set<Word> {
    set a | a in Objects(h) && forall s: set<Word> :: Closed(h, s) && roots <= s ==> a in s
  }

  lemma ReachIsClosed(h: Heap, roots: set<Word>)
    requires HeapOk(h) && roots <= Objects(h)
    ensures Closed(h, Reach(h, roots)) && roots <= Reach(h, roots)
  {
    hide TableOk;
    var r := Reach(h, roots);
    assert Closed(h, Objects(h));
    forall a | a in r ensures PtrsIn(h[a], r) {
      forall i: nat | i < |h[a].nodes| && HoldsPtr(h[a].nodes[i]) ensures h[a].nodes[i].value in r {
        var p := h[a].nodes[i].value;
        forall s: set<Word> | Closed(h, s) && roots <= s ensures p in s {
          assert a in s && PtrsIn(h[a], s);
        }
      }
    }
  }

  /** Reachability is least: it lies inside every closed set that contains the roots. */
  lemma ReachIsLeast(h: Heap, roots: set<Word>, s: set<Word>)
    requires Closed(h, s) && roots <= s
    ensures Reach(h, roots) <= s
  {
  }

  /** The new heap is the old one renamed: the renaming is one to one and onto,
      and every object is a copy of its original with all pointers renamed. */
  ghost predicate Isomorphic(h: Heap, h': Heap, f: map<Word, Word>) {
    && Bijective(f, h')
    && forall a :: a in f ==> a in h && f[a] in h' && CopyOf(h[a], h'[f[a]], f)
  }

  /** The pointers of a copy are new addresses. */
  lemma CopyPtrsIn(o: Obj, o': Obj, f: map<Word, Word>, s: set<Word>)
    requires CopyOf(o, o', f) && PtrTargets(f) && forall a :: a in f ==> f[a] in s
    ensures PtrsIn(o', s)
  {
    hide WellFormed, Contents;
    forall i: nat | i < |o'.nodes| && HoldsPtr(o'.nodes[i]) ensures o'.nodes[i].value in s {
      ContentsAt(o'.nodes, i);
      var k := o'.nodes[i].key;
      var j := EntryIsSlot(o.nodes, k);
      assert Entries(o')[k] == Forward(f, Entries(o)[k]);
      assert HoldsPtr(o.nodes[j]) ==> o.nodes[j].value in f;
    }
  }

  lemma CopyIsTable(o: Obj, o': Obj, f: map<Word, Word>)
    requires CopyOf(o, o', f)
    ensures o'.Obj? && TableOk(o')
  {
  }

  /** A renamed heap is a good heap: its pointers stay inside it. */
  lemma IsomorphicHeapOk(h: Heap, h': Heap, f: map<Word, Word>)
    requires Isomorphic(h, h', f) && PtrTargets(f)
    ensures HeapOk(h') && Objects(h') == h'.Keys
  {
    hide CopyOf, PtrsIn, TableOk, PtrTargets;
    forall b | b in h' ensures h'[b].Obj? && TableOk(h'[b]) && PtrsIn(h'[b], h'.Keys) {
      var a :| a in f && f[a] == b;
      CopyIsTable(h[a], h'[b], f);
      CopyPtrsIn(h[a], h'[b], f, h'.Keys);
    }
    assert Objects(h') == h'.Keys;
  }

  // ----- a heap without redirects in its fields -----

  /** Where each address leads. */
  ghost function RootMap(h: Heap): map<Word, Word> {
    map a | a in h && Resolves(h, a) :: RootOf(h, a)
  }

  ghost function PlainObj(g: map<Word, Word>, o: Obj): Obj {
    if o.Obj? then
      o.(nodes := seq(|o.nodes|, i requires 0 <= i < |o.nodes| => ForwardNode(g, o.nodes[i])))
    else o
  }

  /** The heap as programs see it: every field points at the object that it leads to. */
  ghost function Plain(h: Heap): Heap {
    map a | a in h :: PlainObj(RootMap(h), h[a])
  }

  lemma RootsArePtrs(base: Word, used: nat, h: Heap, ext: map<Word, nat>)
    requires HeapLeads(h) && InSpace(base, used, h, ext)
    ensures PtrTargets(RootMap(h))
  {
    hide InSpace, Resolves, RootOf, TableOk, PtrsIn;
    forall a | a in RootMap(h) ensures IsLive(RootMap(h)[a]) && IsPtr(RootMap(h)[a]) {
      LedToObject(h, a);
      AddressBlock(base, used, h, ext, RootOf(h, a));
    }
  }

  lemma ForwardShape(nodes: seq<Node>, nodes': seq<Node>, g: map<Word, Word>)
    requires PtrTargets(g) && |nodes'| == |nodes|
    requires forall i: nat :: i < |nodes| ==> nodes'[i] == ForwardNode(g, nodes[i])
    ensures SameShape(nodes, nodes')
  {
  }

  lemma PlainTable(g: map<Word, Word>, o: Obj)
    requires TableOk(o) && PtrTargets(g)
    ensures TableOk(PlainObj(g, o)) && Entries(PlainObj(g, o)) == ForwardAll(g, Entries(o))
  {
    hide WellFormed, Contents, PtrTargets, ForwardNode;
    var o' := PlainObj(g, o);
    if o.kind == HT_USERDATA {
      assert ForwardAll(g, Entries(o)) == map[];
    } else {
      ForwardShape(o.nodes, o'.nodes, g);
      ForwardTable(o.nodes, o'.nodes, g);
      assert ForwardAll(g, Entries(o)).Keys == Entries(o).Keys;
    }
  }

  lemma PlainObjects(h: Heap)
    ensures Objects(Plain(h)) == Objects(h) && Plain(h).Keys == h.Keys
  {
    hide RootMap;
  }

  /** Its fields point at objects. */
  lemma PlainIsFit(base: Word, used: nat, h: Heap, ext: map<Word, nat>)
    requires HeapLeads(h) && InSpace(base, used, h, ext)
    ensures HeapOk(Plain(h))
  {
    hide InSpace, Resolves, RootOf, TableOk, PtrTargets;
    RootsArePtrs(base, used, h, ext);
    PlainObjects(h);
    var p := Plain(h);
    forall a | a in p ensures !p[a].GcLeft? && (p[a].Obj? ==> TableOk(p[a]) && PtrsIn(p[a], Objects(p))) {
      if h[a].Obj? {
        PlainTable(RootMap(h), h[a]);
        PlainPtrs(h, a, Objects(p));
      }
    }
  }

  /** A pointer of an object, as programs see it, is where the field leads. */
  lemma PlainPtrs(h: Heap, a: Word, s: set<Word>)
    requires HeapLeads(h) && a in h && h[a].Obj?
    requires forall v :: Resolves(h, v) ==> RootOf(h, v) in s || RootOf(h, v) !in Objects(h)
    ensures PtrsIn(PlainObj(RootMap(h), h[a]), s)
  {
    hide Resolves, RootOf, TableOk;
    var o := h[a];
    forall i: nat | i < |o.nodes| && HoldsPtr(ForwardNode(RootMap(h), o.nodes[i]))
      ensures ForwardNode(RootMap(h), o.nodes[i]).value in s
    {
      if HoldsPtr(o.nodes[i]) {
        LedToObject(h, o.nodes[i].value);
      }
    }
  }

  /** A heap whose fields point at objects is the one that programs see. */
  lemma PlainOfFit(h: Heap)
    requires HeapOk(h)
    ensures Plain(h) == h
  {
    hide Resolves, RootOf, TableOk;
    forall a | a in h ensures PlainObj(RootMap(h), h[a]) == h[a] {
      if h[a].Obj? {
        forall i: nat | i < |h[a].nodes| ensures ForwardNode(RootMap(h), h[a].nodes[i]) == h[a].nodes[i] {
          if HoldsPtr(h[a].nodes[i]) {
            ObjectResolves(h, h[a].nodes[i].value);
          }
        }
      }
    }
  }

  /** All addresses that lead to some objects. */
  ghost function Behind(h: Heap, s: set<Word>): set<Word> {
    set a | a in h && Resolves(h, a) && RootOf(h, a) in s
  }

  /** What leads to reachable objects is all that a collection can meet. */
  lemma BehindIsCovered(h: Heap, r: set<Word>, base: Word, used: nat, ext: map<Word, nat>)
    requires HeapLeads(h) && Closed(Plain(h), r) && InSpace(base, used, h, ext)
    ensures Covered(h, Behind(h, r))
  {
    hide Resolves, RootOf, TableOk, InSpace;
    RootsArePtrs(base, used, h, ext);
    PlainObjects(h);
    forall a | a in Behind(h, r)
      ensures Resolves(h, a) && RootOf(h, a) in Behind(h, r) && PtrsIn(h[a], Behind(h, r))
    {
      RootIsObject(h, a);
      LedToObject(h, a);
      if h[a].Obj? {
        forall i: nat | i < |h[a].nodes| && HoldsPtr(h[a].nodes[i]) ensures h[a].nodes[i].value in Behind(h, r) {
          var v := h[a].nodes[i].value;
          LedToObject(h, v);
          assert RootMap(h)[v] == RootOf(h, v);
          assert Plain(h)[a].nodes[i] == ForwardNode(RootMap(h), h[a].nodes[i]);
          assert PtrsIn(Plain(h)[a], r);
        }
      }
    }
  }

  // ----- the end of a collection -----

  /** When no header was moved, a field was sent to the copy of the object that it leads to. */
  lemma SentToRoot(h: Heap, f: map<Word, Word>, v: Word, v': Word)
    requires HeapLeads(h) && f.Keys <= Objects(h) && Sent(h, f, v, v') && IsLive(v) && IsPtr(v)
    ensures Resolves(h, v) && RootOf(h, v) in f && v' == f[RootOf(h, v)]
  {
    hide Resolves, RootOf, TableOk, PtrsIn, HeapLeads;
    var c :| c in f && SameRoot(h, v, c) && v' == f[c];
    LedToObject(h, c);
  }

  lemma CompleteIsCopy(h: Heap, o: Obj, o': Obj, f: map<Word, Word>)
    requires HeapLeads(h) && f.Keys <= Objects(h) && PtrTargets(RootMap(h))
    requires o.Obj? && Complete(h, o, o', f)
    ensures CopyOf(PlainObj(RootMap(h), o), o', f)
  {
    hide WellFormed, Contents, HeapLeads, Resolves, RootOf, Objects, TableOk, Sent;
    var g := RootMap(h);
    var p := PlainObj(g, o);
    PlainTable(g, o);
    forall k | k in Entries(o) ensures Entries(o')[k] == Forward(f, Forward(g, Entries(o)[k])) {
      EntrySent(h, f, Entries(o)[k], Entries(o')[k]);
    }
    assert Entries(o') == ForwardAll(f, Entries(p));
    forall i: nat | i < |p.nodes| && HoldsPtr(p.nodes[i]) ensures p.nodes[i].value in f.Keys {
      ForwardedPtr(g, o.nodes[i]);
      SlotIsEntry(o, i);
      EntrySent(h, f, o.nodes[i].value, Entries(o')[o.nodes[i].key]);
    }
  }

  lemma ForwardedPtr(g: map<Word, Word>, node: Node)
    requires HoldsPtr(ForwardNode(g, node))
    ensures HoldsPtr(node)
  {
  }

  lemma SlotIsEntry(o: Obj, i: nat)
    requires TableOk(o) && i < |o.nodes| && HoldsPtr(o.nodes[i])
    ensures o.nodes[i].key in Entries(o) && Entries(o)[o.nodes[i].key] == o.nodes[i].value
  {
    hide WellFormed, Contents;
    ContentsAt(o.nodes, i);
  }

  lemma EntrySent(h: Heap, f: map<Word, Word>, v: Word, v': Word)
    requires HeapLeads(h) && f.Keys <= Objects(h) && PtrTargets(RootMap(h)) && Sent(h, f, v, v')
    ensures v' == Forward(f, Forward(RootMap(h), v))
    ensures IsLive(v) && IsPtr(v) ==> Forward(RootMap(h), v) in f
  {
    hide Resolves, RootOf, TableOk, PtrsIn, HeapLeads, Sent, Objects;
    if IsLive(v) && IsPtr(v) {
      SentToRoot(h, f, v, v');
      assert RootMap(h)[v] == RootOf(h, v) by {
        RootMapAt(h, v);
      }
    } else {
      SentAsIs(h, f, v, v');
    }
  }

  lemma RootMapAt(h: Heap, v: Word)
    requires Resolves(h, v)
    ensures v in RootMap(h) && RootMap(h)[v] == RootOf(h, v)
  {
    hide RootOf;
  }

  lemma SentAsIs(h: Heap, f: map<Word, Word>, v: Word, v': Word)
    requires Sent(h, f, v, v') && !(IsLive(v) && IsPtr(v))
    ensures v' == v
  {
  }

  lemma MarkedCopy(x: Context, s: Snapshot, a: Word)
    requires Ready(x) && Marked(x, s, {}) && Fwd(s.left).Keys <= Objects(x.heap) && a in Fwd(s.left)
    ensures a in Plain(x.heap) && a in Objects(x.heap) && Fwd(s.left)[a] in s.copies
    ensures CopyOf(Plain(x.heap)[a], s.copies[Fwd(s.left)[a]], Fwd(s.left))
  {
    RootsArePtrs(x.base, x.used, x.heap, x.extents);
    hide Sum, InSpace, Bijective, Fwd, CopyOf, HeapLeads, Complete, Covered, RootMap, LeftOk, PlainObj;
    CompleteIsCopy(x.heap, x.heap[a], s.copies[Fwd(s.left)[a]], Fwd(s.left));
  }

  /** Once nothing is grey and only objects were moved, they are closed under the
      pointers that programs see, and their copies are those of that heap. */
  lemma MarkedIsomorphic(x: Context, s: Snapshot)
    requires Ready(x) && Marked(x, s, {}) && Fwd(s.left).Keys <= Objects(x.heap)
    ensures Isomorphic(Plain(x.heap), s.copies, Fwd(s.left))
    ensures Closed(Plain(x.heap), Fwd(s.left).Keys)
  {
    hide Ready, Marked, LeftOk, InSpace, CopiesOk, Bijective, Fwd, CopyOf, Plain, PtrsIn, Objects;
    MarkedParts(x, s, {});
    PlainObjects(x.heap);
    var f := Fwd(s.left);
    forall a | a in f
      ensures a in Plain(x.heap) && f[a] in s.copies && CopyOf(Plain(x.heap)[a], s.copies[f[a]], f)
      ensures PtrsIn(Plain(x.heap)[a], f.Keys)
    {
      MarkedCopy(x, s, a);
      CopiedPtrs(Plain(x.heap)[a], s.copies[f[a]], f);
    }
  }

  lemma CopiedPtrs(o: Obj, o': Obj, f: map<Word, Word>)
    requires CopyOf(o, o', f)
    ensures PtrsIn(o, f.Keys)
  {
  }

  /** A collection that has moved no header has moved exactly the reachable
      objects, and the new block is a heap of its own, without redirects: no pointer
      of it leads back to the old block. */
  lemma CollectionDone(x: Context, s: Snapshot, roots: set<Word>)
    requires Ready(x) && Marked(x, s, {}) && Fwd(s.left).Keys <= Objects(x.heap)
    requires x.live == Behind(x.heap, Reach(Plain(x.heap), roots)) && roots <= Fwd(s.left).Keys
    ensures Fwd(s.left).Keys == Reach(Plain(x.heap), roots)
    ensures Isomorphic(Plain(x.heap), s.copies, Fwd(s.left)) && PtrTargets(Fwd(s.left))
    ensures HeapOk(s.copies) && Objects(s.copies) == s.copies.Keys
    ensures s.copies.Keys !! x.heap.Keys
  {
    MarkedIsomorphic(x, s);
    TargetsArePtrs(x, s, {});
    MarkedParts(x, s, {});
    ReachIsLeast(Plain(x.heap), roots, Fwd(s.left).Keys);
    OnlyReached(x, s, roots);
    hide Ready, Marked, Fwd, Closed, Reach, Isomorphic, HeapOk, Objects, LeftOk, Bijective, CopiesOk, InSpace;
    hide Plain, Behind;
    IsomorphicHeapOk(Plain(x.heap), s.copies, Fwd(s.left));
    forall b | b in s.copies ensures b !in x.heap {
      BlocksApart(x, s, {}, b);
    }
  }

  lemma OnlyReached(x: Context, s: Snapshot, roots: set<Word>)
    requires Ready(x) && Fwd(s.left).Keys <= x.live && Fwd(s.left).Keys <= Objects(x.heap)
    requires x.live == Behind(x.heap, Reach(Plain(x.heap), roots))
    ensures Fwd(s.left).Keys <= Reach(Plain(x.heap), roots)
  {
    hide Reach, Plain, Resolves, RootOf, Fwd, Covered, InSpace, HeapLeads;
    forall a | a in Fwd(s.left) ensures a in Reach(Plain(x.heap), roots) {
      LedToObject(x.heap, a);
    }
  }

  /** A copied redirect header leads back to the old block. */
  lemma HeaderIsStray(x: Context, s: Snapshot, r: Word)
    requires Ready(x) && Marked(x, s, {}) && r in Fwd(s.left) && r in x.heap && x.heap[r].Redirect?
    ensures Fwd(s.left)[r] in s.copies && !Resolves(s.copies, Fwd(s.left)[r])
  {
    MarkedParts(x, s, {});
    StrayTarget(x, s, r);
    hide Ready, Marked, Fwd, LeftOk, Bijective, CopiesOk, InSpace;
    var b := Fwd(s.left)[r];
    if s.copies[b].to in s.copies {
      BlocksApart(x, s, {}, s.copies[b].to);
    }
    forall n: nat ensures Chase(s.copies, b, n) == None {
      if n > 0 {
        assert Chase(s.copies, s.copies[b].to, n - 1) == None;
      }
    }
  }

  lemma StrayTarget(x: Context, s: Snapshot, r: Word)
    requires Ready(x) && Marked(x, s, {}) && r in Fwd(s.left) && r in x.heap && x.heap[r].Redirect?
    ensures Fwd(s.left)[r] in s.copies && s.copies[Fwd(s.left)[r]] == x.heap[r] && x.heap[r].to in x.heap
  {
    hide Sum, InSpace, Bijective, Fwd, HeapLeads, PtrsIn;
    assert Complete(x.heap, x.heap[r], s.copies[Fwd(s.left)[r]], Fwd(s.left));
    assert Resolves(x.heap, r);
    RootStep(x.heap, r);
  }

  /** If a header was moved and a field holds its copy, the new block is no heap of its own. */
  lemma StrayField(copies: Heap, y: Word)
    requires HeldBy(copies, y) && !Resolves(copies, y)
    ensures !HeapLeads(copies)
  {
    hide Resolves, TableOk;
    var c, i: nat :| c in copies && HeldAt(copies[c], i, y);
    assert copies[c].nodes[i].value !in Led(copies);
    assert !PtrsIn(copies[c], Led(copies));
  }

  /** So a collection that has moved a header has gone wrong: some field, or one
      of the addresses ys handed out for roots, points into the old block. */
  lemma CollectionLost(x: Context, s: Snapshot, ys: set<Word>)
    requires Ready(x) && Marked(x, s, {}) && !(Fwd(s.left).Keys <= Objects(x.heap))
    requires HeldBut(x.heap, {}, s, ys)
    ensures !HeapLeads(s.copies) || exists y :: y in ys && !Resolves(s.copies, y)
  {
    hide Marked, HeapLeads, Resolves, HeldBy;
    MarkedParts(x, s, {});
    var r :| r in Fwd(s.left) && r !in Objects(x.heap);
    HeadersOnly(x, s, r);
    HeaderIsStray(x, s, r);
    var y := Fwd(s.left)[r];
    if y !in ys {
      StrayField(s.copies, y);
    }
  }

  lemma HeadersOnly(x: Context, s: Snapshot, r: Word)
    requires Ready(x) && LeftOk(x.heap, s.left) && r in Fwd(s.left) && r !in Objects(x.heap)
    ensures r in x.heap && x.heap[r].Redirect?
  {
  }

  // ----- what programs can observe -----

  /** Reading a field of an object; undefined when there is no such object or field. */
  ghost function Read(h: Heap, v: Word, k: Word): Word {
    if IsLive(v) && IsPtr(v) && v in h && TableOk(h[v]) && k in Entries(h[v]) then Entries(h[v])[k] else UNDEFINED
  }

  /** Following a path of keys. */
  ghost function Walk(h: Heap, v: Word, path: seq<Word>): Word
    decreases |path|
  {
    if path == [] then v else Walk(h, Read(h, v, path[0]), path[1..])
  }

  lemma ReadForwards(h: Heap, h': Heap, f: map<Word, Word>, a: Word, k: Word)
    requires Isomorphic(h, h', f) && PtrTargets(f) && a in f && IsLive(a) && IsPtr(a)
    ensures Read(h', f[a], k) == Forward(f, Read(h, a, k))
    ensures var v := Read(h, a, k); IsLive(v) && IsPtr(v) ==> v in f
  {
    assert CopyOf(h[a], h'[f[a]], f);
    hide TableOk, Bijective;
    if k in Entries(h[a]) {
      EntryPtr(h[a], f, k);
    }
  }

  lemma EntryPtr(o: Obj, f: map<Word, Word>, k: Word)
    requires TableOk(o) && PtrsIn(o, f.Keys) && k in Entries(o)
    ensures IsLive(Entries(o)[k]) && (IsPtr(Entries(o)[k]) ==> Entries(o)[k] in f)
  {
    var i := EntryIsSlot(o.nodes, k);
    assert HoldsPtr(o.nodes[i]) ==> o.nodes[i].value in f.Keys;
  }

  /** No program can tell: along every path of keys from a moved object, the new
      heap holds the same numbers, strings and functions, and the new address of
      the same object. */
  lemma {:induction false} WalkForwards(h: Heap, h': Heap, f: map<Word, Word>, a: Word, path: seq<Word>)
    requires Isomorphic(h, h', f) && PtrTargets(f) && a in f && IsLive(a) && IsPtr(a)
    ensures Walk(h', f[a], path) == Forward(f, Walk(h, a, path))
    decreases |path|
  {
    hide Isomorphic, Read;
    if path != [] {
      ReadForwards(h, h', f, a, path[0]);
      var v := Read(h, a, path[0]);
      if IsLive(v) && IsPtr(v) {
        WalkForwards(h, h', f, v, path[1..]);
      } else {
        WalkFromScalar(h, h', v, path[1..]);
      }
    }
  }

  lemma {:induction false} WalkFromScalar(h: Heap, h': Heap, v: Word, path: seq<Word>)
    requires !(IsLive(v) && IsPtr(v))
    ensures Walk(h', v, path) == Walk(h, v, path)
    ensures !(IsLive(Walk(h, v, path)) && IsPtr(Walk(h, v, path)))
    decreases |path|
  {
    if path != [] {
      WalkFromScalar(h, h', UNDEFINED, path[1..]);
    }
  }
}
