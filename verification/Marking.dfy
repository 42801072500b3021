/** A collection in progress: the invariant of young_gen_gc_mark and the steps that keep it. */
module Marking {
  import opened Values
  import opened Probe
  import opened HashTables
  import opened HashRuns
  import opened Heaps
  import opened Redirects

  /** The objects of one block: every address lies in the part in use, and the
      counter is the header plus the bytes given out. */
  ghost predicate InSpace(base: Word, used: nat, objects: Heap, ext: map<Word, nat>) {
    && base > 0 && base % YOUNG_GEN_BLOCK_SIZE == 0 && base + YOUNG_GEN_BLOCK_SIZE <= WORD_RANGE
    && used <= YOUNG_GEN_BLOCK_SIZE && used % 4 == 0
    && objects.Keys == ext.Keys
    && used == BLOCK_HEADER + Sum(ext, ext.Keys)
    && AllFit(base, used, objects, ext)
  }

  ghost predicate AllFit(base: Word, used: nat, objects: Heap, ext: map<Word, nat>) {
    forall a :: a in objects ==> a in ext && Fits(base, used, a, objects[a], ext[a])
  }

  ghost predicate Fits(base: Word, used: nat, a: Word, o: Obj, bytes: nat) {
    && a % 4 == 0 && base < a && a + bytes <= base + used && TotalSize(0) <= bytes
    && (o.Obj? ==> TotalSize(|o.nodes|) <= bytes)
  }

  /** What does not change during a collection: the heap it started from, the
      base of the block it copies to, and any set of addresses that contains the
      roots and is closed under pointers and what they lead to. */
  datatype Context = Context(heap: Heap, base: Word, used: nat, extents: map<Word, nat>, target: Word, live: set<Word>)

  ghost predicate Ready(x: Context) {
    && HeapLeads(x.heap)
    && InSpace(x.base, x.used, x.heap, x.extents)
    && x.target != x.base
    && Covered(x.heap, x.live)
  }

  ghost predicate Covered(h: Heap, live: set<Word>) {
    forall a :: a in live ==> Resolves(h, a) && RootOf(h, a) in live && PtrsIn(h[a], live)
  }

  /** What changes: the headers of the old block, and the new block. */
  datatype Snapshot = Snapshot(left: Heap, copies: Heap, used: nat, extents: map<Word, nat>)

  ghost predicate LeftOk(heap: Heap, left: Heap) {
    && left.Keys == heap.Keys
    && forall a :: a in left ==> left[a] == heap[a] || left[a].GcLeft?
  }

  ghost predicate Bijective(f: map<Word, Word>, copies: Heap) {
    && (forall a :: a in f ==> f[a] in copies)
    && (forall a, b :: a in f && b in f && f[a] == f[b] ==> a == b)
    && (forall c :: c in copies ==> exists a :: a in f && f[a] == c)
  }

  /** A field of a copy: a pointer has become the new address of something that
      was moved and leads to the same object, that object or a header on the way to it. */
  ghost predicate Sent(h: Heap, f: map<Word, Word>, v: Word, v': Word) {
    if IsLive(v) && IsPtr(v) then exists c :: c in f && SameRoot(h, v, c) && v' == f[c] else v' == v
  }

  /** A finished copy: of a header as it is, of an object with its fields sent. */
  ghost predicate Complete(h: Heap, o: Obj, o': Obj, f: map<Word, Word>) {
    if o.Redirect? then o' == o
    else
      && TableOk(o) && TableOk(o')
      && o'.kind == o.kind && o'.info == o.info
      && Entries(o').Keys == Entries(o).Keys
      && forall k :: k in Entries(o) ==> Sent(h, f, Entries(o)[k], Entries(o')[k])
  }

  lemma SentExtends(h: Heap, f: map<Word, Word>, f': map<Word, Word>, v: Word, v': Word)
    requires Sent(h, f, v, v') && Extends(f, f')
    ensures Sent(h, f', v, v')
  {
    hide SameRoot;
    if IsLive(v) && IsPtr(v) {
      var c :| c in f && SameRoot(h, v, c) && v' == f[c];
      assert c in f' && f'[c] == f[c];
    }
  }

  /** A finished copy stays one when more is moved. */
  lemma CompleteExtends(h: Heap, o: Obj, o': Obj, f: map<Word, Word>, f': map<Word, Word>)
    requires Complete(h, o, o', f) && Extends(f, f')
    ensures Complete(h, o, o', f')
  {
    hide TableOk, Entries, Sent, Extends;
    if !o.Redirect? {
      forall k | k in Entries(o) ensures Sent(h, f', Entries(o)[k], Entries(o')[k]) {
        SentExtends(h, f, f', Entries(o)[k], Entries(o')[k]);
      }
    }
  }

  ghost predicate CopiesOk(heap: Heap, f: map<Word, Word>, copies: Heap, grey: set<Word>) {
    && (forall a :: a in f && a !in grey ==> a in heap && f[a] in copies && Complete(heap, heap[a], copies[f[a]], f))
    && (forall c :: c in copies ==> !copies[c].GcLeft?)
  }

  /** The invariant.  Objects in `grey` are moved but their copies are still
      being scanned; all other moved objects have complete copies. */
  ghost predicate Marked(x: Context, s: Snapshot, grey: set<Word>) {
    var f := Fwd(s.left);
    && LeftOk(x.heap, s.left)
    && f.Keys <= x.live
    && Bijective(f, s.copies)
    && CopiesOk(x.heap, f, s.copies, grey)
    && InSpace(x.target, s.used, s.copies, s.extents)
    && s.used <= BLOCK_HEADER + Sum(x.extents, f.Keys * x.extents.Keys)
  }

  lemma FwdKeys(x: Context, s: Snapshot)
    requires Ready(x) && LeftOk(x.heap, s.left)
    ensures forall a :: a in Fwd(s.left) <==> a in x.heap && s.left[a] != x.heap[a]
    ensures Fwd(s.left).Keys <= x.heap.Keys == x.extents.Keys
  {
    hide TableOk, PtrsIn, Covered, Sum, Fits;
  }

  // ----- evacuating one object -----

  /** The copy before its pointers are moved: the same header, or the same table,
      or a smaller one with the same entries. */
  ghost predicate Moved(o: Obj, o': Obj) {
    if o.Redirect? then o' == o
    else
      && TableOk(o) && TableOk(o')
      && o'.kind == o.kind && o'.info == o.info
      && |o'.nodes| <= |o.nodes|
      && Entries(o') == Entries(o)
  }

  /** The bytes of a header and its table; only objects have one. */
  function SizeOf(o: Obj): nat {
    TotalSize(if o.Obj? then |o.nodes| else 0)
  }

  /** Where the next copy goes. */
  ghost function NextAddress(x: Context, s: Snapshot): Word {
    Wrap(x.target + s.used)
  }

  ghost function Evacuated(x: Context, s: Snapshot, a: Word, o': Obj): Snapshot {
    var b := NextAddress(x, s);
    var size := SizeOf(o');
    Snapshot(s.left[a := GcLeft(b)], s.copies[b := o'], s.used + size, s.extents[b := size])
  }

  ghost predicate Unmoved(x: Context, s: Snapshot, a: Word) {
    a in x.heap && a in s.left && s.left[a] == x.heap[a] && !x.heap[a].GcLeft?
  }

  /** The new block never runs out: it holds no more than the old one for the
      objects moved so far, and this object was given at least its own size. */
  lemma RoomLeft(x: Context, s: Snapshot, grey: set<Word>, a: Word, o': Obj)
    requires Ready(x) && Marked(x, s, grey) && Unmoved(x, s, a) && Moved(x.heap[a], o')
    ensures s.used + SizeOf(o') <= x.used <= YOUNG_GEN_BLOCK_SIZE
    ensures s.used + SizeOf(o')
         <= BLOCK_HEADER + Sum(x.extents, (Fwd(s.left).Keys + {a}) * x.extents.Keys)
    ensures x.target + s.used < WORD_RANGE
  {
    FwdKeys(x, s);
    var moved := Fwd(s.left).Keys;
    assert Fits(x.base, x.used, a, x.heap[a], x.extents[a]);
    hide HeapLeads, Covered, TableOk, CopiesOk, Bijective, Fwd, LeftOk, Sum, Entries, Fits;
    assert moved * x.extents.Keys == moved && (moved + {a}) * x.extents.Keys == moved + {a};
    SumAdd(x.extents, moved, a);
    SumSubset(x.extents, moved + {a}, x.extents.Keys);
  }

  lemma EvacuatedFwd(x: Context, s: Snapshot, a: Word, o': Obj)
    requires Unmoved(x, s, a) && LeftOk(x.heap, s.left)
    ensures Fwd(Evacuated(x, s, a, o').left) == Fwd(s.left)[a := NextAddress(x, s)]
    ensures LeftOk(x.heap, Evacuated(x, s, a, o').left)
  {
  }

  lemma NextAddressIsNew(x: Context, s: Snapshot)
    requires InSpace(x.target, s.used, s.copies, s.extents) && s.used < YOUNG_GEN_BLOCK_SIZE
    ensures NextAddress(x, s) == x.target + s.used && NextAddress(x, s) !in s.copies
    ensures NextAddress(x, s) % 4 == 0 && NextAddress(x, s) > x.target
  {
    hide Sum;
    assert forall a :: a in s.copies ==> Fits(x.target, s.used, a, s.copies[a], s.extents[a]);
  }

  lemma EvacuatedFits(x: Context, s: Snapshot, o': Obj)
    requires InSpace(x.target, s.used, s.copies, s.extents)
    requires s.used + SizeOf(o') <= YOUNG_GEN_BLOCK_SIZE
    ensures var b, size := NextAddress(x, s), SizeOf(o');
      AllFit(x.target, s.used + size, s.copies[b := o'], s.extents[b := size])
  {
    hide Sum;
    NextAddressIsNew(x, s);
    var b, size := NextAddress(x, s), SizeOf(o');
    hide NextAddress;
    var copies, ext := s.copies[b := o'], s.extents[b := size];
    forall a | a in copies ensures Fits(x.target, s.used + size, a, copies[a], ext[a]) {
      assert a != b ==> Fits(x.target, s.used, a, s.copies[a], s.extents[a]);
    }
  }

  lemma EvacuatedSpace(x: Context, s: Snapshot, o': Obj)
    requires InSpace(x.target, s.used, s.copies, s.extents)
    requires s.used + SizeOf(o') <= YOUNG_GEN_BLOCK_SIZE
    ensures var b, size := NextAddress(x, s), SizeOf(o');
      InSpace(x.target, s.used + size, s.copies[b := o'], s.extents[b := size])
  {
    hide Sum, AllFit, NextAddress, SizeOf;
    SizeIsEven(o');
    NextAddressIsNew(x, s);
    EvacuatedFits(x, s, o');
    SumWith(s.extents, NextAddress(x, s), SizeOf(o'));
  }

  lemma SizeIsEven(o: Obj)
    ensures SizeOf(o) % 4 == 0 && SizeOf(o) > 0
  {
  }

  lemma EvacuatedBijective(f: map<Word, Word>, copies: Heap, a: Word, b: Word, o': Obj)
    requires Bijective(f, copies) && a !in f && b !in copies
    ensures Bijective(f[a := b], copies[b := o'])
  {
    var f', copies' := f[a := b], copies[b := o'];
    forall c | c in copies' ensures exists d :: d in f' && f'[d] == c {
      if c == b {
        assert f'[a] == c;
      } else {
        var d :| d in f && f[d] == c;
        assert f'[d] == c;
      }
    }
  }

  lemma EvacuatedCopies(heap: Heap, f: map<Word, Word>, copies: Heap, grey: set<Word>, a: Word, b: Word, o': Obj)
    requires CopiesOk(heap, f, copies, grey) && a !in f && b !in copies && !o'.GcLeft?
    ensures CopiesOk(heap, f[a := b], copies[b := o'], grey + {a})
  {
    var f' := f[a := b];
    hide Complete;
    forall d | d in f' && d !in grey + {a}
      ensures d in heap && f'[d] in copies[b := o'] && Complete(heap, heap[d], copies[b := o'][f'[d]], f')
    {
      CompleteExtends(heap, heap[d], copies[f[d]], f, f');
    }
  }

  /** Copying one object keeps the invariant, with the object grey. */
  lemma EvacuateKeeps(x: Context, s: Snapshot, grey: set<Word>, a: Word, o': Obj)
    requires !o'.GcLeft?
    requires Ready(x) && Marked(x, s, grey) && Unmoved(x, s, a) && a in x.live && Moved(x.heap[a], o')
    ensures s.used + SizeOf(o') <= YOUNG_GEN_BLOCK_SIZE && NextAddress(x, s) == x.target + s.used
    ensures NextAddress(x, s) !in s.copies
    ensures Marked(x, Evacuated(x, s, a, o'), grey + {a})
    ensures Fwd(Evacuated(x, s, a, o').left) == Fwd(s.left)[a := NextAddress(x, s)]
  {
    hide Marked, Ready, Evacuated, Moved, InSpace, Bijective, CopiesOk, LeftOk, NextAddress, Sum, Complete;
    MarkedParts(x, s, grey);
    RoomLeft(x, s, grey, a, o');
    FwdKeys(x, s);
    var f, b := Fwd(s.left), NextAddress(x, s);
    assert a !in f;
    hide Fwd;
    EvacuatedFwd(x, s, a, o');
    NextAddressIsNew(x, s);
    EvacuatedSpace(x, s, o');
    EvacuatedBijective(f, s.copies, a, b, o');
    EvacuatedCopies(x.heap, f, s.copies, grey, a, b, o');
    assert (f[a := b]).Keys == f.Keys + {a};
    EvacuatedMarked(x, s, grey, a, o');
  }

  lemma MarkedParts(x: Context, s: Snapshot, grey: set<Word>)
    requires Marked(x, s, grey)
    ensures var f := Fwd(s.left);
      && LeftOk(x.heap, s.left) && f.Keys <= x.live && Bijective(f, s.copies) && CopiesOk(x.heap, f, s.copies, grey)
      && InSpace(x.target, s.used, s.copies, s.extents)
  {
  }

  lemma EvacuatedMarked(x: Context, s: Snapshot, grey: set<Word>, a: Word, o': Obj)
    requires var s', f' := Evacuated(x, s, a, o'), Fwd(s.left)[a := NextAddress(x, s)];
      && Fwd(s'.left) == f' && LeftOk(x.heap, s'.left) && f'.Keys <= x.live
      && Bijective(f', s.copies[NextAddress(x, s) := o'])
      && CopiesOk(x.heap, f', s.copies[NextAddress(x, s) := o'], grey + {a})
      && InSpace(x.target, s.used + SizeOf(o'), s.copies[NextAddress(x, s) := o'],
                 s.extents[NextAddress(x, s) := SizeOf(o')])
      && s.used + SizeOf(o') <= BLOCK_HEADER + Sum(x.extents, f'.Keys * x.extents.Keys)
    ensures Marked(x, Evacuated(x, s, a, o'), grey + {a})
  {
    hide LeftOk, Bijective, CopiesOk, InSpace, Sum, Fwd;
  }

  // ----- scanning a copy -----

  /** The slots of a copy when the first i have had their pointers sent. */
  ghost predicate Scanned(h: Heap, before: seq<Node>, now: seq<Node>, f: map<Word, Word>, i: nat) {
    && i <= |now| == |before|
    && (forall j: nat :: j < i ==> now[j].key == before[j].key && Sent(h, f, before[j].value, now[j].value))
    && (forall j: nat :: i <= j < |now| ==> now[j] == before[j])
  }

  lemma ScannedExtends(h: Heap, before: seq<Node>, now: seq<Node>, f: map<Word, Word>, f': map<Word, Word>, i: nat)
    requires Scanned(h, before, now, f, i) && Extends(f, f')
    ensures Scanned(h, before, now, f', i)
  {
    hide Sent, Extends;
    forall j: nat | j < i ensures Sent(h, f', before[j].value, now[j].value) {
      SentExtends(h, f, f', before[j].value, now[j].value);
    }
  }

  lemma ScannedNext(h: Heap, before: seq<Node>, now: seq<Node>, f: map<Word, Word>, i: nat, value: Word)
    requires Scanned(h, before, now, f, i) && i < |now| && Sent(h, f, before[i].value, value)
    ensures Scanned(h, before, now[i := Node(now[i].key, value)], f, i + 1)
  {
    hide Sent;
  }

  /** The new addresses are pointers. */
  lemma TargetsArePtrs(x: Context, s: Snapshot, grey: set<Word>)
    requires Marked(x, s, grey)
    ensures forall a :: a in Fwd(s.left) ==> IsLive(Fwd(s.left)[a]) && IsPtr(Fwd(s.left)[a]) && Fwd(s.left)[a] in s.copies
  {
    hide Sum, CopiesOk, LeftOk, Fwd;
    forall a | a in Fwd(s.left) ensures IsLive(Fwd(s.left)[a]) && IsPtr(Fwd(s.left)[a]) {
      var b := Fwd(s.left)[a];
      assert Fits(x.target, s.used, b, s.copies[b], s.extents[b]);
    }
  }

  ghost predicate PtrTargets(f: map<Word, Word>) {
    forall a :: a in f ==> IsLive(f[a]) && IsPtr(f[a])
  }

  lemma SentShape(h: Heap, f: map<Word, Word>, v: Word, v': Word)
    requires Sent(h, f, v, v') && PtrTargets(f)
    ensures (IsNull(v') <==> IsNull(v)) && (IsLive(v') <==> IsLive(v))
  {
    hide SameRoot;
  }

  lemma ScannedShape(h: Heap, before: seq<Node>, now: seq<Node>, f: map<Word, Word>)
    requires Scanned(h, before, now, f, |before|) && PtrTargets(f)
    ensures SameShape(before, now)
  {
    hide Sent, PtrTargets, IsNull, IsLive;
    forall j: nat | j < |before|
      ensures now[j].key == before[j].key && (IsNull(now[j].value) <==> IsNull(before[j].value))
      ensures IsLive(now[j].value) <==> IsLive(before[j].value)
    {
      SentShape(h, f, before[j].value, now[j].value);
    }
  }

  /** The map of a table whose slots have been sent. */
  lemma SentTable(h: Heap, before: seq<Node>, now: seq<Node>, f: map<Word, Word>)
    requires WellFormed(before) && Scanned(h, before, now, f, |before|) && PtrTargets(f)
    ensures WellFormed(now) && Contents(now).Keys == Contents(before).Keys
    ensures forall k :: k in Contents(before) ==> Sent(h, f, Contents(before)[k], Contents(now)[k])
  {
    ScannedShape(h, before, now, f);
    SameShapeWellFormed(before, now);
    hide WellFormed, Contents, Sent, PtrTargets, IsNull, IsLive;
    forall k | k in Contents(before) ensures k in Contents(now) && Sent(h, f, Contents(before)[k], Contents(now)[k]) {
      var i := EntryIsSlot(before, k);
      assert now[i].key == k && IsLive(now[i].value);
      ContentsAt(now, i);
    }
    forall k | k in Contents(now) ensures k in Contents(before) {
      var i := EntryIsSlot(now, k);
      assert before[i].key == k && IsLive(before[i].value);
      ContentsAt(before, i);
    }
  }

  /** A fully scanned copy is complete. */
  lemma ScannedIsComplete(h: Heap, o: Obj, before: Obj, now: Obj, f: map<Word, Word>)
    requires Moved(o, before) && o.Obj? && PtrTargets(f)
    requires now.Obj? && now.kind == before.kind && now.info == before.info && now.size == before.size
    requires Scanned(h, before.nodes, now.nodes, f, |before.nodes|)
    ensures Complete(h, o, now, f)
  {
    hide WellFormed, Contents, Sent;
    if o.kind != HT_USERDATA {
      SentTable(h, before.nodes, now.nodes, f);
    }
  }

  /** The pointers of a copy lead to live objects. */
  lemma MovedPtrs(o: Obj, before: Obj, live: set<Word>)
    requires Moved(o, before) && o.Obj? && PtrsIn(o, live)
    ensures PtrsIn(before, live)
  {
    hide WellFormed, Contents;
    forall i: nat | i < |before.nodes| && HoldsPtr(before.nodes[i]) ensures before.nodes[i].value in live {
      ContentsAt(before.nodes, i);
      var j := EntryIsSlot(o.nodes, before.nodes[i].key);
      assert HoldsPtr(o.nodes[j]);
    }
  }

  ghost function Rewritten(s: Snapshot, b: Word, o: Obj): Snapshot {
    s.(copies := s.copies[b := o])
  }

  lemma RewriteSpace(base: Word, used: nat, objects: Heap, ext: map<Word, nat>, b: Word, o: Obj)
    requires InSpace(base, used, objects, ext) && b in objects && objects[b].Obj?
    requires o.Obj? && |o.nodes| == |objects[b].nodes|
    ensures InSpace(base, used, objects[b := o], ext)
  {
    hide Sum;
    assert objects[b := o].Keys == objects.Keys;
    assert Fits(base, used, b, objects[b], ext[b]);
  }

  lemma RewriteBijective(f: map<Word, Word>, copies: Heap, b: Word, o: Obj)
    requires Bijective(f, copies) && b in copies
    ensures Bijective(f, copies[b := o])
  {
  }

  lemma RewriteCopies(heap: Heap, f: map<Word, Word>, copies: Heap, grey: set<Word>, a: Word, o: Obj)
    requires CopiesOk(heap, f, copies, grey) && Bijective(f, copies) && a in f && a in grey && o.Obj?
    ensures CopiesOk(heap, f, copies[f[a] := o], grey)
  {
    hide Complete;
  }

  /** Writing the copy of a grey object keeps the invariant. */
  lemma RewriteKeeps(x: Context, s: Snapshot, grey: set<Word>, a: Word, o: Obj)
    requires Marked(x, s, grey) && a in grey && a in Fwd(s.left)
    requires Fwd(s.left)[a] in s.copies && s.copies[Fwd(s.left)[a]].Obj?
    requires o.Obj? && |o.nodes| == |s.copies[Fwd(s.left)[a]].nodes|
    ensures Marked(x, Rewritten(s, Fwd(s.left)[a], o), grey)
  {
    hide Fwd, InSpace, LeftOk, Bijective, CopiesOk, Sum;
    RewriteSpace(x.target, s.used, s.copies, s.extents, Fwd(s.left)[a], o);
    RewriteBijective(Fwd(s.left), s.copies, Fwd(s.left)[a], o);
    RewriteCopies(x.heap, Fwd(s.left), s.copies, grey, a, o);
  }

  /** A grey object whose copy is complete is grey no more. */
  lemma FinishKeeps(x: Context, s: Snapshot, grey: set<Word>, a: Word)
    requires Marked(x, s, grey + {a}) && a in Fwd(s.left) && a in x.heap && Fwd(s.left)[a] in s.copies
    requires Complete(x.heap, x.heap[a], s.copies[Fwd(s.left)[a]], Fwd(s.left))
    ensures Marked(x, s, grey)
  {
    hide Fwd, InSpace, LeftOk, Bijective, Sum, Complete;
  }

  // ----- addresses -----

  /** The address bits above the block size name the block. */
  lemma AddressBlock(base: Word, used: nat, objects: Heap, ext: map<Word, nat>, a: Word)
    requires InSpace(base, used, objects, ext) && a in objects
    ensures a - a % YOUNG_GEN_BLOCK_SIZE == base
    ensures IsPtr(a) && IsLive(a)
  {
    hide Sum;
    assert Fits(base, used, a, objects[a], ext[a]);
  }

  /** No address lies in both blocks. */
  lemma BlocksApart(x: Context, s: Snapshot, grey: set<Word>, a: Word)
    requires Ready(x) && Marked(x, s, grey) && a in s.copies
    ensures a !in x.heap && a !in s.left && a !in x.live
  {
    hide Sum, CopiesOk, Bijective, HeapLeads, Fwd, AllFit, PtrsIn, RootOf;
    AddressBlock(x.target, s.used, s.copies, s.extents, a);
    if a in x.heap {
      AddressBlock(x.base, x.used, x.heap, x.extents, a);
    }
  }

  // ----- what a mark leaves alone -----

  ghost predicate Grows(s: Snapshot, s': Snapshot) {
    && Extends(Fwd(s.left), Fwd(s'.left))
    && forall b :: b in s.copies ==> b in s'.copies && s'.copies[b] == s.copies[b]
  }

  /** Everything but one copy is left alone. */
  ghost predicate GrowsBut(s: Snapshot, s': Snapshot, b: Word) {
    && Extends(Fwd(s.left), Fwd(s'.left))
    && forall c :: c in s.copies && c != b ==> c in s'.copies && s'.copies[c] == s.copies[c]
  }

  lemma GrowsTransitive(s: Snapshot, s': Snapshot, s'': Snapshot)
    requires Grows(s, s') && Grows(s', s'')
    ensures Grows(s, s'')
  {
    hide Fwd;
  }

  // ----- assembling the marking methods -----

  lemma UnmovedOk(x: Context, s: Snapshot, a: Word)
    requires Ready(x) && Unmoved(x, s, a)
    ensures s.left[a] == x.heap[a] && a !in Fwd(s.left) && (x.heap[a].Obj? ==> TableOk(x.heap[a]))
  {
    hide Sum, Covered, TableOk, PtrsIn, AllFit;
  }

  lemma TargetBase(x: Context, s: Snapshot, grey: set<Word>)
    requires Marked(x, s, grey)
    ensures 0 < x.target && x.target + YOUNG_GEN_BLOCK_SIZE <= WORD_RANGE
  {
    hide Sum, LeftOk, Bijective, CopiesOk, AllFit, Fwd;
  }

  lemma EvacuatedGrows(s: Snapshot, s': Snapshot, a: Word, b: Word, o': Obj)
    requires a !in Fwd(s.left) && b !in s.copies
    requires Fwd(s'.left) == Fwd(s.left)[a := b] && s'.copies == s.copies[b := o']
    ensures Grows(s, s')
  {
    hide Fwd;
  }

  /** What the headers of live addresses say. */
  lemma LiveHeader(x: Context, s: Snapshot, grey: set<Word>, a: Word)
    requires Ready(x) && Marked(x, s, grey) && a in x.live
    ensures a in x.heap && a in s.left && (Unmoved(x, s, a) <==> !s.left[a].GcLeft?)
    ensures s.left[a].GcLeft? <==> a in Fwd(s.left)
    ensures a in Fwd(s.left) ==> Fwd(s.left)[a] == s.left[a].to
    ensures a - a % YOUNG_GEN_BLOCK_SIZE == x.base && IsPtr(a) && IsLive(a) && ToPtr(a) == a
    ensures Resolves(x.heap, a) && (x.heap[a].Obj? ==> TableOk(x.heap[a])) && PtrsIn(x.heap[a], x.live)
  {
    hide Sum, TableOk, PtrsIn, AllFit, Bijective, CopiesOk, RootOf, IsPtr, IsLive, ToPtr, InSpace;
    AddressBlock(x.base, x.used, x.heap, x.extents, a);
    AlignedIsSelf(a);
  }

  lemma AlignedIsSelf(a: Word)
    requires IsPtr(a)
    ensures ToPtr(a) == a
  {
  }

  /** What has been copied is in the new block. */
  lemma CopyHeader(x: Context, s: Snapshot, grey: set<Word>, a: Word)
    requires Ready(x) && Marked(x, s, grey) && a in s.copies
    ensures a !in s.left && a !in x.live && !s.copies[a].GcLeft?
    ensures a - a % YOUNG_GEN_BLOCK_SIZE != x.base
  {
    BlocksApart(x, s, grey, a);
    hide Sum, TableOk, PtrsIn, AllFit, Bijective, Fwd, Covered, HeapLeads;
    AddressBlock(x.target, s.used, s.copies, s.extents, a);
  }

  lemma CopyPtrs(x: Context, s: Snapshot, grey: set<Word>, a: Word, before: Obj)
    requires Ready(x) && Marked(x, s, grey) && a in x.live && a in x.heap && x.heap[a].Obj? && Moved(x.heap[a], before)
    ensures before.Obj? && PtrsIn(before, x.live)
  {
    hide Ready, Marked, Moved, TableOk, PtrsIn, Fwd;
    LiveHeader(x, s, grey, a);
    MovedPtrs(x.heap[a], before, x.live);
    MovedIsObject(x.heap[a], before);
  }

  lemma MovedIsObject(o: Obj, before: Obj)
    requires Moved(o, before) && o.Obj?
    ensures before.Obj?
  {
  }

  lemma ScannedNone(h: Heap, before: seq<Node>, f: map<Word, Word>)
    ensures Scanned(h, before, before, f, 0)
  {
  }

  lemma ScannedSlot(h: Heap, before: seq<Node>, now: seq<Node>, f: map<Word, Word>, i: nat)
    requires Scanned(h, before, now, f, i) && i < |before|
    ensures |now| == |before| && now[i] == before[i]
  {
  }

  lemma ScanDone(x: Context, s: Snapshot, grey: set<Word>, a: Word, before: Obj)
    requires Marked(x, s, grey + {a}) && a in x.heap && x.heap[a].Obj? && Moved(x.heap[a], before) && before.Obj?
    requires a in Fwd(s.left) && Fwd(s.left)[a] in s.copies && s.copies[Fwd(s.left)[a]].Obj?
    requires s.copies[Fwd(s.left)[a]] == before.(nodes := s.copies[Fwd(s.left)[a]].nodes)
    requires Scanned(x.heap, before.nodes, s.copies[Fwd(s.left)[a]].nodes, Fwd(s.left), |before.nodes|)
    ensures Marked(x, s, grey)
  {
    hide Marked, Moved, Complete, Fwd, Scanned;
    TargetsArePtrs(x, s, grey + {a});
    ScannedIsComplete(x.heap, x.heap[a], before, s.copies[Fwd(s.left)[a]], Fwd(s.left));
    FinishKeeps(x, s, grey, a);
  }

  /** Moving more objects leaves fewer to move. */
  lemma FewerLeft(live: set<Word>, f: map<Word, Word>, f': map<Word, Word>)
    requires Extends(f, f')
    ensures |live - f'.Keys| <= |live - f.Keys|
  {
    SubsetSize(live - f'.Keys, live - f.Keys);
  }

  lemma OneFewer(live: set<Word>, f: map<Word, Word>, a: Word, b: Word)
    requires a in live && a !in f
    ensures |live - f[a := b].Keys| < |live - f.Keys|
  {
    assert live - f.Keys == (live - f[a := b].Keys) + {a};
  }

  lemma GrowsThenBut(s: Snapshot, s': Snapshot, s'': Snapshot, b: Word)
    requires GrowsBut(s, s', b) && GrowsBut(s', s'', b)
    ensures GrowsBut(s, s'', b)
  {
    hide Fwd;
  }

  lemma ScannedLength(h: Heap, before: seq<Node>, now: seq<Node>, f: map<Word, Word>, i: nat)
    requires Scanned(h, before, now, f, i)
    ensures i <= |now| == |before|
  {
  }

  lemma GrowsButNew(s: Snapshot, s': Snapshot, s'': Snapshot, b: Word)
    requires Grows(s, s') && GrowsBut(s', s'', b) && b !in s.copies
    ensures Grows(s, s'')
  {
    hide Fwd;
  }

  lemma GrowsThenWrite(s: Snapshot, s': Snapshot, s'': Snapshot, b: Word)
    requires Grows(s, s') && s''.left == s'.left && b in s''.copies && s''.copies == s'.copies[b := s''.copies[b]]
    ensures GrowsBut(s, s'', b)
  {
    hide Fwd;
  }

  // ----- who points at a copied header -----

  /** A field of some copy holds this address. */
  ghost predicate HeldBy(copies: Heap, y: Word) {
    exists c, i: nat :: c in copies && HeldAt(copies[c], i, y)
  }

  ghost predicate HeldAt(o: Obj, i: nat, y: Word) {
    o.Obj? && i < |o.nodes| && HoldsPtr(o.nodes[i]) && o.nodes[i].value == y
  }

  /** Every header that was copied since those of `before` were is held by a
      field, or its new address is one of ys. */
  ghost predicate HeldBut(h: Heap, before: set<Word>, s: Snapshot, ys: set<Word>) {
    forall r :: r in Fwd(s.left) && r !in before && r in h && h[r].Redirect? ==>
      Fwd(s.left)[r] in ys || HeldBy(s.copies, Fwd(s.left)[r])
  }

  lemma HeldNone(h: Heap, s: Snapshot)
    ensures HeldBut(h, Fwd(s.left).Keys, s, {})
  {
  }

  lemma HeldStays(s: Snapshot, s': Snapshot, y: Word)
    requires Grows(s, s') && HeldBy(s.copies, y)
    ensures HeldBy(s'.copies, y)
  {
    var c, i: nat :| c in s.copies && HeldAt(s.copies[c], i, y);
    assert HeldAt(s'.copies[c], i, y);
  }

  /** More has been marked, and more addresses returned. */
  lemma HeldMore(h: Heap, before: set<Word>, s: Snapshot, s': Snapshot, ys: set<Word>, more: set<Word>)
    requires HeldBut(h, before, s, ys) && Grows(s, s') && HeldBut(h, Fwd(s.left).Keys, s', more)
    ensures HeldBut(h, before, s', ys + more)
  {
    hide Fwd, HeldBy;
    forall r | r in Fwd(s'.left) && r !in before && r in h && h[r].Redirect?
      ensures Fwd(s'.left)[r] in ys + more || HeldBy(s'.copies, Fwd(s'.left)[r])
    {
      if r in Fwd(s.left) && Fwd(s.left)[r] !in ys {
        HeldStays(s, s', Fwd(s.left)[r]);
      }
    }
  }

  /** The returned address is written to the slot that asked for it. */
  lemma HeldWritten(x: Context, s: Snapshot, grey: set<Word>, before: set<Word>, b: Word, i: nat, value: Word)
    requires Ready(x) && Marked(x, s, grey) && HeldBut(x.heap, before, s, {value})
    requires b in s.copies && s.copies[b].Obj? && i < |s.copies[b].nodes|
    requires HoldsPtr(s.copies[b].nodes[i]) ==> s.copies[b].nodes[i].value in x.live
    ensures var o := s.copies[b];
            HeldBut(x.heap, before, Rewritten(s, b, o.(nodes := o.nodes[i := Node(o.nodes[i].key, value)])), {})
  {
    hide Ready, Marked, Fwd, HoldsPtr;
    var o := s.copies[b];
    var o' := o.(nodes := o.nodes[i := Node(o.nodes[i].key, value)]);
    var copies' := s.copies[b := o'];
    TargetsArePtrs(x, s, grey);
    forall r | r in Fwd(s.left) && r !in before && r in x.heap && x.heap[r].Redirect?
      ensures HeldBy(copies', Fwd(s.left)[r])
    {
      var y := Fwd(s.left)[r];
      CopyHeader(x, s, grey, y);
      if y == value {
        PtrHolds(o'.nodes[i]);
        assert HeldAt(copies'[b], i, y);
      } else {
        var c, j: nat :| c in s.copies && HeldAt(s.copies[c], j, y);
        assert HeldAt(copies'[c], j, y);
      }
    }
  }

  lemma PtrHolds(node: Node)
    requires IsLive(node.value) && IsPtr(node.value)
    ensures HoldsPtr(node)
  {
  }
}
