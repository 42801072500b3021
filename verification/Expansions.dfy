/** When the collector can still run after a field has been written. */
module Expansions {
  import opened Values
  import opened HashTables
  import opened Probe
  import opened HashRuns
  import opened Marking
  import opened Orders
  import opened Heaps
  import opened Redirects
  import opened Aliasing
  import opened Vms

  /** A field can hold this: no pointer, or one at an object. */
  predicate FieldFit(value: Word, s: set<Word>) {
    IsLive(value) && IsPtr(value) ==> value in s
  }

  predicate EntriesFit(m: map<Word, Word>, s: set<Word>) {
    forall k :: k in m ==> FieldFit(m[k], s)
  }

  /** The pointers of a table are those of its map. */
  lemma PtrsAreEntries(o: Obj, s: set<Word>)
    requires TableOk(o)
    ensures PtrsIn(o, s) <==> EntriesFit(Entries(o), s)
  {
    hide WellFormed, Contents;
    if o.kind != HT_USERDATA {
      if PtrsIn(o, s) {
        forall k | k in Entries(o) ensures FieldFit(Entries(o)[k], s) {
          var i := EntryIsSlot(o.nodes, k);
        }
      } else {
        var i: nat :| i < |o.nodes| && HoldsPtr(o.nodes[i]) && o.nodes[i].value !in s;
        ContentsAt(o.nodes, i);
        assert !FieldFit(Entries(o)[o.nodes[i].key], s);
      }
    }
  }

  lemma UpdatedFit(m: map<Word, Word>, key: Word, value: Word, s: set<Word>)
    ensures EntriesFit(Updated(m, key, value), s) ==> FieldFit(value, s)
    ensures EntriesFit(m, s) && FieldFit(value, s) ==> EntriesFit(Updated(m, key, value), s)
  {
    hide IsPtr;
    if IsLive(value) {
      assert Updated(m, key, value)[key] == value;
    }
  }

  lemma WritePtrs(o: Obj, key: Word, value: Word, s: set<Word>)
    requires Writable(o, key)
    ensures TableOk(SetResult(o, key, value)) && SetResult(o, key, value).Obj?
    ensures PtrsIn(SetResult(o, key, value), s) ==> FieldFit(value, s)
    ensures PtrsIn(o, s) && FieldFit(value, s) ==> PtrsIn(SetResult(o, key, value), s)
  {
    WritableIsObj(o, key);
    HasTableIsObj(o);
    var o' := SetResult(o, key, value);
    SetResultEntries(o, key, value);
    HasTableIsObj(o');
    hide Writable, SetResult, HasTable, Entries, TableOk, PtrsIn, FieldFit, EntriesFit, Updated;
    PtrsAreEntries(o, s);
    PtrsAreEntries(o', s);
    UpdatedFit(Entries(o), key, value, s);
  }

  /** No root of the collector but a register is the object at this address. */
  predicate NoRoot(global: Word, scenes: seq<Scene>, root: Word) {
    global != root && forall c :: c in scenes ==> c.external != root
  }

  /** Only registers and redirects point at redirects: fields, the global and the
      externals point at objects. */
  ghost predicate Fit(h: Heap, global: Word, scenes: seq<Scene>) {
    && HeapOk(h) && global in Objects(h) && ExternalsAre(Objects(h), scenes)
    && forall c :: c in scenes ==> FramesIn(h, Objects(h), c.frames)
  }

  lemma RegistersStayFit(h: Heap, scenes: seq<Scene>, root: Word, b: Word, o': Obj, moved: bool)
    requires forall c :: c in scenes ==> FramesIn(h, Objects(h), c.frames)
    requires root in h && h[root].Obj? && b !in h && o'.Obj?
    ensures var h' := Written(h, root, b, o', moved);
            forall c :: c in scenes ==> FramesIn(h', Objects(h'), c.frames)
  {
    hide Resolves, RootOf;
    var h' := Written(h, root, b, o', moved);
    forall c, f, v | c in scenes && f in c.frames && v in f.regs && IsRef(v)
      ensures Resolves(h', v) && RootOf(h', v) in Objects(h')
    {
      assert FramesIn(h, Objects(h), c.frames);
      assert RegsIn(h, Objects(h), f.regs);
      RootAfter(h, root, b, o', moved, v);
    }
    forall c | c in scenes ensures FramesIn(h', Objects(h'), c.frames) {
      forall f | f in c.frames ensures RegsIn(h', Objects(h'), f.regs) {
      }
    }
  }

  /** A write in place changes no set of objects. */
  lemma InPlace(h: Heap, root: Word, o': Obj)
    requires HeapOk(h) && root in h && h[root].Obj? && TableOk(o')
    ensures Objects(h[root := o']) == Objects(h)
    ensures HeapOk(h[root := o']) <==> PtrsIn(o', Objects(h))
  {
    hide TableOk, PtrsIn;
    HasTableObj(o');
    var h' := h[root := o'];
    assert Objects(h') == Objects(h);
    if PtrsIn(o', Objects(h)) {
      forall a | a in h' ensures !h'[a].GcLeft? && (h'[a].Obj? ==> TableOk(h'[a]) && PtrsIn(h'[a], Objects(h'))) {
        assert a == root || h'[a] == h[a];
      }
    } else {
      assert h'[root] == o';
    }
  }

  /** The same for a write that moves the object, with a value that a field can hold. */
  lemma ExpandedFit(h: Heap, global: Word, scenes: seq<Scene>, root: Word, b: Word, o': Obj)
    requires Fit(h, global, scenes) && root in h && h[root].Obj? && b !in h && TableOk(o')
    requires PtrsIn(o', Objects(h))
    ensures var h' := Written(h, root, b, o', true);
            Fit(h', global, scenes) <==> !FieldAt(h', root) && NoRoot(global, scenes, root)
  {
    hide TableOk, PtrsIn, FieldAt, Resolves, RootOf, HeapOk, FramesIn, Written;
    HasTableObj(o');
    RegistersStayFit(h, scenes, root, b, o', true);
    ObjectsWritten(h, root, b, o');
    ExpansionKeepsFields(h, root, b, o');
    BIsNew(h, b);
  }

  lemma BIsNew(h: Heap, b: Word)
    requires b !in h
    ensures b !in Objects(h)
  {
  }

  /** A value that no field can hold spoils the heap. */
  lemma Spoilt(h: Heap, root: Word, b: Word, o': Obj, moved: bool, value: Word)
    requires root in h && h[root].Obj? && b !in h && o'.Obj? && value in h && value !in Objects(h)
    requires forall s :: PtrsIn(o', s) ==> value in s
    ensures !HeapOk(Written(h, root, b, o', moved))
  {
    hide TableOk, PtrsIn;
    var h' := Written(h, root, b, o', moved);
    assert value !in Objects(h');
    assert h'[if moved then b else root] == o';
  }

  /** A write leaves all fields and roots at objects exactly when the value is no
      pointer or points at an object, and, if the object had to move to a larger
      table, nothing but registers and redirects points at where it was: no
      field, not the global, no external. */
  lemma WriteKeepsFit(h: Heap, global: Word, scenes: seq<Scene>, root: Word, key: Word, value: Word, b: Word)
    requires Fit(h, global, scenes) && root in h && Writable(h[root], key) && b !in h
    requires IsRef(value) ==> Resolves(h, value)
    ensures var h' := SetHeap(h, root, key, value, b);
            Fit(h', global, scenes) <==>
              && FieldFit(value, Objects(h))
              && (Outgrows(h[root], key, value) ==> !FieldAt(h', root) && NoRoot(global, scenes, root))
  {
    var o', moved, s := SetResult(h[root], key, value), Outgrows(h[root], key, value), Objects(h);
    WritableIsObj(h[root], key);
    WritePtrs(h[root], key, value, s);
    WriteObject(h, root);
    if !FieldFit(value, s) {
      forall t ensures PtrsIn(o', t) ==> value in t {
        WritePtrs(h[root], key, value, t);
      }
      hide Writable, SetResult, Outgrows, Resolves, PtrsIn, Objects, FieldAt, HeapOk, TableOk;
      ResolvesIn(h, value);
      Spoilt(h, root, b, o', moved, value);
    } else {
      hide Writable, SetResult, Outgrows, FieldAt, Resolves, PtrsIn, TableOk, HeapOk, FramesIn, Objects, FieldFit;
      if moved {
        ExpandedFit(h, global, scenes, root, b, o');
      } else {
        RegistersStayFit(h, scenes, root, b, o', false);
        InPlace(h, root, o');
      }
    }
  }

  lemma WriteObject(h: Heap, root: Word)
    requires HeapOk(h) && root in h && h[root].Obj?
    ensures PtrsIn(h[root], Objects(h))
  {
    hide TableOk, PtrsIn;
  }

  // ----- such a heap can always be collected -----

  lemma ShrunkenIsMoved(o: Obj)
    requires TableOk(o)
    ensures o.Obj? && Shrunken(o).Obj? && Moved(o, Shrunken(o))
  {
    hide WellFormed, Contents, HashTables.Rehash, IsCapacity;
    if NeedShrink(o.size, |o.nodes|) {
      TableCapacity(o.nodes);
      HalveCapacity(|o.nodes|);
      RehashAll(|o.nodes| / 2, o.nodes);
    }
  }

  lemma {:induction false} PointersIn(nodes: seq<Node>, s: set<Word>)
    requires forall i: nat :: i < |nodes| && HoldsPtr(nodes[i]) ==> nodes[i].value in s
    ensures forall v :: v in PointersOf(nodes) ==> v in s
    decreases |nodes|
  {
    if nodes != [] {
      PointersIn(nodes[..|nodes| - 1], s);
    }
  }

  lemma SlotsIn(o: Obj, s: set<Word>)
    requires PtrsIn(o, s)
    ensures forall v :: v in Slots(o) ==> v in s
  {
    hide Shrunken, TableOk;
    if TableOk(o) {
      ShrunkenIsMoved(o);
      MovedPtrs(o, Shrunken(o), s);
      PointersIn(Shrunken(o).nodes, s);
    }
  }

  lemma {:induction false} FitIsOrdered(h: Heap, m: set<Word>, stack: seq<Word>)
    requires HeapOk(h) && forall v :: v in stack ==> v in Objects(h)
    ensures Ordered(h, m, stack)
    decreases |Objects(h) - m|, |stack|
  {
    hide Slots, TableOk, PtrsIn, Resolves, RootOf;
    if stack != [] {
      var v, rest := stack[0], stack[1..];
      assert v in stack;
      if v in m {
        FitIsOrdered(h, m, rest);
      } else {
        OneFewerObject(h, m, v);
        SlotsIn(h[v], Objects(h));
        FitIsOrdered(h, m + {v}, Slots(h[v]) + rest);
      }
    }
  }

  lemma {:induction false} RegsLineIn(h: Heap, regs: seq<Word>)
    requires RegsIn(h, Objects(h), regs)
    ensures forall v :: v in RegsLine(h, regs) ==> v in Objects(h)
    decreases |regs|
  {
    hide Objects, Resolves, RootOf;
    if regs != [] {
      RegsLineIn(h, regs[..|regs| - 1]);
    }
  }

  lemma {:induction false} FramesLineIn(h: Heap, frames: seq<Frame>)
    requires FramesIn(h, Objects(h), frames)
    ensures forall v :: v in FramesLine(h, frames) ==> v in Objects(h)
    decreases |frames|
  {
    hide Objects, RegsIn, RegsLine;
    if frames != [] {
      FramesLineIn(h, frames[..|frames| - 1]);
      RegsLineIn(h, frames[|frames| - 1].regs);
    }
  }

  lemma {:induction false} ScenesLineIn(h: Heap, scenes: seq<Scene>)
    requires ExternalsAre(Objects(h), scenes) && forall c :: c in scenes ==> FramesIn(h, Objects(h), c.frames)
    ensures forall v :: v in ScenesLine(h, scenes) ==> v in Objects(h)
    decreases |scenes|
  {
    hide Objects, FramesIn, FramesLine;
    if scenes != [] {
      ScenesLineIn(h, scenes[..|scenes| - 1]);
      FramesLineIn(h, scenes[|scenes| - 1].frames);
    }
  }

  /** With redirects behind nothing but registers, every collection is right. */
  lemma FitIsOrderly(h: Heap, global: Word, scenes: seq<Scene>)
    requires Fit(h, global, scenes)
    ensures HeapLeads(h) && LeadsIn(h, Objects(h), global) && ScenesIn(h, Objects(h), scenes)
    ensures Orderly(h, global, scenes)
  {
    hide HeapOk, Objects, HeapLeads, FramesIn, Ordered, ScenesLine;
    FitLeads(h);
    ObjectLeads(h, global);
    forall c | c in scenes ensures LeadsIn(h, Objects(h), c.external) {
      ObjectLeads(h, c.external);
    }
    ScenesLineIn(h, scenes);
    FitIsOrdered(h, {}, [global] + ScenesLine(h, scenes));
  }

  lemma ObjectLeads(h: Heap, a: Word)
    requires a in Objects(h)
    ensures LeadsIn(h, Objects(h), a)
  {
    ObjectResolves(h, a);
  }
}
