/** A collection that goes wrong. */
module Losses {
  import opened Values
  import opened Probe
  import opened HashTables
  import opened HashRuns
  import opened Heaps
  import opened Redirects
  import opened Orders
  import opened Marking
  import opened Collections
  import opened Aliasing
  import opened Vms

  /** An object that points at a redirect first, and only then, if at all, at the
      object behind it. */
  lemma RedirectFirst(h: Heap, global: Word, r: Word, rest: seq<Word>)
    requires global in Objects(h) && r in h && r !in Objects(h) && Resolves(h, r) && RootOf(h, r) != global
    requires Slots(h[global]) == [r] + rest
    ensures !Orderly(h, global, [])
  {
    hide Slots, Objects, Resolves, RootOf;
    OneFewerObject(h, {}, global);
    assert [global] + ScenesLine(h, []) == [global] && [global][1..] == [];
    assert Slots(h[global]) + [] == [r] + rest;
    assert {} + {global} == {global};
    assert ([r] + rest)[0] == r && !Ordered(h, {global}, [r] + rest);
  }

  lemma {:induction false} PointersOfOne(nodes: seq<Node>, i: nat)
    requires i < |nodes| && HoldsPtr(nodes[i]) && forall j: nat :: j < |nodes| && j != i ==> !HoldsPtr(nodes[j])
    ensures PointersOf(nodes) == [nodes[i].value]
    decreases |nodes|
  {
    var last := |nodes| - 1;
    if i < last {
      PointersOfOne(nodes[..last], i);
    } else {
      PointersOfNone(nodes[..last]);
    }
  }

  lemma {:induction false} PointersOfNone(nodes: seq<Node>)
    requires forall j: nat :: j < |nodes| ==> !HoldsPtr(nodes[j])
    ensures PointersOf(nodes) == []
    decreases |nodes|
  {
    if nodes != [] {
      PointersOfNone(nodes[..|nodes| - 1]);
    }
  }

  /** A new object with one field. */
  ghost function User(key: Word, value: Word): (o: Obj)
    ensures HasTable(o) && o.Obj?
  {
    NewIsWritable(key);
    HasTableIsObj(SetObj(NewObj(HT_OBJECT), key, value));
    SetObj(NewObj(HT_OBJECT), key, value)
  }

  lemma NewIsWritable(key: Word)
    ensures Writable(NewObj(HT_OBJECT), key)
    ensures forall value :: HasTable(SetObj(NewObj(HT_OBJECT), key, value))
  {
    MinimumIsCapacity();
    EmptyIsEmpty(HASH_MIN_CAPACITY);
    hide WellFormed, Contents, IsCapacity, SetIn;
    var o := NewObj(HT_OBJECT);
    assert Stops(o.nodes[0], key);
    SearchEndsIff(o.nodes, key);
    forall value ensures HasTable(SetObj(o, key, value)) {
      SetObjEntries(o, key, value);
    }
  }

  lemma UserSlots(key: Word, value: Word)
    requires IsPtr(value) && IsLive(value)
    ensures Slots(User(key, value)) == [value]
  {
    NewIsWritable(key);
    HasTableIsObj(User(key, value));
    hide WellFormed, Contents, Ends, Target, IsCapacity, HasTable;
    var nodes := User(key, value).nodes;
    PointersOfOne(nodes, Target(NewObj(HT_OBJECT).nodes, key));
  }

  /** The smallest heap that is not in order: the object at a has one field, which
      points at r, and r redirects to o. */
  ghost function Chained(key: Word, a: Word, r: Word, o: Word, item: Obj): Heap {
    map[a := User(key, r), r := Redirect(o), o := item]
  }

  lemma ChainedIsNot(key: Word, a: Word, r: Word, o: Word, item: Obj)
    requires a != r && r != o && o != a && item.Obj? && IsPtr(r) && IsLive(r)
    ensures !Orderly(Chained(key, a, r, o, item), a, [])
  {
    hide User, Slots;
    var h := Chained(key, a, r, o, item);
    UserSlots(key, r);
    assert Chase(h, o, 0) == Some(o);
    RootIs(h, r, 1);
    RedirectFirst(h, a, r, []);
    assert [r] + [] == [r];
  }

  /** In the copied block some field points at nothing. */
  ghost predicate Dangles(h: Heap) {
    exists y :: HeldBy(h, y) && !Resolves(h, y)
  }

  lemma CopiesDangle(h: Heap, f: map<Word, Word>, h': Heap)
    requires Bijective(f, h') && CopiesOk(h, f, h', {}) && !HeapLeads(h')
    ensures Dangles(h')
  {
    hide Resolves, TableOk, Sent, Entries;
    var c :| c in h' && !(!h'[c].GcLeft? && (h'[c].Obj? ==> TableOk(h'[c]) && PtrsIn(h'[c], Led(h'))));
    var a :| a in f && f[a] == c;
    assert Complete(h, h[a], h'[c], f);
    var i: nat :| i < |h'[c].nodes| && HoldsPtr(h'[c].nodes[i]) && h'[c].nodes[i].value !in Led(h');
    var y := h'[c].nodes[i].value;
    assert HeldAt(h'[c], i, y);
    assert HeldBy(h', y);
    ResolvesLed(h', y);
  }

  lemma ResolvesLed(h: Heap, y: Word)
    requires y !in Led(h)
    ensures !Resolves(h, y)
  {
  }

  lemma CopyOfObject(h: Heap, f: map<Word, Word>, h': Heap, a: Word)
    requires Bijective(f, h') && CopiesOk(h, f, h', {}) && a in f && a in h && h[a].Obj?
    ensures f[a] in h' && h'[f[a]].Obj? && LeadsIn(h', Objects(h'), f[a])
  {
    hide Sent, Entries, WellFormed;
    assert Complete(h, h[a], h'[f[a]], f);
    ObjectResolves(h', f[a]);
  }

  lemma NoScenes(h: Heap, h': Heap, f: map<Word, Word>, scenes': seq<Scene>)
    requires ScenesMoved(h, f, [], scenes')
    ensures ScenesIn(h', Objects(h'), scenes')
  {
  }

  /** cvm_young_gc on that heap, with a as the only root: the field of its copy
      points into the old block. */
  method CollectChained(vm: VMState, ghost key: Word, ghost r: Word, ghost o: Word, ghost item: Obj)
    returns (ghost f: map<Word, Word>)
    requires vm.Valid() && vm.scenes == [] && item.Obj? && IsPtr(r) && IsLive(r)
    requires vm.global != r && r != o && o != vm.global && vm.Memory() == Chained(key, vm.global, r, o, item)
    modifies vm`global, vm`scenes, vm.youngGen, vm.youngGen.current, vm.youngGen.replacement
    ensures vm.youngGen.Idle() && vm.global in vm.Memory() && vm.Memory()[vm.global].Obj?
    ensures Dangles(vm.Memory())
  {
    hide Orderly, User, Resolves, RootOf, HeapLeads, Isomorphic, Reach, Roots, Plain, HeapOk, Dangles, Bijective;
    hide CopiesOk, ScenesMoved, ScenesIn, LeadsIn, Objects;
    ghost var h, a := vm.Memory(), vm.global;
    ChainedIsNot(key, a, r, o, item);
    f := vm.YoungGc();
    CopyOfObject(h, f, vm.Memory(), a);
    NoScenes(h, vm.Memory(), f, vm.scenes);
    CopiesDangle(h, f, vm.Memory());
  }
}
