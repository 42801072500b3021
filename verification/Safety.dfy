/** No pointer of a running machine dangles. */
module Safety {
  import opened Values
  import opened Insts
  import opened Probe
  import opened HashTables
  import opened HashRuns
  import opened Arithmetic
  import opened Heaps
  import opened Marking
  import opened Redirects
  import opened Aliasing
  import opened YoungGens
  import opened Machines
  import opened Vms
  import opened Expansions
  import opened Frames
  import opened Closures
  import Codes

  /** A pointer leads to an object. */
  ghost predicate Points(h: Heap, v: Word) {
    IsRef(v) ==> Resolves(h, v)
  }

  ghost predicate AllPoint(h: Heap, m: map<Word, Word>) {
    forall k :: k in m ==> Points(h, m[k])
  }

  ghost predicate RegsSafe(h: Heap, regs: Regs) {
    forall r :: 0 <= r < |regs| ==> Points(h, regs[r])
  }

  ghost predicate FramesSafe(h: Heap, frames: seq<Frame>) {
    forall f :: f in frames ==> RegsSafe(h, f.regs)
  }

  ghost predicate HeapSafe(h: Heap) {
    forall a :: a in h ==> !h[a].GcLeft? && (h[a].Obj? ==> TableOk(h[a]) && AllPoint(h, Entries(h[a])))
  }

  ghost predicate Spaced(m: Memory) {
    exists ext :: InSpace(m.base, m.used, m.heap, ext)
  }

  ghost predicate MemorySafe(m: Memory) {
    HeapSafe(m.heap) && Points(m.heap, FromPtr(m.global)) && Spaced(m)
  }

  /** All pointers, in the fields of objects, the global, and the registers of every frame, lead to objects. */
  ghost predicate StateSafe(s: State) {
    s.Running? ==> MemorySafe(s.memory) && FramesSafe(s.memory.heap, s.frames)
  }

  /** What led to an object still does. */
  ghost predicate StillThere(h: Heap, h': Heap) {
    forall a :: Resolves(h, a) ==> Resolves(h', a)
  }

  /** The same of native functions. */
  ghost predicate NativesSafe(p: Program) {
    forall m, func, arg :: MemorySafe(m) && Points(m.heap, arg) && p.native(m, func, arg).Some? ==>
      NativeSafe(m, p.native(m, func, arg).value)
  }

  ghost predicate NativeSafe(m: Memory, r: (Memory, Word)) {
    MemorySafe(r.0) && Points(r.0.heap, r.1) && StillThere(m.heap, r.0.heap)
  }

  lemma RegsStay(h: Heap, h': Heap, regs: Regs)
    requires RegsSafe(h, regs) && StillThere(h, h')
    ensures RegsSafe(h', regs)
  {
    hide Resolves;
    forall r | 0 <= r < |regs| ensures Points(h', regs[r]) {
      assert Points(h, regs[r]);
    }
  }

  lemma AllStay(h: Heap, h': Heap, m: map<Word, Word>)
    requires AllPoint(h, m) && StillThere(h, h')
    ensures AllPoint(h', m)
  {
    hide Resolves;
    forall k | k in m ensures Points(h', m[k]) {
      assert Points(h, m[k]);
    }
  }

  // ----- the heap operations -----

  lemma AllocateSafe(m: Memory, capacity: nat, kind: HashType)
    requires MemorySafe(m) && Allocate(m, capacity, kind).Ok? && kind in {HT_OBJECT, HT_ARRAY, HT_CLOSURE}
    ensures var (m', a) := Allocate(m, capacity, kind).value;
            MemorySafe(m') && StillThere(m.heap, m'.heap) && Points(m'.heap, FromPtr(a)) && a !in m.heap
  {
    hide InSpace, Resolves, NormalizeCapacity, Entries, TableOk;
    NormalIsCapacity(capacity);
    var ext :| InSpace(m.base, m.used, m.heap, ext);
    var o := Obj(kind, Info(0, 0), 0, EmptyNodes(NormalizeCapacity(capacity)));
    var (m', a) := Allocate(m, capacity, kind).value;
    NewObjectOk(NormalizeCapacity(capacity), kind);
    AllocatedSpace(m.base, m.used, m.heap, ext, o);
    AddedSafe(m.heap, a, o);
    assert m'.heap == m.heap[a := o];
  }

  lemma NewObjectOk(n: nat, kind: HashType)
    requires IsCapacity(n) && kind in {HT_OBJECT, HT_ARRAY, HT_CLOSURE}
    ensures TableOk(Obj(kind, Info(0, 0), 0, EmptyNodes(n))) && Entries(Obj(kind, Info(0, 0), 0, EmptyNodes(n))) == map[]
  {
    EmptyIsEmpty(n);
    hide WellFormed, Contents, EmptyNodes;
  }

  lemma AddedSafe(h: Heap, b: Word, o: Obj)
    requires HeapSafe(h) && b !in h && TableOk(o) && Entries(o) == map[]
    ensures HeapSafe(h[b := o]) && StillThere(h, h[b := o]) && Resolves(h[b := o], b)
  {
    hide Resolves, RootOf, TableOk, Entries;
    HasTableObj(o);
    var h' := h[b := o];
    forall a | Resolves(h, a) ensures Resolves(h', a) {
      NewKeepsViews(h, b, o, a);
    }
    ObjectResolves(h', b);
    forall a | a in h' ensures !h'[a].GcLeft? && (h'[a].Obj? ==> TableOk(h'[a]) && AllPoint(h', Entries(h'[a]))) {
      if a != b && h[a].Obj? {
        AllStay(h, h', Entries(h[a]));
      }
    }
  }

  /** An object becomes another one, in place or at a new address. */
  lemma WrittenSafe(h: Heap, root: Word, b: Word, o': Obj, moved: bool)
    requires HeapSafe(h) && root in h && h[root].Obj? && b !in h && TableOk(o') && AllPoint(h, Entries(o'))
    ensures HeapSafe(Written(h, root, b, o', moved)) && StillThere(h, Written(h, root, b, o', moved))
  {
    hide Resolves, RootOf, TableOk, Entries;
    HasTableObj(o');
    var h' := Written(h, root, b, o', moved);
    forall a | Resolves(h, a) ensures Resolves(h', a) {
      RootAfter(h, root, b, o', moved, a);
    }
    AllStay(h, h', Entries(o'));
    forall a | a in h' ensures !h'[a].GcLeft? && (h'[a].Obj? ==> TableOk(h'[a]) && AllPoint(h', Entries(h'[a]))) {
      if a in h && h'[a] == h[a] && h[a].Obj? {
        AllStay(h, h', Entries(h[a]));
      }
    }
  }

  lemma UpdatedPoints(h: Heap, m: map<Word, Word>, key: Word, value: Word)
    requires AllPoint(h, m) && Points(h, value)
    ensures AllPoint(h, Updated(m, key, value))
  {
    hide Points;
  }

  lemma SafeObject(h: Heap, a: Word)
    requires HeapSafe(h) && a in h && h[a].Obj?
    ensures TableOk(h[a]) && AllPoint(h, Entries(h[a]))
  {
    hide TableOk, AllPoint;
  }

  lemma SetFieldSafe(m: Memory, root: Word, key: Word, value: Word)
    requires MemorySafe(m) && root in m.heap && Points(m.heap, value) && SetField(m, root, key, value).Ok?
    ensures MemorySafe(SetField(m, root, key, value).value)
    ensures StillThere(m.heap, SetField(m, root, key, value).value.heap)
  {
    hide InSpace, Resolves, Entries, AllPoint, HeapSafe, Outgrows, SetResult, Writable, StillThere;
    var o := m.heap[root];
    SetFieldParts(m, root, key, value);
    WritableIsObj(o, key);
    HasTableIsObj(o);
    SafeObject(m.heap, root);
    SetResultEntries(o, key, value);
    var o' := SetResult(o, key, value);
    HasTableIsObj(o');
    UpdatedPoints(m.heap, Entries(o), key, value);
    var ext :| InSpace(m.base, m.used, m.heap, ext);
    var b := FieldSpace(m, root, key, value, ext);
    WrittenSafe(m.heap, root, b, o', Outgrows(o, key, value));
    GlobalStays(m, SetField(m, root, key, value).value);
  }

  lemma GlobalStays(m: Memory, m': Memory)
    requires Points(m.heap, FromPtr(m.global)) && m'.global == m.global && StillThere(m.heap, m'.heap)
    ensures Points(m'.heap, FromPtr(m'.global))
  {
    hide Resolves;
  }

  /** The block after a write: in place, or with the larger table behind what was there. */
  lemma FieldSpace(m: Memory, root: Word, key: Word, value: Word, ext: map<Word, nat>) returns (b: Word)
    requires root in m.heap && SetField(m, root, key, value).Ok? && InSpace(m.base, m.used, m.heap, ext)
    requires Writable(m.heap[root], key)
    ensures b !in m.heap && Spaced(SetField(m, root, key, value).value)
    ensures SetField(m, root, key, value).value.heap ==
            Written(m.heap, root, b, SetResult(m.heap[root], key, value), Outgrows(m.heap[root], key, value))
  {
    hide InSpace, Outgrows, SetField, Ends, HasTable, SetObj, GrownObj;
    var o := m.heap[root];
    SetFieldParts(m, root, key, value);
    SetResultSize(o, key, value);
    var o' := SetResult(o, key, value);
    if Outgrows(o, key, value) {
      AllocatedSpace(m.base, m.used, m.heap, ext, o');
      b := m.base + m.used;
      var ext' := ext[b := TotalSize(|o'.nodes|)];
      RedirectSpace(m.base, m.used + TotalSize(|o'.nodes|), m.heap[b := o'], ext', root, b);
      assert m.heap[b := o'][root := Redirect(b)] == m.heap[root := Redirect(b)][b := o'];
    } else {
      b := FreshAddress(m.base, m.used, m.heap, ext);
      SameSizeSpace(m.base, m.used, m.heap, ext, root, o');
    }
  }

  lemma SetResultSize(o: Obj, key: Word, value: Word)
    requires Writable(o, key)
    ensures o.Obj? && SetResult(o, key, value).Obj?
    ensures |SetResult(o, key, value).nodes| == if Outgrows(o, key, value) then 2 * |o.nodes| else |o.nodes|
  {
    SetObjEntries(o, key, value);
    hide HasTable, Ends, Contents, WellFormed;
  }

  // ----- instructions -----

  lemma SetRegSafe(h: Heap, regs: Regs, rd: nat, value: Word)
    requires RegsSafe(h, regs) && Points(h, value) && SetReg(regs, rd, value).Ok?
    ensures RegsSafe(h, SetReg(regs, rd, value).value)
  {
    hide Points;
  }

  lemma NoPointer(h: Heap, v: Word)
    requires !IsRef(v)
    ensures Points(h, v)
  {
  }

  /** The registers and the memory after an instruction. */
  ghost predicate EffectSafe(m: Memory, e: (Memory, Regs)) {
    MemorySafe(e.0) && RegsSafe(e.0.heap, e.1) && StillThere(m.heap, e.0.heap)
  }

  lemma StaysThere(h: Heap)
    ensures StillThere(h, h)
  {
  }

  lemma StoreSafe(m: Memory, regs: Regs, rd: nat, value: Word)
    requires MemorySafe(m) && RegsSafe(m.heap, regs) && Points(m.heap, value) && Store(m, regs, rd, value).Ok?
    ensures EffectSafe(m, Store(m, regs, rd, value).value)
  {
    hide MemorySafe, RegsSafe, StillThere;
    StaysThere(m.heap);
    SetRegSafe(m.heap, regs, rd, value);
  }

  lemma GetHashSafe(m: Memory, regs: Regs, reg: nat)
    requires RegsSafe(m.heap, regs) && GetHash(m, regs, reg).Ok?
    ensures RegsSafe(m.heap, GetHash(m, regs, reg).value.1)
  {
    hide Resolves, RootOf;
    RootIsObject(m.heap, regs[reg]);
  }

  lemma NewObjectSafe(m: Memory, regs: Regs, rd: nat, kind: HashType)
    requires MemorySafe(m) && RegsSafe(m.heap, regs) && kind in {HT_OBJECT, HT_ARRAY}
    requires NewObject(m, regs, rd, kind).Ok?
    ensures EffectSafe(m, NewObject(m, regs, rd, kind).value)
  {
    hide MemorySafe, RegsSafe, StillThere, Allocate, Points;
    AllocateSafe(m, HASH_MIN_CAPACITY, kind);
    var (m', a) := Allocate(m, HASH_MIN_CAPACITY, kind).value;
    RegsStay(m.heap, m'.heap, regs);
    SetRegSafe(m'.heap, regs, rd, FromPtr(a));
  }

  /** What hash_find gives is no pointer or one that the table holds. */
  lemma FindSafe(h: Heap, o: Obj, key: Word)
    requires TableOk(o) && AllPoint(h, Entries(o)) && Find(o, key).Ok?
    ensures Points(h, Find(o, key).value)
  {
    hide WellFormed, Contents, FindIn, Ends, Resolves;
    FindIsLookup(o.nodes, key);
  }

  lemma GetObjectSafe(m: Memory, regs: Regs, rd: nat, rs: nat, rt: nat)
    requires MemorySafe(m) && RegsSafe(m.heap, regs) && GetObject(m, regs, rd, rs, rt).Ok?
    ensures EffectSafe(m, GetObject(m, regs, rd, rs, rt).value)
  {
    hide RegsSafe, StillThere, GetHash, Find, Points, HeapSafe, Spaced, AllPoint, Entries, KeyOf, TableOk;
    GetHashSafe(m, regs, rs);
    StaysThere(m.heap);
    var h := GetHash(m, regs, rs).value;
    var key := KeyOf(m.heap[h.0], h.1[rt]).value;
    FindIsObject(m.heap[h.0], key);
    SafeObject(m.heap, h.0);
    FindSafe(m.heap, m.heap[h.0], key);
    SetRegSafe(m.heap, h.1, rd, Find(m.heap[h.0], key).value);
  }

  lemma FindIsObject(o: Obj, key: Word)
    requires Find(o, key).Ok?
    ensures o.Obj?
  {
  }

  lemma SetObjectSafe(m: Memory, regs: Regs, rd: nat, rs: nat, rt: nat)
    requires MemorySafe(m) && RegsSafe(m.heap, regs) && SetObject(m, regs, rd, rs, rt).Ok?
    ensures EffectSafe(m, SetObject(m, regs, rd, rs, rt).value)
  {
    hide MemorySafe, StillThere, GetHash, SetField, Points, KeyOf;
    GetHashSafe(m, regs, rd);
    var h := GetHash(m, regs, rd).value;
    var key := KeyOf(m.heap[h.0], h.1[rt]).value;
    SetFieldSafe(m, h.0, key, h.1[rs]);
    RegsStay(m.heap, SetField(m, h.0, key, h.1[rs]).value.heap, h.1);
  }

  lemma {:induction false} BoundPoints(h: Heap, captures: seq<Capture>, regs: Regs, k: nat)
    requires RegsSafe(h, regs) && k <= |captures| && forall i :: 0 <= i < k ==> captures[i].outer < |regs|
    ensures AllPoint(h, Bound(map[], captures, regs, k))
    decreases k
  {
    hide Points, AllPoint, Updated;
    if k > 0 {
      BoundPoints(h, captures, regs, k - 1);
      UpdatedPoints(h, Bound(map[], captures, regs, k - 1), Wrap(captures[k - 1].inner), regs[captures[k - 1].outer]);
    } else {
      NothingPoints(h);
    }
  }

  lemma NothingPoints(h: Heap)
    ensures AllPoint(h, map[])
  {
  }

  /** An object replaced in place. */
  lemma ReplacedSafe(m: Memory, a: Word, o: Obj)
    requires MemorySafe(m) && a in m.heap && m.heap[a].Obj? && TableOk(o) && o.Obj?
    requires |o.nodes| == |m.heap[a].nodes| && AllPoint(m.heap, Entries(o))
    ensures MemorySafe(m.(heap := m.heap[a := o])) && StillThere(m.heap, m.heap[a := o])
  {
    hide InSpace, TableOk, Entries, AllPoint, HeapSafe, StillThere, Points;
    var ext :| InSpace(m.base, m.used, m.heap, ext);
    var b := FreshAddress(m.base, m.used, m.heap, ext);
    WrittenSafe(m.heap, a, b, o, false);
    SameSizeSpace(m.base, m.used, m.heap, ext, a, o);
    GlobalStays(m, m.(heap := m.heap[a := o]));
  }

  lemma NewClosureSafe(p: Program, m: Memory, regs: Regs, rd: nat, imm: int)
    requires MemorySafe(m) && RegsSafe(m.heap, regs) && NewClosure(p, m, regs, rd, imm).Ok?
    ensures EffectSafe(m, NewClosure(p, m, regs, rd, imm).value)
  {
    hide MemorySafe, RegsSafe, StillThere, Points, AllPoint, WellFormed, Contents, Captured, Allocate, TableOk;
    hide NormalizeCapacity, Bound;
    NewClosureParts(p, m, regs, rd, imm);
    var captures := p.functions[imm].captures;
    AllocateSafe(m, |captures|, HT_CLOSURE);
    var (m1, a) := Allocate(m, |captures|, HT_CLOSURE).value;
    var (m', regs') := NewClosure(p, m, regs, rd, imm).value;
    var nodes := Captured(EmptyNodes(NormalizeCapacity(|captures|)), captures, regs', |captures|).value;
    RegsStay(m.heap, m1.heap, regs);
    SetRegSafe(m1.heap, regs, rd, FromPtr(a));
    EmptyTable(NormalizeCapacity(|captures|));
    CapturedContents(EmptyNodes(NormalizeCapacity(|captures|)), captures, regs', |captures|);
    BoundPoints(m1.heap, captures, regs', |captures|);
    ClosureTable(imm, nodes);
    AllocatedNodes(m, |captures|, HT_CLOSURE);
    ReplacedSafe(m1, a, ClosureOf(imm, nodes));
    RegsStay(m1.heap, m'.heap, regs');
    ThereTwice(m.heap, m1.heap, m'.heap);
  }

  lemma EmptyTable(n: nat)
    requires WellFormed(EmptyNodes(n))
    ensures Contents(EmptyNodes(n)) == map[]
  {
    hide Contents;
    TableCapacity(EmptyNodes(n));
    EmptyIsEmpty(n);
  }

  lemma ClosureTable(imm: int, nodes: seq<Node>)
    requires WellFormed(nodes)
    ensures TableOk(ClosureOf(imm, nodes)) && Entries(ClosureOf(imm, nodes)) == Contents(nodes)
  {
    hide WellFormed, Contents;
  }

  lemma AllocatedNodes(m: Memory, n: nat, kind: HashType)
    requires Allocate(m, n, kind).Ok?
    ensures var (m', a) := Allocate(m, n, kind).value; m'.heap[a].Obj? && |m'.heap[a].nodes| == NormalizeCapacity(n)
  {
  }

  lemma ThereTwice(a: Heap, b: Heap, c: Heap)
    requires StillThere(a, b) && StillThere(b, c)
    ensures StillThere(a, c)
  {
    hide Resolves;
  }

  /** Arithmetic makes no pointers. */
  lemma ComputeSafe(m: Memory, regs: Regs, inst: Inst)
    requires MemorySafe(m) && RegsSafe(m.heap, regs) && Compute(m, regs, inst).Ok?
    ensures EffectSafe(m, Compute(m, regs, inst).value)
  {
    hide MemorySafe, StillThere, Points, ExecOp, ExecNot, FromInt, IsRef;
    StaysThere(m.heap);
    NumbersAreNoPointers(m.heap);
  }

  lemma NumbersAreNoPointers(h: Heap)
    ensures forall i :: Points(h, FromInt(i))
    ensures forall op, a, b :: ExecOp(op, a, b).Some? ==> Points(h, ExecOp(op, a, b).value)
    ensures forall a :: ExecNot(a).Some? ==> Points(h, ExecNot(a).value)
    ensures Points(h, UNDEFINED)
  {
    hide Resolves;
  }

  lemma StringIsNoPointer(h: Heap, address: Word)
    ensures Points(h, FromStr(address))
  {
  }

  lemma ExecuteSafe(p: Program, m: Memory, regs: Regs, inst: Inst)
    requires MemorySafe(m) && RegsSafe(m.heap, regs) && Execute(p, m, regs, inst).Ok?
    ensures EffectSafe(m, Execute(p, m, regs, inst).value)
  {
    hide MemorySafe, RegsSafe, Points, EffectSafe, NewObject, GetObject, SetObject, NewClosure, Compute;
    hide Store, FromStr;
    match inst
    case IType(op, rd, imm) =>
      match op {
       case I_LSTR =>
         StringIsNoPointer(m.heap, Wrap(imm));
         StoreSafe(m, regs, rd, FromStr(Wrap(imm)));
       case I_NEW_CLS => NewClosureSafe(p, m, regs, rd, imm);
       case _ => ComputeSafe(m, regs, inst);
      }
    case DType(op, rd, rs, rt) =>
      match op {
       case I_NULL =>
         NoPointer(m.heap, NULL);
         StoreSafe(m, regs, rd, NULL);
       case I_NEW_OBJ => NewObjectSafe(m, regs, rd, HT_OBJECT);
       case I_NEW_ARR => NewObjectSafe(m, regs, rd, HT_ARRAY);
       case I_GET_OBJ => GetObjectSafe(m, regs, rd, rs, rt);
       case I_SET_OBJ => SetObjectSafe(m, regs, rd, rs, rt);
       case _ => ComputeSafe(m, regs, inst);
      }
  }

  // ----- calls -----

  lemma {:induction false} WithArgumentsSafe(h: Heap, regs: Regs, args: Obj, k: nat)
    requires RegsSafe(h, regs) && WithArguments(regs, args, k).Ok?
    requires args.Obj? ==> TableOk(args) && AllPoint(h, Entries(args))
    ensures RegsSafe(h, WithArguments(regs, args, k).value)
    decreases k
  {
    hide RegsSafe, TableOk, Entries, AllPoint, Find, Points;
    if k > 0 {
      WithArgumentsSafe(h, regs, args, k - 1);
      FindIsObject(args, Wrap(k - 1));
      FindSafe(h, args, Wrap(k - 1));
      SetRegSafe(h, WithArguments(regs, args, k - 1).value, k, Find(args, Wrap(k - 1)).value);
    }
  }

  lemma {:induction false} WithCapturesSafe(h: Heap, regs: Regs, nodes: seq<Node>, k: nat)
    requires RegsSafe(h, regs) && WellFormed(nodes) && AllPoint(h, Contents(nodes))
    requires k <= |nodes| && WithCaptures(regs, nodes, k).Ok?
    ensures RegsSafe(h, WithCaptures(regs, nodes, k).value)
    decreases k
  {
    hide RegsSafe, WellFormed, Contents, Points, IsLive;
    if k > 0 {
      WithCapturesSafe(h, regs, nodes, k - 1);
      if IsLive(nodes[k - 1].value) {
        ContentsAt(nodes, k - 1);
        SetRegSafe(h, WithCaptures(regs, nodes, k - 1).value, nodes[k - 1].key, nodes[k - 1].value);
      }
    }
  }

  lemma BlankSafe(h: Heap, f: Function, global: Word)
    requires Points(h, FromPtr(global))
    ensures RegsSafe(h, Blank(f, global))
  {
    hide Points, FromPtr;
    NumbersAreNoPointers(h);
  }

  lemma NewFrameSafe(p: Program, m: Memory, f: Word, a: Word)
    requires MemorySafe(m) && f in m.heap && a in m.heap && m.heap[f].Obj? && m.heap[f].kind == HT_CLOSURE
    requires NewFrame(p, m, m.heap[f], m.heap[a]).Ok?
    ensures RegsSafe(m.heap, NewFrame(p, m, m.heap[f], m.heap[a]).value.regs)
  {
    hide RegsSafe, HeapSafe, Spaced, AllPoint, WellFormed, Contents, Points, WithArguments, WithCaptures, Blank;
    var closure, args := m.heap[f], m.heap[a];
    var func := p.functions[closure.info.first];
    var blank := Blank(func, m.global);
    SafeObject(m.heap, f);
    if args.Obj? {
      SafeObject(m.heap, a);
    }
    BlankSafe(m.heap, func, m.global);
    WithArgumentsSafe(m.heap, blank, args, func.argumentsNr + 1);
    WithCapturesSafe(m.heap, WithArguments(blank, args, func.argumentsNr + 1).value, closure.nodes, |closure.nodes|);
  }

  lemma CallSafe(p: Program, m: Memory, regs: Regs, inst: Inst)
    requires NativesSafe(p) && MemorySafe(m) && RegsSafe(m.heap, regs) && Call(p, m, regs, inst).Ok?
    ensures var c := Call(p, m, regs, inst).value;
            EffectSafe(m, (c.memory, c.regs)) && (c.top.Some? ==> RegsSafe(c.memory.heap, c.top.value.regs))
  {
    hide MemorySafe, StillThere, Points, GetHash, NewFrame;
    StaysThere(m.heap);
    GetHashSafe(m, regs, inst.rs);
    var f := GetHash(m, regs, inst.rs).value;
    var callee := m.heap[f.0];
    if callee.kind == HT_LIGHTFUNC {
      var arg := f.1[inst.rt];
      assert Points(m.heap, arg);
      hide RegsSafe;
      var r := p.native(m, callee.info.first, arg).value;
      assert NativeSafe(m, r);
      RegsStay(m.heap, r.0.heap, f.1);
      SetRegSafe(r.0.heap, f.1, inst.rd, r.1);
    } else {
      hide RegsSafe;
      GetHashSafe(m, f.1, inst.rt);
      NewFrameSafe(p, m, f.0, GetHash(m, f.1, inst.rt).value.0);
    }
  }

  // ----- runs -----

  lemma FramesStay(h: Heap, h': Heap, frames: seq<Frame>)
    requires FramesSafe(h, frames) && StillThere(h, h')
    ensures FramesSafe(h', frames)
  {
    hide RegsSafe, StillThere;
    forall f | f in frames ensures RegsSafe(h', f.regs) {
      RegsStay(h, h', f.regs);
    }
  }

  lemma RestSafe(h: Heap, frames: seq<Frame>)
    requires FramesSafe(h, frames) && frames != []
    ensures FramesSafe(h, frames[1..]) && RegsSafe(h, frames[0].regs)
  {
    hide RegsSafe;
  }

  lemma OnTopSafe(h: Heap, top: Frame, rest: seq<Frame>)
    requires RegsSafe(h, top.regs) && FramesSafe(h, rest)
    ensures FramesSafe(h, [top] + rest)
  {
    hide RegsSafe;
  }

  /** The top frame's registers and the memory change; the frames below stay safe. */
  lemma TopSafe(s: State, e: (Memory, Regs), pc: nat)
    requires s.Running? && s.frames != [] && FramesSafe(s.memory.heap, s.frames) && EffectSafe(s.memory, e)
    ensures FramesSafe(e.0.heap, [Frame(s.frames[0].callee, pc, e.1)] + s.frames[1..])
  {
    hide FramesSafe, RegsSafe, StillThere, MemorySafe;
    RestSafe(s.memory.heap, s.frames);
    FramesStay(s.memory.heap, e.0.heap, s.frames[1..]);
    OnTopSafe(e.0.heap, Frame(s.frames[0].callee, pc, e.1), s.frames[1..]);
  }

  lemma CallStepSafe(p: Program, s: State)
    requires NativesSafe(p) && StateSafe(s) && s.Running? && s.frames != []
    requires InstAt(p, s.frames[0]).Ok? && InstAt(p, s.frames[0]).value.op == I_CALL
    ensures StateSafe(Step(p, s))
  {
    hide NativesSafe, MemorySafe, RegsSafe, StillThere, Call, InstAt;
    var f := s.frames[0];
    var r := Call(p, s.memory, f.regs, InstAt(p, f).value);
    if r.Ok? {
      var c := r.value;
      CallSafe(p, s.memory, f.regs, InstAt(p, f).value);
      TopSafe(s, (c.memory, c.regs), f.pc + 1);
      var caller := [Frame(f.callee, f.pc + 1, c.regs)] + s.frames[1..];
      if c.top.Some? {
        OnTopSafe(c.memory.heap, c.top.value, caller);
        assert [c.top.value] + caller == [c.top.value, Frame(f.callee, f.pc + 1, c.regs)] + s.frames[1..];
      }
    }
  }

  lemma RetStepSafe(p: Program, s: State)
    requires StateSafe(s) && s.Running? && s.frames != []
    requires InstAt(p, s.frames[0]).Ok? && InstAt(p, s.frames[0]).value.op == I_RET
    ensures StateSafe(Step(p, s))
  {
    hide MemorySafe, Points, InstAt;
    var h, f := s.memory.heap, s.frames[0];
    RestSafe(h, s.frames);
    if |s.frames| > 1 && GetReg(f.regs, InstAt(p, f).value.rd).Ok? {
      var value := f.regs[InstAt(p, f).value.rd];
      var caller := s.frames[1];
      RestSafe(h, s.frames[1..]);
      assert Points(h, value);
      hide RegsSafe;
      if Resumed(p, caller, value).Ok? {
        SetRegSafe(h, caller.regs, p.functions[caller.callee].code[caller.pc - 1].rd, value);
        OnTopSafe(h, Resumed(p, caller, value).value, s.frames[1..][1..]);
      }
    }
  }

  lemma OtherStepSafe(p: Program, s: State)
    requires StateSafe(s) && s.Running? && s.frames != [] && InstAt(p, s.frames[0]).Ok?
    requires InstAt(p, s.frames[0]).value.op !in {I_CALL, I_RET}
    ensures StateSafe(Step(p, s))
  {
    hide MemorySafe, RegsSafe, StillThere, InstAt, Execute, IsFalse;
    var f := s.frames[0];
    var inst := InstAt(p, f).value;
    StaysThere(s.memory.heap);
    RestSafe(s.memory.heap, s.frames);
    if inst.op == I_J || inst.op == I_BNR {
      forall pc: nat ensures FramesSafe(s.memory.heap, [f.(pc := pc)] + s.frames[1..]) {
        TopSafe(s, (s.memory, f.regs), pc);
      }
    } else if inst.op != I_HALT && Execute(p, s.memory, f.regs, inst).Ok? {
      ExecuteSafe(p, s.memory, f.regs, inst);
      TopSafe(s, Execute(p, s.memory, f.regs, inst).value, f.pc + 1);
    }
  }

  /** Every step of a machine in which all pointers lead to objects leaves one. */
  lemma StepSafe(p: Program, s: State)
    requires NativesSafe(p) && StateSafe(s)
    ensures StateSafe(Step(p, s))
  {
    hide NativesSafe, MemorySafe, RegsSafe;
    if s.Running? && s.frames != [] && InstAt(p, s.frames[0]).Ok? {
      hide Step, InstAt;
      if InstAt(p, s.frames[0]).value.op == I_CALL {
        CallStepSafe(p, s);
      } else if InstAt(p, s.frames[0]).value.op == I_RET {
        RetStepSafe(p, s);
      } else {
        OtherStepSafe(p, s);
      }
    }
  }

  /** Over whole runs. */
  lemma {:induction false} RunSafe(p: Program, s: State, n: nat)
    requires NativesSafe(p) && StateSafe(s)
    ensures StateSafe(Frames.Run(p, s, n))
  {
    hide NativesSafe, StateSafe, Step;
    if n > 0 {
      RunSafe(p, s, n - 1);
      StepSafe(p, Frames.Run(p, s, n - 1));
    }
  }

  /** So at any point of a run a register can be followed to an object exactly when it
      holds a pointer, and never leads outside the heap. */
  lemma NothingDangles(p: Program, s: State, n: nat, f: Frame, reg: nat)
    requires NativesSafe(p) && StateSafe(s) && Frames.Run(p, s, n).Running? && f in Frames.Run(p, s, n).frames
    requires reg < |f.regs|
    ensures var r := GetHash(Frames.Run(p, s, n).memory, f.regs, reg);
            if IsRef(f.regs[reg]) then r.Ok? && Frames.Run(p, s, n).memory.heap[r.value.0].Obj? else r == Fail(Trap)
  {
    hide NativesSafe, Frames.Run, Resolves, RootOf, TableOk, AllPoint, Spaced;
    RunSafe(p, s, n);
    assert RegsSafe(Frames.Run(p, s, n).memory.heap, f.regs);
  }

  // ----- runs and collections -----

  /** Safe is what a collection requires of the heap. */
  lemma SafeLeads(h: Heap)
    ensures HeapSafe(h) <==> HeapLeads(h)
  {
    hide TableOk, Entries, Resolves, AllPoint, PtrsIn;
    forall a | a in h && h[a].Obj? && TableOk(h[a])
      ensures AllPoint(h, Entries(h[a])) <==> PtrsIn(h[a], Led(h))
    {
      EntriesLead(h, h[a]);
    }
  }

  lemma EntriesLead(h: Heap, o: Obj)
    requires TableOk(o)
    ensures AllPoint(h, Entries(o)) <==> PtrsIn(o, Led(h))
  {
    hide Entries, Resolves, PtrsIn;
    PtrsAreEntries(o, Led(h));
    forall k | k in Entries(o) ensures FieldFit(Entries(o)[k], Led(h)) <==> Points(h, Entries(o)[k]) {
      FieldLeads(h, Entries(o)[k]);
    }
    hide Points, FieldFit;
  }

  lemma FieldLeads(h: Heap, v: Word)
    ensures FieldFit(v, Led(h)) <==> Points(h, v)
  {
    if IsRef(v) && Resolves(h, v) {
      assert v in h;
    }
  }

  /** A machine that can be collected is safe. */
  lemma ValidIsSafe(m: Memory, ext: map<Word, nat>, scenes: seq<Scene>)
    requires HeapLeads(m.heap) && InSpace(m.base, m.used, m.heap, ext) && LeadsIn(m.heap, Objects(m.heap), m.global)
    requires scenes != [] && ScenesIn(m.heap, Objects(m.heap), scenes)
    ensures StateSafe(Running(m, scenes[0].frames))
  {
    hide InSpace, HeapLeads, HeapSafe, Resolves, RootOf;
    SafeLeads(m.heap);
    assert FramesIn(m.heap, Objects(m.heap), scenes[0].frames);
    forall f | f in scenes[0].frames ensures RegsSafe(m.heap, f.regs) {
      assert RegsIn(m.heap, Objects(m.heap), f.regs);
    }
  }

  /** A step keeps what led to objects. */
  lemma StepThere(p: Program, s: State)
    requires NativesSafe(p) && StateSafe(s) && s.Running? && Step(p, s).Running?
    ensures StillThere(s.memory.heap, Step(p, s).memory.heap)
  {
    hide NativesSafe, MemorySafe, RegsSafe, StillThere, Call, Execute, InstAt, Resumed, IsFalse;
    StaysThere(s.memory.heap);
    if s.frames != [] && InstAt(p, s.frames[0]).Ok? {
      var f := s.frames[0];
      var inst := InstAt(p, f).value;
      RestSafe(s.memory.heap, s.frames);
      if inst.op == I_CALL {
        CallSafe(p, s.memory, f.regs, inst);
      } else if inst.op !in {I_RET, I_J, I_BNR, I_HALT} {
        ExecuteSafe(p, s.memory, f.regs, inst);
      }
    }
  }

  lemma {:induction false} RunThere(p: Program, s: State, n: nat)
    requires NativesSafe(p) && StateSafe(s) && s.Running? && Frames.Run(p, s, n).Running?
    ensures StillThere(s.memory.heap, Frames.Run(p, s, n).memory.heap)
    decreases n
  {
    hide NativesSafe, StateSafe, Step, StillThere;
    StaysThere(s.memory.heap);
    if n > 0 {
      var before := Frames.Run(p, s, n - 1);
      RunningBefore(p, before);
      RunThere(p, s, n - 1);
      RunSafe(p, s, n - 1);
      StepThere(p, before);
      ThereTwice(s.memory.heap, before.memory.heap, Step(p, before).memory.heap);
    }
  }

  lemma RunningBefore(p: Program, s: State)
    requires Step(p, s).Running?
    ensures s.Running?
  {
  }

  /** After any run the machine can be collected again: the scenes below still
      lead to objects, and so do the frames of the running one. */
  lemma RunIsCollectable(p: Program, m: Memory, ext: map<Word, nat>, scenes: seq<Scene>, n: nat)
    requires NativesSafe(p) && scenes != []
    requires HeapLeads(m.heap) && InSpace(m.base, m.used, m.heap, ext) && LeadsIn(m.heap, Objects(m.heap), m.global)
    requires ScenesIn(m.heap, Objects(m.heap), scenes)
    ensures match Frames.Run(p, Running(m, scenes[0].frames), n)
            case Running(m', frames) =>
              && HeapLeads(m'.heap) && LeadsIn(m'.heap, Objects(m'.heap), m.global)
              && ScenesIn(m'.heap, Objects(m'.heap), scenes[0 := scenes[0].(frames := frames)])
            case _ => true
  {
    hide NativesSafe, InSpace, HeapLeads, HeapSafe, Resolves, RootOf, Frames.Run, ScenesIn, Objects, RegsSafe, LeadsIn;
    hide StillThere, Points, Spaced;
    var s := Running(m, scenes[0].frames);
    ValidIsSafe(m, ext, scenes);
    RunSafe(p, s, n);
    var s' := Frames.Run(p, s, n);
    if s'.Running? {
      RunThere(p, s, n);
      SafeLeads(s'.memory.heap);
      StillLeads(m.heap, s'.memory.heap, m.global);
      StillScenes(m.heap, s'.memory.heap, scenes, s'.frames);
    }
  }

  lemma StillLeads(h: Heap, h': Heap, v: Word)
    requires StillThere(h, h') && HeapLeads(h') && LeadsIn(h, Objects(h), v)
    ensures LeadsIn(h', Objects(h'), v)
  {
    hide HeapLeads, RootOf, Objects;
    LedToObject(h', v);
  }

  lemma StillScenes(h: Heap, h': Heap, scenes: seq<Scene>, frames: seq<Frame>)
    requires StillThere(h, h') && HeapLeads(h') && ScenesIn(h, Objects(h), scenes) && scenes != []
    requires FramesSafe(h', frames)
    ensures ScenesIn(h', Objects(h'), scenes[0 := scenes[0].(frames := frames)])
  {
    hide HeapLeads, RootOf, Objects, Resolves, StillThere;
    var scenes' := scenes[0 := scenes[0].(frames := frames)];
    forall i | 0 <= i < |scenes'|
      ensures LeadsIn(h', Objects(h'), scenes'[i].external) && FramesIn(h', Objects(h'), scenes'[i].frames)
    {
      assert scenes[i] in scenes;
      assert LeadsIn(h, Objects(h), scenes[i].external) && FramesIn(h, Objects(h), scenes[i].frames);
      StillLeads(h, h', scenes[i].external);
      forall f | f in scenes'[i].frames ensures RegsIn(h', Objects(h'), f.regs) {
        forall v | v in f.regs && IsRef(v) ensures LeadsIn(h', Objects(h'), v) {
          if i == 0 {
            assert RegsSafe(h', f.regs) && Points(h', v);
            LedToObject(h', v);
          } else {
            assert RegsIn(h, Objects(h), f.regs) && LeadsIn(h, Objects(h), v);
            StillLeads(h, h', v);
          }
        }
      }
    }
  }
}
