/** The instructions of cvm_state_run that work on the heap and those that call: what
  one turn of the loop leaves, in terms of what programs see. */
module HeapInstructions {
  import opened Values
  import opened Insts
  import opened Probe
  import opened HashTables
  import opened HashRuns
  import opened Heaps
  import opened Marking
  import opened Redirects
  import opened Aliasing
  import opened YoungGens
  import opened Vms
  import opened Frames
  import opened Closures
  import opened Safety
  import opened Instructions

  /** The machine goes on behind the instruction with this memory and these registers. */
  ghost predicate Leaves(p: Program, s: State, m: Memory, regs: seq<Word>) {
    && s.Running? && s.frames != []
    && Step(p, s) == Running(m, [Frame(s.frames[0].callee, s.frames[0].pc + 1, regs)] + s.frames[1..])
  }

  /** Every address that led to an object still leads to it, and reads as it did. */
  ghost predicate ReadsAlike(h: Heap, h': Heap) {
    forall c :: Resolves(h, c) ==> Resolves(h', c) && RootOf(h', c) == RootOf(h, c) && View(h', c) == View(h, c)
  }

  /** The heap has one object more: of this kind, with these fields. */
  ghost predicate Added(m: Memory, m': Memory, a: Word, kind: HashType, fields: map<Word, Word>) {
    && a !in m.heap && m'.heap.Keys == m.heap.Keys + {a}
    && m'.heap[a].Obj? && m'.heap[a].kind == kind
    && View(m'.heap, a) == Some(fields) && ReadsAlike(m.heap, m'.heap)
    && m'.base == m.base && m'.global == m.global && m'.used > m.used
  }

  lemma AddedIs(m: Memory, m': Memory, a: Word, o: Obj)
    requires a !in m.heap && HasTable(o) && m'.heap == m.heap[a := o]
    requires m'.base == m.base && m'.global == m.global && m'.used > m.used
    ensures Added(m, m', a, o.kind, Entries(o))
  {
    hide RootOf, Resolves, Entries, TableOk, View;
    HasTableIsObj(o);
    forall c | Resolves(m.heap, c)
      ensures Resolves(m'.heap, c) && RootOf(m'.heap, c) == RootOf(m.heap, c) && View(m'.heap, c) == View(m.heap, c)
    {
      NewKeepsViews(m.heap, a, o, c);
    }
    ViewOfObject(m'.heap, a);
  }

  lemma ViewOfObject(h: Heap, a: Word)
    requires a in h && HasTable(h[a])
    ensures View(h, a) == Some(Entries(h[a]))
  {
    HasTableIsObj(h[a]);
    hide HasTable, Entries, RootOf, Resolves;
    ObjectResolves(h, a);
  }

  lemma AllocateStep(m: Memory, kind: HashType)
    requires MemorySafe(m) && (kind == HT_OBJECT || kind == HT_ARRAY)
    ensures if m.used + 148 > 0x200_0000 then Allocate(m, HASH_MIN_CAPACITY, kind) == Fail(BlockFull)
            else
              && Allocate(m, HASH_MIN_CAPACITY, kind).Ok?
              && var (m', a) := Allocate(m, HASH_MIN_CAPACITY, kind).value;
                 && a == Wrap(m.base + m.used) && Added(m, m', a, kind, map[])
                 && |m'.heap[a].nodes| == 16 && m'.used == m.used + 148
  {
    hide NormalizeCapacity, Entries, TableOk, Added, MemorySafe, EmptyNodes;
    SixteenIsNormal();
    NewTable(16, kind);
    if m.used + 148 <= 0x200_0000 {
      var (m', a) := Allocate(m, 16, kind).value;
      AllocateSafe(m, 16, kind);
      AddedIs(m, m', a, Obj(kind, Info(0, 0), 0, EmptyNodes(16)));
    }
  }

  /** New objects and arrays: 16 slots, no fields. */
  lemma NewObjectStep(p: Program, s: State, op: Op, rd: nat, rs: nat, rt: nat)
    requires StandsAt(p, s, DType(op, rd, rs, rt)) && (op == I_NEW_OBJ || op == I_NEW_ARR)
    requires rd < |s.frames[0].regs| && MemorySafe(s.memory)
    ensures if s.memory.used + 148 > 0x200_0000 then Step(p, s) == Stopped(BlockFull)
            else
              && Step(p, s).Running?
              && var a, m' := Wrap(s.memory.base + s.memory.used), Step(p, s).memory;
                 && Leaves(p, s, m', Wrote(s.frames[0].regs, rd, a))
                 && Added(s.memory, m', a, if op == I_NEW_OBJ then HT_OBJECT else HT_ARRAY, map[])
                 && |m'.heap[a].nodes| == 16 && m'.used == s.memory.used + 148
  {
    hide Allocate, Added, MemorySafe;
    AllocateStep(s.memory, if op == I_NEW_OBJ then HT_OBJECT else HT_ARRAY);
  }

  lemma SixteenIsNormal()
    ensures IsCapacity(16) && NormalizeCapacity(16) == 16
  {
    assert Pow2(4) == 16 by {
      assert Pow2(3) == 8;
    }
    NormalizeOfCapacity(16);
  }

  lemma NewTable(n: nat, kind: HashType)
    requires IsCapacity(n) && kind in {HT_OBJECT, HT_ARRAY, HT_CLOSURE}
    ensures var o := Obj(kind, Info(0, 0), 0, EmptyNodes(n));
            HasTable(o) && Entries(o) == map[] && |EmptyNodes(n)| == n
  {
    hide TableOk, Entries, IsCapacity;
    NewObjectOk(n, kind);
  }

  // ----- fields -----

  /** What a program names a field by: a string in an object, a number elsewhere. */
  predicate Names(o: Obj, w: Word, key: Word)
    requires o.Obj?
  {
    if o.kind == HT_OBJECT then w % 4 == 2 && key == w - 2 else w % 4 == 1 && key == Wrap(ToInt(w))
  }

  lemma KeyIs(o: Obj, w: Word)
    requires o.Obj?
    ensures match KeyOf(o, w)
            case Ok(key) => Names(o, w, key)
            case Fail(reason) => reason == Trap && forall key: Word :: !Names(o, w, key)
    ensures forall key: Word :: Names(o, w, key) ==> KeyOf(o, w) == Ok(key)
  {
    hide ToInt, Wrap;
  }

  /** A register that holds a pointer is followed to an object, which is left in it. */
  lemma Followed(m: Memory, regs: seq<Word>, reg: nat)
    requires MemorySafe(m) && RegsSafe(m.heap, regs) && reg < |regs|
    ensures !IsRef(regs[reg]) ==> GetHash(m, regs, reg) == Fail(Trap)
    ensures IsRef(regs[reg]) ==>
              && Resolves(m.heap, regs[reg])
              && var root := RootOf(m.heap, regs[reg]);
                 && GetHash(m, regs, reg) == Ok((root, Wrote(regs, reg, root)))
                 && root in m.heap && m.heap[root].Obj? && TableOk(m.heap[root])
                 && RegsSafe(m.heap, Wrote(regs, reg, root))
  {
    hide RootOf, Resolves, TableOk, Spaced, AllPoint, IsRef;
    assert Points(m.heap, regs[reg]);
    if IsRef(regs[reg]) {
      RootIsObject(m.heap, regs[reg]);
      GetHashSafe(m, regs, reg);
    }
  }

  /** The fields after an assignment: null and undefined delete. */
  ghost function Assigned(fields: map<Word, Word>, key: Word, value: Word): map<Word, Word> {
    if value == 0 || value % 4 == 3 then fields - {key} else fields[key := value]
  }

  lemma AssignedIs(fields: map<Word, Word>, key: Word, value: Word)
    ensures Assigned(fields, key, value) == Updated(fields, key, value)
  {
  }

  /** Every address of the object behind `root` reads the fields with the
      assignment, and every other address reads what it read. */
  ghost predicate AssignedAt(h: Heap, h': Heap, root: Word, key: Word, value: Word) {
    forall c :: View(h, c).Some? ==>
      View(h', c) == Some(if RootOf(h, c) == root then Assigned(View(h, c).value, key, value) else View(h, c).value)
  }

  lemma FieldAssigned(m: Memory, root: Word, key: Word, value: Word)
    requires MemorySafe(m) && root in m.heap && SetField(m, root, key, value).Ok?
    ensures AssignedAt(m.heap, SetField(m, root, key, value).value.heap, root, key, value)
  {
    hide InSpace, RootOf, SetHeap, Outgrows, Writable, Assigned, Updated, HeapSafe, Points, SetResult, Resolves;
    hide HasTable, Entries;
    SetFieldParts(m, root, key, value);
    var ext :| InSpace(m.base, m.used, m.heap, ext);
    var m' := SetField(m, root, key, value).value;
    var b := FieldSpace(m, root, key, value, ext);
    forall c | View(m.heap, c).Some?
      ensures View(m'.heap, c)
           == Some(if RootOf(m.heap, c) == root then Assigned(View(m.heap, c).value, key, value) else View(m.heap, c).value)
    {
      SetHeapIs(m.heap, root, key, value, b);
      SetIsTransparent(m.heap, root, key, value, b, c);
      AssignedIs(View(m.heap, c).value, key, value);
    }
  }

  lemma SetHeapIs(h: Heap, root: Word, key: Word, value: Word, b: Word)
    requires root in h && Writable(h[root], key)
    ensures SetHeap(h, root, key, value, b)
         == Written(h, root, b, SetResult(h[root], key, value), Outgrows(h[root], key, value))
  {
    hide SetResult, Outgrows, Writable, Written;
  }

  /** What stands in a register once another one has been followed. */
  function Seen(regs: seq<Word>, reg: nat, root: Word, r: nat): Word
    requires reg < |regs| && r < |regs|
  {
    if r == reg && r != 0 then root else regs[r]
  }

  /** A field assignment: the word in rs under the name in rt, in the object behind rd. */
  lemma SetObjectStep(p: Program, s: State, rd: nat, rs: nat, rt: nat)
    requires StandsAt(p, s, DType(I_SET_OBJ, rd, rs, rt)) && MemorySafe(s.memory)
    requires var n := |s.frames[0].regs|; rd < n && rs < n && rt < n
    requires RegsSafe(s.memory.heap, s.frames[0].regs)
    ensures var m, regs, next := s.memory, s.frames[0].regs, Step(p, s);
            if !IsRef(regs[rd]) then Traps(p, s)
            else
              && Resolves(m.heap, regs[rd])
              && var root := RootOf(m.heap, regs[rd]);
                 && root in m.heap && m.heap[root].Obj?
                 && ((forall key: Word :: !Names(m.heap[root], regs[rt], key)) ==> Traps(p, s))
                 && forall key: Word :: Names(m.heap[root], regs[rt], key) && next.Running? ==>
                      && Leaves(p, s, next.memory, Wrote(regs, rd, root))
                      && AssignedAt(m.heap, next.memory.heap, root, key, Seen(regs, rd, root, rs))
  {
    hide GetHash, SetField, MemorySafe, RegsSafe, Resolves, RootOf, KeyOf, Names, AssignedAt, IsRef, TableOk;
    var m, regs := s.memory, s.frames[0].regs;
    Followed(m, regs, rd);
    if IsRef(regs[rd]) {
      var root := RootOf(m.heap, regs[rd]);
      KeyIs(m.heap[root], regs[rt]);
      SameName(m, regs, rd, rt, root);
      if KeyOf(m.heap[root], regs[rt]).Ok? && SetObject(m, regs, rd, rs, rt).Ok? {
        FieldAssigned(m, root, KeyOf(m.heap[root], regs[rt]).value, Seen(regs, rd, root, rs));
      }
    }
  }

  /** Pointers name no field. */
  lemma NoName(o: Obj, w: Word)
    requires o.Obj? && w % 4 == 0
    ensures KeyOf(o, w) == Fail(Trap)
  {
  }

  lemma RefIsAligned(v: Word)
    requires IsRef(v)
    ensures v % 4 == 0
  {
  }

  lemma Aligned(m: Memory, a: Word)
    requires MemorySafe(m) && a in m.heap
    ensures a % 4 == 0 && IsRef(a)
  {
    hide HeapSafe, Points, Sum;
    var ext :| InSpace(m.base, m.used, m.heap, ext);
    assert Fits(m.base, m.used, a, m.heap[a], ext[a]);
  }

  /** Some slot has this key or has never been used. */
  ghost predicate HasPlace(nodes: seq<Node>, key: Word) {
    exists i :: 0 <= i < |nodes| && (nodes[i].key == key || nodes[i].value == 0)
  }

  lemma PlaceStops(node: Node, key: Word)
    ensures Stops(node, key) <==> node.key == key || node.value == 0
  {
  }

  lemma PlaceEndsSearch(nodes: seq<Node>, key: Word)
    requires WellFormed(nodes)
    ensures IsCapacity(|nodes|) && (Ends(nodes, key) <==> HasPlace(nodes, key))
  {
    TableCapacity(nodes);
    hide IsCapacity, Ends, Stops, WellFormed;
    SearchEndsIff(nodes, key);
    forall i | 0 <= i < |nodes| ensures Stops(nodes[i], key) <==> nodes[i].key == key || nodes[i].value == 0 {
      PlaceStops(nodes[i], key);
    }
  }

  /** An assignment is carried out if there is a place for the name and room for a
      larger table; without a place its search never ends. */
  lemma SetObjectGoesOn(p: Program, s: State, rd: nat, rs: nat, rt: nat, key: Word)
    requires StandsAt(p, s, DType(I_SET_OBJ, rd, rs, rt)) && MemorySafe(s.memory)
    requires var n := |s.frames[0].regs|; rd < n && rs < n && rt < n
    requires RegsSafe(s.memory.heap, s.frames[0].regs) && IsRef(s.frames[0].regs[rd])
    ensures var m, regs := s.memory, s.frames[0].regs;
            && Resolves(m.heap, regs[rd]) && RootOf(m.heap, regs[rd]) in m.heap
            && var o := m.heap[RootOf(m.heap, regs[rd])];
               o.Obj? && o.kind != HT_USERDATA && Names(o, regs[rt], key) && |o.nodes| < 0x8000_0000 ==>
                 && (!HasPlace(o.nodes, key) ==> Step(p, s) == Stopped(EndlessSearch))
                 && (HasPlace(o.nodes, key) && m.used + 20 + 16 * |o.nodes| <= 0x200_0000 ==> Step(p, s).Running?)
  {
    hide GetHash, MemorySafe, RegsSafe, Resolves, RootOf, KeyOf, Names, IsRef, WellFormed, Ends, SetHeap, Outgrows;
    hide HasPlace, Contents;
    var m, regs := s.memory, s.frames[0].regs;
    Followed(m, regs, rd);
    var root := RootOf(m.heap, regs[rd]);
    var o := m.heap[root];
    if o.kind != HT_USERDATA && Names(o, regs[rt], key) && |o.nodes| < 0x8000_0000 {
      KeyIs(o, regs[rt]);
      SameName(m, regs, rd, rt, root);
      PlaceEndsSearch(o.nodes, key);
      FieldGoesOn(m, root, key, Seen(regs, rd, root, rs));
    }
  }

  lemma FieldGoesOn(m: Memory, root: Word, key: Word, value: Word)
    requires root in m.heap && HasTable(m.heap[root]) && |m.heap[root].nodes| < SIGN_BIT
    ensures !Ends(m.heap[root].nodes, key) ==> SetField(m, root, key, value) == Fail(EndlessSearch)
    ensures Ends(m.heap[root].nodes, key) && m.used + TotalSize(2 * |m.heap[root].nodes|) <= 0x200_0000 ==>
              SetField(m, root, key, value).Ok?
  {
    hide Ends, SetHeap, Outgrows, HasTable;
  }

  /** Following a register does not change what another one names. */
  lemma SameName(m: Memory, regs: seq<Word>, reg: nat, rt: nat, root: Word)
    requires MemorySafe(m) && reg < |regs| && rt < |regs| && IsRef(regs[reg]) && root in m.heap && m.heap[root].Obj?
    ensures KeyOf(m.heap[root], Wrote(regs, reg, root)[rt]) == KeyOf(m.heap[root], regs[rt])
  {
    hide MemorySafe, IsRef, KeyOf;
    Aligned(m, root);
    RefIsAligned(regs[reg]);
    NoName(m.heap[root], regs[reg]);
    NoName(m.heap[root], root);
  }

  /** Reading a field: what the object behind rs reads under the name in rt. */
  lemma GetObjectStep(p: Program, s: State, rd: nat, rs: nat, rt: nat)
    requires StandsAt(p, s, DType(I_GET_OBJ, rd, rs, rt)) && MemorySafe(s.memory)
    requires var n := |s.frames[0].regs|; rd < n && rs < n && rt < n
    requires RegsSafe(s.memory.heap, s.frames[0].regs)
    ensures var m, regs := s.memory, s.frames[0].regs;
            if !IsRef(regs[rs]) then Traps(p, s)
            else
              && Resolves(m.heap, regs[rs])
              && var root, view := RootOf(m.heap, regs[rs]), View(m.heap, regs[rs]);
                 && root in m.heap && m.heap[root].Obj?
                 && ((forall key: Word :: !Names(m.heap[root], regs[rt], key)) ==> Traps(p, s))
                 && forall key: Word :: Names(m.heap[root], regs[rt], key) && view.Some? ==>
                      if !HasPlace(m.heap[root].nodes, key) then Step(p, s) == Stopped(EndlessSearch)
                      else
                        exists v: Word ::
                          && (if key in view.value then v == view.value[key] else v % 4 == 3)
                          && Leaves(p, s, m, Wrote(Wrote(regs, rs, root), rd, v))
  {
    hide GetHash, MemorySafe, RegsSafe, Resolves, RootOf, KeyOf, Names, IsRef, WellFormed, HasPlace, Contents;
    hide Find, Entries, HasTable, Ends;
    var m, regs := s.memory, s.frames[0].regs;
    Followed(m, regs, rs);
    if IsRef(regs[rs]) {
      var root := RootOf(m.heap, regs[rs]);
      var o := m.heap[root];
      KeyIs(o, regs[rt]);
      SameName(m, regs, rs, rt, root);
      if KeyOf(o, regs[rt]).Ok? && View(m.heap, regs[rs]).Some? {
        var key := KeyOf(o, regs[rt]).value;
        FieldFound(o, key);
        if Find(o, key).Ok? {
          var v := Find(o, key).value;
          assert Leaves(p, s, m, Wrote(Wrote(regs, rs, root), rd, v));
        }
      }
    }
  }

  lemma FieldFound(o: Obj, key: Word)
    requires HasTable(o)
    ensures o.Obj?
    ensures match Find(o, key)
            case Ok(v) =>
              HasPlace(o.nodes, key) && (if key in Entries(o) then v == Entries(o)[key] else v % 4 == 3)
            case Fail(reason) => reason == EndlessSearch && !HasPlace(o.nodes, key)
  {
    hide WellFormed, Contents, HasPlace, FindIn, Ends;
    PlaceEndsSearch(o.nodes, key);
    if HasPlace(o.nodes, key) {
      FindIsLookup(o.nodes, key);
    }
  }

  // ----- closures and calls -----

  lemma {:induction false} BoundKeys(captures: seq<Capture>, regs: seq<Word>, k: nat)
    requires k <= |captures| && forall i :: 0 <= i < k ==> captures[i].outer < |regs|
    ensures forall key :: key in Bound(map[], captures, regs, k) ==>
              exists i :: 0 <= i < k && Wrap(captures[i].inner) == key
    decreases k
  {
    if k > 0 {
      BoundKeys(captures, regs, k - 1);
    }
  }

  /** The value of a captured variable is the field under its inner register; null
      and undefined leave none. */
  ghost predicate CapturedIn(c: Capture, regs: seq<Word>, fields: map<Word, Word>) {
    && c.outer < |regs|
    && var w := regs[c.outer];
       if w == 0 || w % 4 == 3 then c.inner !in fields else c.inner in fields && fields[c.inner] == w
  }

  /** The captured variables, and nothing else. */
  ghost predicate Captures(captures: seq<Capture>, regs: seq<Word>, fields: map<Word, Word>) {
    && (forall key :: key in fields ==> exists i :: 0 <= i < |captures| && captures[i].inner == key)
    && (forall c :: c in captures ==> CapturedIn(c, regs, fields))
  }

  lemma BoundCaptures(captures: seq<Capture>, regs: seq<Word>)
    requires Named(captures) && forall i :: 0 <= i < |captures| ==> captures[i].outer < |regs|
    ensures Captures(captures, regs, Bound(map[], captures, regs, |captures|))
  {
    hide Bound, Apart, CapturedIn;
    var fields := Bound(map[], captures, regs, |captures|);
    BoundKeys(captures, regs, |captures|);
    forall i | 0 <= i < |captures| ensures CapturedIn(captures[i], regs, fields) {
      BoundOne(captures, regs, i);
    }
    forall key | key in fields ensures exists i :: 0 <= i < |captures| && captures[i].inner == key {
      var i :| 0 <= i < |captures| && Wrap(captures[i].inner) == key;
      assert captures[i].inner == key;
    }
  }

  lemma BoundOne(captures: seq<Capture>, regs: seq<Word>, i: nat)
    requires Named(captures) && i < |captures| && forall j :: 0 <= j < |captures| ==> captures[j].outer < |regs|
    ensures CapturedIn(captures[i], regs, Bound(map[], captures, regs, |captures|))
  {
    hide Bound, Apart;
    BoundAt(map[], captures, regs, |captures|, i);
    LiveIs(regs[captures[i].outer]);
    hide IsLive;
  }

  lemma LiveIs(w: Word)
    ensures IsLive(w) <==> !(w == 0 || w % 4 == 3)
  {
  }

  /** A new closure: of the function the immediate stands for, with the captured
      registers as they are when it is in rd already. */
  lemma NewClosureStep(p: Program, s: State, rd: nat, imm: int)
    requires StandsAt(p, s, IType(I_NEW_CLS, rd, imm)) && MemorySafe(s.memory) && Step(p, s).Running?
    requires 0 <= imm < |p.functions| ==> Named(p.functions[imm].captures)
    ensures 0 <= imm < |p.functions| && rd < |s.frames[0].regs|
    ensures var a, m', regs' := Wrap(s.memory.base + s.memory.used), Step(p, s).memory, Wrote(s.frames[0].regs, rd,
                                 Wrap(s.memory.base + s.memory.used));
            && Leaves(p, s, m', regs')
            && exists fields ::
                 && Added(s.memory, m', a, HT_CLOSURE, fields)
                 && m'.heap[a].info.first == Wrap(imm)
                 && Captures(p.functions[imm].captures, regs', fields)
  {
    hide MemorySafe, Added, Captured, WellFormed, Contents, Bound, NormalizeCapacity, IsCapacity, NewClosure, Captures;
    hide SetReg, Entries, HasTable, Named;
    var m, regs := s.memory, s.frames[0].regs;
    NewClosureParts(p, m, regs, rd, imm);
    var captures := p.functions[imm].captures;
    var n := NormalizeCapacity(|captures|);
    var a, regs' := Wrap(m.base + m.used), Wrote(regs, rd, Wrap(m.base + m.used));
    WroteIs(regs, rd, a);
    AllocatedThere(m, |captures|);
    var nodes := Captured(EmptyNodes(n), captures, regs', |captures|).value;
    EmptyTable(n);
    CapturedContents(EmptyNodes(n), captures, regs', |captures|);
    BoundCaptures(captures, regs');
    ClosureTable(imm, nodes);
    ClosureFits(ClosureOf(imm, nodes));
    AddedIs(m, Step(p, s).memory, a, ClosureOf(imm, nodes));
    assert Added(m, Step(p, s).memory, a, HT_CLOSURE, Contents(nodes));
  }

  lemma WroteIs(regs: seq<Word>, rd: nat, value: Word)
    requires rd < |regs|
    ensures SetReg(regs, rd, value) == Ok(Wrote(regs, rd, value))
  {
  }

  lemma AllocatedThere(m: Memory, capacity: nat)
    requires MemorySafe(m) && 0 < capacity && m.used + TotalSize(NormalizeCapacity(capacity)) <= YOUNG_GEN_BLOCK_SIZE
    ensures Wrap(m.base + m.used) !in m.heap
  {
    hide MemorySafe, NormalizeCapacity;
    AllocateSafe(m, capacity, HT_CLOSURE);
  }

  /** A call of a native function: memory and rd are what it returns for the word in
      rt; its error is one of the machine. */
  lemma NativeCallStep(p: Program, s: State, rd: nat, rs: nat, rt: nat)
    requires StandsAt(p, s, DType(I_CALL, rd, rs, rt)) && MemorySafe(s.memory)
    requires var n := |s.frames[0].regs|; rd < n && rs < n && rt < n
    requires RegsSafe(s.memory.heap, s.frames[0].regs)
    ensures var m, regs := s.memory, s.frames[0].regs;
            if !IsRef(regs[rs]) then Traps(p, s)
            else
              && Resolves(m.heap, regs[rs])
              && var f := RootOf(m.heap, regs[rs]);
                 && f in m.heap && m.heap[f].Obj?
                 && (m.heap[f].kind !in {HT_LIGHTFUNC, HT_CLOSURE} ==> Traps(p, s))
                 && (m.heap[f].kind == HT_LIGHTFUNC ==>
                      match p.native(m, m.heap[f].info.first, Seen(regs, rs, f, rt))
                      case None => Traps(p, s)
                      case Some((m', value)) => Leaves(p, s, m', Wrote(Wrote(regs, rs, f), rd, value)))
  {
    hide GetHash, MemorySafe, RegsSafe, Resolves, RootOf, IsRef, NewFrame, TableOk;
    Followed(s.memory, s.frames[0].regs, rs);
  }

  /** The top frame is a new one: at the start of the closure's function, its
      registers holding the captured values, the arguments, or undefined. */
  ghost predicate Entered(p: Program, next: State, closure: Obj, captured: map<Word, Word>, args: map<Word, Word>) {
    && closure.Obj? && next.Running? && next.frames != [] && closure.info.first < |p.functions|
    && var top, f := next.frames[0], p.functions[closure.info.first];
       && top.callee == closure.info.first && top.pc == 0
       && |top.regs| == f.registerNr + 1 && top.regs[0] == FromInt(0)
       && forall r: Word :: 0 < r < |top.regs| ==> Holds(f, captured, args, r, top.regs[r])
  }

  /** A call of a closure: its frame gets the fields of the object behind rs as
      captured values and those of the object behind rt as arguments, and the
      caller waits behind the call. */
  lemma ClosureCallStep(p: Program, s: State, rd: nat, rs: nat, rt: nat)
    requires StandsAt(p, s, DType(I_CALL, rd, rs, rt)) && MemorySafe(s.memory) && Step(p, s).Running?
    requires var n := |s.frames[0].regs|; rd < n && rs < n && rt < n
    requires RegsSafe(s.memory.heap, s.frames[0].regs)
    requires var m, callee := s.memory, s.frames[0].regs[rs];
             && IsRef(callee) && Resolves(m.heap, callee) && RootOf(m.heap, callee) in m.heap
             && var closure := m.heap[RootOf(m.heap, callee)];
                closure.Obj? && closure.kind == HT_CLOSURE
                && (closure.info.first < |p.functions| ==> p.functions[closure.info.first].argumentsNr + 1 < WORD_RANGE)
    ensures var m, regs, next := s.memory, s.frames[0].regs, Step(p, s);
            && IsRef(regs[rt]) && Resolves(m.heap, regs[rt])
            && View(m.heap, regs[rs]).Some? && View(m.heap, regs[rt]).Some?
            && var f, args := RootOf(m.heap, regs[rs]), RootOf(m.heap, regs[rt]);
               && Entered(p, next, m.heap[f], View(m.heap, regs[rs]).value, View(m.heap, regs[rt]).value)
               && next.memory == m
               && next.frames[1..] == [Frame(s.frames[0].callee, s.frames[0].pc + 1, Wrote(Wrote(regs, rs, f), rt, args))]
                                      + s.frames[1..]
  {
    hide GetHash, MemorySafe, RegsSafe, Resolves, RootOf, IsRef, NewFrame, Entries, Contents, WellFormed, Holds;
    var m, regs := s.memory, s.frames[0].regs;
    Followed(m, regs, rs);
    var f := RootOf(m.heap, regs[rs]);
    Followed(m, Wrote(regs, rs, f), rt);
    RootIsObject(m.heap, regs[rs]);
    if rt == rs && rs != 0 {
      assert Wrote(regs, rs, f)[rt] == f;
    }
    var args := RootOf(m.heap, regs[rt]);
    FrameEntered(p, m, m.heap[f], m.heap[args]);
  }

  lemma FrameEntered(p: Program, m: Memory, closure: Obj, args: Obj)
    requires TableOk(closure) && closure.kind == HT_CLOSURE && NewFrame(p, m, closure, args).Ok?
    requires closure.info.first < |p.functions| ==> p.functions[closure.info.first].argumentsNr + 1 < WORD_RANGE
    ensures HasTable(closure) && HasTable(args)
    ensures forall next: State ::
              next.Running? && next.frames != [] && next.frames[0] == NewFrame(p, m, closure, args).value ==>
                Entered(p, next, closure, Entries(closure), Entries(args))
  {
    hide Contents, WellFormed, Setup, Holds;
    FrameOfClosure(p, m, closure, args);
    var top := NewFrame(p, m, closure, args).value;
    assert HasTable(args) by {
      FrameHolds(p, m, closure, args, 1);
    }
    forall r: Word | 0 < r < |top.regs|
      ensures Holds(p.functions[closure.info.first], Contents(closure.nodes), Contents(args.nodes), r, top.regs[r])
    {
      FrameHolds(p, m, closure, args, r);
    }
  }

  lemma {:induction false} ArgumentsGoOn(regs: seq<Word>, args: Obj, k: nat)
    requires HasTable(args) && k < |regs| && forall i: nat :: i < k ==> HasPlace(args.nodes, Wrap(i))
    ensures WithArguments(regs, args, k).Ok?
    decreases k
  {
    hide HasTable, Find, HasPlace;
    if k > 0 {
      ArgumentsGoOn(regs, args, k - 1);
      FieldFound(args, Wrap(k - 1));
    }
  }

  lemma {:induction false} CapturesGoOn(regs: seq<Word>, nodes: seq<Node>, k: nat)
    requires WellFormed(nodes) && k <= |nodes| && forall key :: key in Contents(nodes) ==> key < |regs|
    ensures WithCaptures(regs, nodes, k).Ok?
    decreases k
  {
    hide WellFormed, Contents;
    if k > 0 {
      CapturesGoOn(regs, nodes, k - 1);
      if IsLive(nodes[k - 1].value) {
        ContentsAt(nodes, k - 1);
      }
    }
  }

  /** The function of the closure has registers for its arguments and captured
      values, and the search for every argument ends. */
  ghost predicate Callable(p: Program, closure: Obj, args: Obj) {
    && closure.Obj? && HasTable(closure) && args.Obj? && HasTable(args) && closure.info.first < |p.functions|
    && var f := p.functions[closure.info.first];
       && f.argumentsNr + 1 <= f.registerNr
       && (forall i: nat :: i <= f.argumentsNr ==> HasPlace(args.nodes, Wrap(i)))
       && (forall key :: key in Entries(closure) ==> key <= f.registerNr)
  }

  lemma FrameGoesOn(p: Program, m: Memory, closure: Obj, args: Obj)
    requires Callable(p, closure, args)
    ensures NewFrame(p, m, closure, args).Ok?
  {
    hide HasPlace, WellFormed, Contents, WithArguments, WithCaptures, Blank;
    var f := p.functions[closure.info.first];
    var blank := Blank(f, m.global);
    ArgumentsGoOn(blank, args, f.argumentsNr + 1);
    var given := WithArguments(blank, args, f.argumentsNr + 1).value;
    assert |given| == f.registerNr + 1;
    assert Entries(closure) == Contents(closure.nodes);
    CapturesGoOn(given, closure.nodes, |closure.nodes|);
  }

  /** Such a call is carried out. */
  lemma ClosureCallGoesOn(p: Program, s: State, rd: nat, rs: nat, rt: nat)
    requires StandsAt(p, s, DType(I_CALL, rd, rs, rt)) && MemorySafe(s.memory)
    requires var n := |s.frames[0].regs|; rd < n && rs < n && rt < n
    requires RegsSafe(s.memory.heap, s.frames[0].regs)
    requires var h, regs := s.memory.heap, s.frames[0].regs;
             && IsRef(regs[rs]) && Resolves(h, regs[rs]) && RootOf(h, regs[rs]) in h
             && IsRef(regs[rt]) && Resolves(h, regs[rt]) && RootOf(h, regs[rt]) in h
             && h[RootOf(h, regs[rs])].Obj? && h[RootOf(h, regs[rs])].kind == HT_CLOSURE
             && Callable(p, h[RootOf(h, regs[rs])], h[RootOf(h, regs[rt])])
    ensures Step(p, s).Running?
  {
    hide GetHash, MemorySafe, RegsSafe, Resolves, RootOf, IsRef, NewFrame, TableOk, Callable;
    var m, regs := s.memory, s.frames[0].regs;
    Followed(m, regs, rs);
    var f := RootOf(m.heap, regs[rs]);
    Aligned(m, f);
    Followed(m, Wrote(regs, rs, f), rt);
    RootIsObject(m.heap, regs[rs]);
    if rt == rs && rs != 0 {
      assert Wrote(regs, rs, f)[rt] == f;
    }
    var args := RootOf(m.heap, regs[rt]);
    FrameGoesOn(p, m, m.heap[f], m.heap[args]);
  }
}
