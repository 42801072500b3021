/** The two-block young generation of src/young_gen.c. */
module YoungGens {
  import opened Values
  import opened Probe
  import opened HashTables
  import opened HashRuns
  import opened Hashes
  import opened Heaps
  import opened Marking
  import opened Redirects
  import opened Orders

  class YoungGenBlock {
    const base: Word
    var used: nat
    var objectCount: nat
    var objects: Heap
    ghost var extents: map<Word, nat>

    /** _young_gen_block_new, at the aligned address the system returned. */
    constructor (base: Word)
      requires base > 0 && base % YOUNG_GEN_BLOCK_SIZE == 0 && base + YOUNG_GEN_BLOCK_SIZE <= WORD_RANGE
      ensures this.base == base && objects == map[] && objectCount == 0
      ensures InSpace(base, used, objects, extents)
    {
      this.base := base;
      used, objectCount, objects, extents := BLOCK_HEADER, 0, map[], map[];
    }

    /** _young_gen_allocate: the address of `size` more bytes, or null when the block is full. */
    method Allocate(size: nat) returns (address: Word)
      requires base + YOUNG_GEN_BLOCK_SIZE <= WORD_RANGE && size > 0 && base > 0
      modifies this`used, this`objectCount
      ensures address == NULL <==> old(used) + size > YOUNG_GEN_BLOCK_SIZE
      ensures address == NULL ==> used == old(used) && objectCount == old(objectCount)
      ensures address != NULL ==>
                address == base + old(used) && used == old(used) + size && objectCount == old(objectCount) + 1
    {
      if used + size > YOUNG_GEN_BLOCK_SIZE {
        return NULL;
      }
      address := base + used;
      used := used + size;
      objectCount := objectCount + 1;
    }
  }

  /** The copy young_gen_gc_mark makes: rehashed into half the slots when less
      than half are taken, byte for byte otherwise. */
  method CopyHash(o: Obj) returns (copy: Obj)
    requires TableOk(o)
    ensures copy == Shrunken(o) && copy.Obj? && Moved(o, copy)
    ensures |copy.nodes| == if |o.nodes| > 16 && o.size < |o.nodes| / 2 then |o.nodes| / 2 else |o.nodes|
    ensures |copy.nodes| == |o.nodes| ==> copy == o
  {
    hide WellFormed, Contents, Rehash, IsCapacity;
    if NeedShrink(o.size, |o.nodes|) {
      TableCapacity(o.nodes);
      HalveCapacity(|o.nodes|);
      var src := new Hash.At(o.kind, o.info, o.size, o.nodes);
      var dst := new Hash(|o.nodes| / 2, o.kind);
      dst.Rehash(src);
      copy := Obj(o.kind, o.info, dst.size, dst.content[..]);
    } else {
      copy := o;
    }
  }

  class YoungGen {
    var current: YoungGenBlock
    var replacement: YoungGenBlock

    /** young_gen_new, with two different blocks from the system. */
    constructor (first: Word, second: Word)
      requires first != second
      requires first > 0 && first % YOUNG_GEN_BLOCK_SIZE == 0 && first + YOUNG_GEN_BLOCK_SIZE <= WORD_RANGE
      requires second > 0 && second % YOUNG_GEN_BLOCK_SIZE == 0 && second + YOUNG_GEN_BLOCK_SIZE <= WORD_RANGE
      ensures fresh(current) && fresh(replacement) && current != replacement
      ensures current.base == first && replacement.base == second
      ensures current.objects == map[] && replacement.objects == map[]
      ensures Idle() && current.used == BLOCK_HEADER
    {
      current := new YoungGenBlock(first);
      replacement := new YoungGenBlock(second);
      new;
      hide AllFit;
      EmptyBlock(first, current.used, current.objects, current.extents);
    }

    ghost function Now(): Snapshot
      reads this, current, replacement
    {
      Snapshot(current.objects, replacement.objects, replacement.used, replacement.extents)
    }

    /** Between collections: the replacement block is empty. */
    ghost predicate Idle()
      reads this, current, replacement
    {
      && current != replacement && current.base != replacement.base
      && InSpace(current.base, current.used, current.objects, current.extents)
      && InSpace(replacement.base, replacement.used, replacement.objects, replacement.extents)
      && replacement.objects == map[]
    }

    /** young_gen_new_hash: null when the block is full.  The capacity is rounded up
        to a power of two. */
    method NewHash(capacity: nat, kind: HashType) returns (address: Word)
      requires 0 < capacity <= SIGN_BIT
      requires InSpace(current.base, current.used, current.objects, current.extents)
      modifies current
      ensures InSpace(current.base, current.used, current.objects, current.extents)
      ensures address == NULL <==> old(current.used) + TotalSize(NormalizeCapacity(capacity)) > YOUNG_GEN_BLOCK_SIZE
      ensures address == NULL ==> current.objects == old(current.objects)
      ensures address != NULL ==>
                && address !in old(current.objects) && address == current.base + old(current.used)
                && current.used == old(current.used) + TotalSize(NormalizeCapacity(capacity))
                && IsCapacity(NormalizeCapacity(capacity))
                && current.objects
                   == old(current.objects)[address := Obj(kind, Info(0, 0), 0, EmptyNodes(NormalizeCapacity(capacity)))]
    {
      hide Sum, AllFit, NormalizeCapacity, IsCapacity;
      NormalizeOfCapacity(capacity);
      var normal := NormalizeCapacity(capacity);
      ghost var objects, used, ext := current.objects, current.used, current.extents;
      address := current.Allocate(TotalSize(normal));
      if address != NULL {
        var fresh' := new Hash(normal, kind);
        var o := Obj(kind, Info(0, 0), fresh'.size, fresh'.content[..]);
        AllocatedSpace(current.base, used, objects, ext, o);
        current.objects := current.objects[address := o];
        current.extents := current.extents[address := TotalSize(normal)];
      }
    }

    /** A collection is under way from the given start. */
    ghost predicate Collecting(x: Context, grey: set<Word>)
      reads this, current, replacement
    {
      && current != replacement
      && x.base == current.base && x.target == replacement.base
      && Ready(x) && Marked(x, Now(), grey)
    }

    /** Put a copy into the new block and leave a forwarding header behind. */
    method Install(target: Word, copy: Obj, ghost x: Context) returns (result: Word)
      requires current != replacement && x.target == replacement.base
      requires x.target > 0 && x.target + YOUNG_GEN_BLOCK_SIZE <= WORD_RANGE
      requires replacement.used + SizeOf(copy) <= YOUNG_GEN_BLOCK_SIZE
      modifies current, replacement
      ensures result == NextAddress(x, old(Now())) && Now() == Evacuated(x, old(Now()), target, copy)
    {
      result := replacement.Allocate(SizeOf(copy));
      replacement.objects := replacement.objects[result := copy];
      replacement.extents := replacement.extents[result := SizeOf(copy)];
      current.objects := current.objects[target := GcLeft(result)];
    }

    /** The first half of young_gen_gc_mark: move what is at the target, a redirect
        header as it is.  The unchecked allocation succeeds. */
    method Evacuate(target: Word, ghost x: Context, ghost grey: set<Word>) returns (result: Word)
      requires Collecting(x, grey) && target in x.live && Unmoved(x, Now(), target)
      modifies current, replacement
      ensures Collecting(x, grey + {target})
      ensures result !in old(replacement.objects) && result in replacement.objects
      ensures Moved(x.heap[target], replacement.objects[result])
      ensures x.heap[target].Obj? ==> TableOk(x.heap[target]) && replacement.objects[result] == Shrunken(x.heap[target])
      ensures Fwd(current.objects) == old(Fwd(current.objects))[target := result]
      ensures Grows(old(Now()), Now())
    {
      hide Ready, Marked, Moved, Fwd, NextAddress, TableOk, Grows, Shrunken;
      ghost var s := Now();
      UnmovedOk(x, s, target);
      TargetBase(x, s, grey);
      var copy := current.objects[target];
      HeaderIsMoved(copy);
      if copy.Obj? {
        copy := CopyHash(copy);
      }
      EvacuateKeeps(x, s, grey, target, copy);
      result := Install(target, copy, x);
      EvacuatedGrows(s, Now(), target, result, copy);
    }

    /** Write the new address of one slot's object into the copy. */
    method WriteSlot(b: Word, i: nat, value: Word, ghost target: Word, ghost before: Obj, ghost x: Context,
            ghost grey: set<Word>, ghost moved: set<Word>)
      requires Collecting(x, grey) && target in grey
      requires target in Fwd(current.objects) && Fwd(current.objects)[target] == b
      requires b in replacement.objects && replacement.objects[b].Obj?
      requires before.Obj? && replacement.objects[b] == before.(nodes := replacement.objects[b].nodes)
      requires i < |before.nodes| && Scanned(x.heap, before.nodes, replacement.objects[b].nodes, Fwd(current.objects), i)
      requires HoldsPtr(before.nodes[i]) ==> before.nodes[i].value in x.live
      requires Sent(x.heap, Fwd(current.objects), before.nodes[i].value, value)
      requires HeldBut(x.heap, moved, Now(), {value})
      modifies replacement
      ensures Collecting(x, grey) && current.objects == old(current.objects)
      ensures b in replacement.objects && replacement.objects[b].Obj?
      ensures replacement.objects[b] == before.(nodes := replacement.objects[b].nodes)
      ensures Scanned(x.heap, before.nodes, replacement.objects[b].nodes, Fwd(current.objects), i + 1)
      ensures replacement.objects == old(replacement.objects)[b := replacement.objects[b]]
      ensures HeldBut(x.heap, moved, Now(), {})
    {
      hide Ready, Marked, Fwd, Scanned, Sent, HeldBut;
      ghost var s := Now();
      var o := replacement.objects[b];
      ScannedSlot(x.heap, before.nodes, o.nodes, Fwd(current.objects), i);
      HeldWritten(x, s, grey, moved, b, i, value);
      var node := Node(o.nodes[i].key, value);
      ScannedNext(x.heap, before.nodes, o.nodes, Fwd(current.objects), i, value);
      o := o.(nodes := o.nodes[i := node]);
      RewriteKeeps(x, s, grey, target, o);
      replacement.objects := replacement.objects[b := o];
      assert Now() == Rewritten(s, b, o);
    }

    /** `while (hash->type == HT_REDIRECT) hash = (Hash*)hash->size` during a
        collection: what was moved on the way stops it. */
    method Follow(v: Word, ghost x: Context, ghost grey: set<Word>) returns (hash: Word)
      requires Collecting(x, grey) && Resolves(x.heap, v)
      ensures hash in current.objects && hash in x.heap && SameRoot(x.heap, v, hash)
      ensures !current.objects[hash].Redirect? && (hash != v ==> current.objects[v].Redirect?)
    {
      hide Ready, Marked, Resolves, RootOf, Hops;
      hash := v;
      HeaderHere(x, Now(), grey, hash);
      while current.objects[hash].Redirect?
        invariant Resolves(x.heap, hash) && RootOf(x.heap, hash) == RootOf(x.heap, v)
        invariant hash in current.objects && hash in x.heap && v in current.objects
        invariant current.objects[hash].Redirect? ==> current.objects[hash] == x.heap[hash]
        invariant hash != v ==> current.objects[v].Redirect?
        decreases Hops(x.heap, hash)
      {
        RootStep(x.heap, hash);
        HopsStep(x.heap, hash);
        hash := current.objects[hash].to;
        HeaderHere(x, Now(), grey, hash);
      }
    }

    /** The pointer of one slot: the chain of redirects is followed, but only to see
        whether what is at its end has been moved; otherwise what the slot itself
        points at is marked, be it a redirect header. */
    method MarkChild(value: Word, ghost x: Context, ghost grey: set<Word>) returns (moved: Word)
      requires Collecting(x, grey) && value in x.live
      modifies current, replacement
      ensures Collecting(x, grey) && Grows(old(Now()), Now())
      ensures Sent(x.heap, Fwd(current.objects), value, moved)
      ensures Outcome(x.heap, old(Fwd(current.objects).Keys), [value], Fwd(current.objects).Keys)
      ensures HeldBut(x.heap, old(Fwd(current.objects).Keys), Now(), {moved})
      decreases |x.live - Fwd(current.objects).Keys|, 1
    {
      hide Ready, Marked, Fwd, PtrsIn, TableOk, Resolves, RootOf, Outcome, Objects, HeldBut;
      ghost var s := Now();
      LiveHeader(x, s, grey, value);
      var child := Follow(ToPtr(value), x, grey);
      if !current.objects[child].GcLeft? {
        moved := Mark(value, x, grey);
        SentSelf(x.heap, Fwd(current.objects), value);
        MarkedChild(x, s, Now(), grey, value, child);
      } else {
        moved := FromPtr(current.objects[child].to);
        StoppedChild(x, s, grey, value, child);
      }
    }

    /** One slot of a copy: a pointer is replaced by what marking it returns. */
    method ScanSlot(b: Word, i: nat, ghost target: Word, ghost before: Obj, ghost x: Context, ghost grey: set<Word>,
            ghost moved: set<Word>)
      requires Collecting(x, grey) && target in grey
      requires target in Fwd(current.objects) && Fwd(current.objects)[target] == b
      requires b in replacement.objects && replacement.objects[b].Obj?
      requires before.Obj? && replacement.objects[b] == before.(nodes := replacement.objects[b].nodes)
      requires PtrsIn(before, x.live) && HeldBut(x.heap, moved, Now(), {})
      requires i < |before.nodes| && Scanned(x.heap, before.nodes, replacement.objects[b].nodes, Fwd(current.objects), i)
      modifies current, replacement
      ensures Collecting(x, grey)
      ensures target in Fwd(current.objects) && Fwd(current.objects)[target] == b
      ensures b in replacement.objects && replacement.objects[b].Obj?
      ensures replacement.objects[b] == before.(nodes := replacement.objects[b].nodes)
      ensures Scanned(x.heap, before.nodes, replacement.objects[b].nodes, Fwd(current.objects), i + 1)
      ensures GrowsBut(old(Now()), Now(), b) && HeldBut(x.heap, moved, Now(), {})
      ensures Outcome(x.heap, old(Fwd(current.objects).Keys), SlotOf(before.nodes[i]), Fwd(current.objects).Keys)
      decreases |x.live - Fwd(current.objects).Keys|, 2
    {
      hide Ready, Marked, Moved, Fwd, Scanned, Sent, Outcome, HeldBut;
      ScannedSlot(x.heap, before.nodes, replacement.objects[b].nodes, Fwd(current.objects), i);
      var node := replacement.objects[b].nodes[i];
      var value := node.value;
      ghost var s0 := Now();
      if !IsUndefined(value) && !IsNull(value) && IsPtr(value) {
        assert HoldsPtr(before.nodes[i]);
        value := MarkChild(value, x, grey);
        HeldMore(x.heap, moved, s0, Now(), {}, {value});
        assert {} + {value} == {value};
      } else {
        SentScalar(x.heap, Fwd(current.objects), value);
        OutcomeNothing(x.heap, Fwd(current.objects).Keys);
        HeldAnyway(x.heap, moved, s0, value);
      }
      ScannedExtends(x.heap, before.nodes, replacement.objects[b].nodes, old(Fwd(current.objects)),
                     Fwd(current.objects), i);
      ghost var s := Now();
      WriteSlot(b, i, value, target, before, x, grey, moved);
      GrowsThenWrite(old(Now()), s, Now(), b);
    }

    /** The second half of young_gen_gc_mark: the loop over the copy of an object. */
    method Scan(b: Word, ghost target: Word, ghost x: Context, ghost grey: set<Word>)
      requires Collecting(x, grey + {target}) && target in x.live
      requires target in x.heap && x.heap[target].Obj? && TableOk(x.heap[target])
      requires target in Fwd(current.objects) && Fwd(current.objects)[target] == b
      requires b in replacement.objects && Moved(x.heap[target], replacement.objects[b])
      requires replacement.objects[b] == Shrunken(x.heap[target])
      modifies current, replacement
      ensures Collecting(x, grey) && GrowsBut(old(Now()), Now(), b)
      ensures Outcome(x.heap, old(Fwd(current.objects).Keys), Slots(x.heap[target]), Fwd(current.objects).Keys)
      ensures HeldBut(x.heap, old(Fwd(current.objects).Keys), Now(), {})
      decreases |x.live - Fwd(current.objects).Keys|, 3
    {
      hide Ready, Marked, Moved, Fwd, Scanned, PtrsIn, Outcome, HeldBut, TableOk, Shrunken;
      ghost var before, keys := replacement.objects[b], Fwd(current.objects).Keys;
      ghost var grey' := grey + {target};
      CopyPtrs(x, Now(), grey', target, before);
      ScannedNone(x.heap, before.nodes, Fwd(current.objects));
      HeldNone(x.heap, Now());
      OutcomeNothing(x.heap, keys);
      PointersNone(before.nodes);
      var i := 0;
      while i < |replacement.objects[b].nodes|
        invariant Collecting(x, grey')
        invariant target in Fwd(current.objects) && Fwd(current.objects)[target] == b
        invariant b in replacement.objects && replacement.objects[b].Obj?
        invariant replacement.objects[b] == before.(nodes := replacement.objects[b].nodes)
        invariant i <= |replacement.objects[b].nodes| == |before.nodes|
        invariant Scanned(x.heap, before.nodes, replacement.objects[b].nodes, Fwd(current.objects), i)
        invariant GrowsBut(old(Now()), Now(), b) && HeldBut(x.heap, keys, Now(), {})
        invariant Outcome(x.heap, keys, PointersOf(before.nodes[..i]), Fwd(current.objects).Keys)
        decreases |before.nodes| - i
      {
        ghost var s := Now();
        FewerLeft(x.live, old(Fwd(current.objects)), Fwd(current.objects));
        ScanSlot(b, i, target, before, x, grey', keys);
        GrowsThenBut(old(Now()), s, Now(), b);
        ScannedLength(x.heap, before.nodes, replacement.objects[b].nodes, Fwd(current.objects), i + 1);
        PointersNext(before.nodes, i);
        OutcomeAppend(x.heap, keys, PointersOf(before.nodes[..i]), Fwd(s.left).Keys, SlotOf(before.nodes[i]),
                      Fwd(current.objects).Keys);
        i := i + 1;
      }
      assert before.nodes[..i] == before.nodes;
      ScanDone(x, Now(), grey, target, before);
    }

    /** young_gen_gc_mark.  The recursion ends on cyclic graphs, copies made
        earlier are left alone, and what was already moved keeps its address. */
    method Mark(target: Word, ghost x: Context, ghost grey: set<Word>) returns (result: Word)
      requires Collecting(x, grey)
      requires target in x.live || target in replacement.objects
      modifies current, replacement
      ensures Collecting(x, grey) && Grows(old(Now()), Now())
      ensures target in x.live ==> target in Fwd(current.objects) && result == Fwd(current.objects)[target]
      ensures target in x.live && target in Objects(x.heap) ==>
                Outcome(x.heap, old(Fwd(current.objects).Keys), [target], Fwd(current.objects).Keys)
      ensures HeldBut(x.heap, old(Fwd(current.objects).Keys), Now(), {result})
      ensures target !in x.live ==> result == target && Now() == old(Now())
      decreases |x.live - Fwd(current.objects).Keys|, 0
    {
      hide Ready, Marked, Moved, Fwd, PtrsIn, TableOk, Outcome, HeldBut, Shrunken, Slots;
      ghost var s := Now();
      HeldNone(x.heap, s);
      HeldAnyway(x.heap, Fwd(s.left).Keys, s, NULL);
      if target in x.live {
        LiveHeader(x, s, grey, target);
      } else {
        CopyHeader(x, s, grey, target);
      }
      var header := if target in current.objects then current.objects[target] else replacement.objects[target];
      if header.GcLeft? {
        HeldAnyway(x.heap, Fwd(s.left).Keys, s, header.to);
        MarkedAlready(x, s, target);
        return header.to;
      }
      if target - target % YOUNG_GEN_BLOCK_SIZE != current.base {
        HeldAnyway(x.heap, Fwd(s.left).Keys, s, target);
        return target;
      }
      result := Evacuate(target, x, grey);
      OneFewer(x.live, Fwd(s.left), target, result);
      ghost var s' := Now();
      if replacement.objects[result].Obj? {
        ObjectMoved(x, target, replacement.objects[result]);
        Scan(result, target, x, grey);
        GrowsButNew(s, s', Now(), result);
        ObjectMarked(x, s, s', Now(), target, result);
      } else {
        HeaderDone(x, s, s', grey, target, result);
      }
    }

    /** young_gen_gc_end: the blocks change places and the old one is emptied. */
    method GcEnd(ghost x: Context)
      requires Collecting(x, {})
      modifies this, current, replacement
      ensures current == old(replacement) && replacement == old(current)
      ensures current.objects == old(replacement.objects) && current.used == old(replacement.used)
      ensures Idle()
    {
      hide HeapLeads, Sum, Bijective, CopiesOk, LeftOk, Covered;
      var block := current;
      current := replacement;
      replacement := block;
      replacement.used := BLOCK_HEADER;
      replacement.objectCount := 0;
      replacement.objects := map[];
      replacement.extents := map[];
      SumEmpty();
      assert replacement.extents.Keys == {} && replacement.objects.Keys == {};
    }
  }

  /** A normalized capacity is one a table can have; one that was one already stays. */
  lemma NormalizeOfCapacity(capacity: nat)
    requires 0 < capacity <= SIGN_BIT
    ensures IsCapacity(NormalizeCapacity(capacity)) && capacity <= NormalizeCapacity(capacity)
    ensures IsCapacity(capacity) ==> NormalizeCapacity(capacity) == capacity
  {
    hide NormalizeCapacity;
    Pow2Of32();
    assert Pow2(31) == SIGN_BIT;
    NormalizeIsLeast(capacity, 31);
    var j: nat :| NormalizeCapacity(capacity) == Pow2(j);
    if j >= 32 {
      Pow2Monotone(32, j);
    }
    if IsCapacity(capacity) {
      var k: nat :| k < 32 && capacity == Pow2(k);
      NormalizeIsLeast(capacity, k);
    }
  }

  /** Giving out the next bytes of a block to a new object. */
  lemma AllocatedSpace(base: Word, used: nat, objects: Heap, ext: map<Word, nat>, o: Obj)
    requires InSpace(base, used, objects, ext)
    requires o.Obj? && used + TotalSize(|o.nodes|) <= YOUNG_GEN_BLOCK_SIZE
    ensures base + used < WORD_RANGE && base + used !in objects
    ensures InSpace(base, used + TotalSize(|o.nodes|), objects[base + used := o], ext[base + used := TotalSize(|o.nodes|)])
  {
    hide InSpace;
    var x := Context(map[], 0, 0, map[], base, {});
    var s := Snapshot(map[], objects, used, ext);
    SpaceRoom(base, used, objects, ext);
    NextAddressIsNew(x, s);
    EvacuatedSpace(x, s, o);
  }

  lemma SpaceRoom(base: Word, used: nat, objects: Heap, ext: map<Word, nat>)
    requires InSpace(base, used, objects, ext)
    ensures base > 0 && base + YOUNG_GEN_BLOCK_SIZE <= WORD_RANGE
  {
    hide Sum, AllFit;
  }

  lemma EmptyBlock(base: Word, used: nat, objects: Heap, ext: map<Word, nat>)
    requires InSpace(base, used, objects, ext) && objects == map[]
    ensures used == BLOCK_HEADER
  {
    hide AllFit;
    SumEmpty();
    assert ext == map[];
  }

  /** A new empty object is in order, and so is everything that was there. */
  lemma NewKeepsHeapOk(h: Heap, a: Word, kind: HashType, capacity: nat)
    requires HeapOk(h) && a !in h && IsCapacity(capacity) && kind in {HT_OBJECT, HT_ARRAY, HT_CLOSURE, HT_LIGHTFUNC}
    ensures var h' := h[a := Obj(kind, Info(0, 0), 0, EmptyNodes(capacity))];
            HeapOk(h') && Objects(h') == Objects(h) + {a}
  {
    var o := Obj(kind, Info(0, 0), 0, EmptyNodes(capacity));
    var h' := h[a := o];
    EmptyIsEmpty(capacity);
    assert TableOk(o);
    assert Objects(h') == Objects(h) + {a};
    assert PtrsIn(o, Objects(h'));
    hide TableOk, IsCapacity, WellFormed;
  }

  lemma SumEmpty()
    ensures Sum(map[], {}) == 0
  {
  }

  lemma HeaderHere(x: Context, s: Snapshot, grey: set<Word>, a: Word)
    requires Ready(x) && Marked(x, s, grey) && Resolves(x.heap, a)
    ensures a in x.heap && a in s.left && (s.left[a].Redirect? ==> s.left[a] == x.heap[a])
  {
    hide Sum, InSpace, Bijective, CopiesOk, Covered, TableOk, PtrsIn;
  }

  lemma SentSelf(h: Heap, f: map<Word, Word>, v: Word)
    requires v in f && Resolves(h, v) && IsLive(v) && IsPtr(v)
    ensures Sent(h, f, v, f[v])
  {
    hide Resolves, RootOf;
    assert SameRoot(h, v, v);
  }

  lemma SentScalar(h: Heap, f: map<Word, Word>, v: Word)
    requires !(IsLive(v) && IsPtr(v))
    ensures Sent(h, f, v, v)
  {
  }

  lemma HeaderIsMoved(o: Obj)
    ensures o.Redirect? ==> Moved(o, o)
  {
  }

  lemma HeldAnyway(h: Heap, before: set<Word>, s: Snapshot, y: Word)
    requires HeldBut(h, before, s, {})
    ensures HeldBut(h, before, s, {y})
  {
    hide Fwd, HeldBy;
  }

  /** The pointer that a slot adds to those met. */
  function SlotOf(node: Node): seq<Word> {
    if HoldsPtr(node) then [node.value] else []
  }

  lemma PointersNone(nodes: seq<Node>)
    ensures PointersOf(nodes[..0]) == []
  {
  }

  lemma PointersNext(nodes: seq<Node>, i: nat)
    requires i < |nodes|
    ensures PointersOf(nodes[..i + 1]) == PointersOf(nodes[..i]) + SlotOf(nodes[i])
  {
    assert nodes[..i + 1][..i] == nodes[..i];
  }

  /** A slot whose chain ends at something unmoved. */
  lemma MarkedChild(x: Context, s: Snapshot, s': Snapshot, grey: set<Word>, value: Word, child: Word)
    requires Ready(x) && Marked(x, s, grey) && value in x.live && child in x.heap && child in s.left
    requires SameRoot(x.heap, value, child) && !s.left[child].GcLeft? && !s.left[child].Redirect?
    requires value in Fwd(s'.left) && Fwd(s.left).Keys <= Fwd(s'.left).Keys
    requires value in Objects(x.heap) ==> Outcome(x.heap, Fwd(s.left).Keys, [value], Fwd(s'.left).Keys)
    ensures Outcome(x.heap, Fwd(s.left).Keys, [value], Fwd(s'.left).Keys)
  {
    hide Sum, InSpace, Bijective, CopiesOk, Covered, TableOk, PtrsIn, Outcome, Resolves, RootOf;
    if value !in Objects(x.heap) {
      ObjectResolves(x.heap, child);
      hide HeapLeads, LeftOk;
      OutcomeRedirect(x.heap, Fwd(s.left).Keys, value, Fwd(s'.left).Keys);
    }
  }

  /** A slot whose chain ends at something moved. */
  lemma StoppedChild(x: Context, s: Snapshot, grey: set<Word>, value: Word, child: Word)
    requires Ready(x) && Marked(x, s, grey) && value in x.live && child in x.heap && child in s.left
    requires SameRoot(x.heap, value, child) && s.left[child].GcLeft? && (child != value ==> s.left[value].Redirect?)
    requires value in s.left && IsLive(value) && IsPtr(value)
    ensures Sent(x.heap, Fwd(s.left), value, s.left[child].to) && Grows(s, s)
    ensures Outcome(x.heap, Fwd(s.left).Keys, [value], Fwd(s.left).Keys)
    ensures HeldBut(x.heap, Fwd(s.left).Keys, s, {s.left[child].to})
  {
    hide Sum, InSpace, Bijective, CopiesOk, Covered, TableOk, PtrsIn, Outcome, Resolves, RootOf, HeldBy;
    assert child in Fwd(s.left);
    if value in Objects(x.heap) {
      OutcomeObject(x.heap, Fwd(s.left).Keys, value, Fwd(s.left).Keys);
    } else {
      if child in Objects(x.heap) {
        ObjectResolves(x.heap, child);
      }
      OutcomeRedirect(x.heap, Fwd(s.left).Keys, value, Fwd(s.left).Keys);
    }
  }

  lemma MarkedAlready(x: Context, s: Snapshot, target: Word)
    ensures target in Objects(x.heap) && target in Fwd(s.left) ==>
              Outcome(x.heap, Fwd(s.left).Keys, [target], Fwd(s.left).Keys)
  {
    hide Outcome, Fwd;
    if target in Objects(x.heap) && target in Fwd(s.left) {
      OutcomeObject(x.heap, Fwd(s.left).Keys, target, Fwd(s.left).Keys);
    }
  }

  lemma ObjectMoved(x: Context, target: Word, copy: Obj)
    requires target in x.heap && Moved(x.heap[target], copy) && copy.Obj?
    ensures x.heap[target].Obj?
  {
  }

  /** An object with its fields. */
  lemma ObjectMarked(x: Context, s: Snapshot, s': Snapshot, s'': Snapshot, target: Word, result: Word)
    requires target in x.heap && x.heap[target].Obj? && target !in Fwd(s.left)
    requires Fwd(s'.left) == Fwd(s.left)[target := result] && Extends(Fwd(s'.left), Fwd(s''.left))
    requires Outcome(x.heap, Fwd(s'.left).Keys, Slots(x.heap[target]), Fwd(s''.left).Keys)
    requires HeldBut(x.heap, Fwd(s'.left).Keys, s'', {})
    ensures target in Fwd(s''.left) && Fwd(s''.left)[target] == result
    ensures Outcome(x.heap, Fwd(s.left).Keys, [target], Fwd(s''.left).Keys)
    ensures HeldBut(x.heap, Fwd(s.left).Keys, s'', {result})
  {
    hide Fwd, Outcome, Slots, HeldBy;
    assert Fwd(s'.left).Keys == Fwd(s.left).Keys + {target};
    OutcomeObject(x.heap, Fwd(s.left).Keys, target, Fwd(s''.left).Keys);
  }

  /** A redirect header is complete at once. */
  lemma HeaderDone(x: Context, s: Snapshot, s': Snapshot, grey: set<Word>, target: Word, result: Word)
    requires Ready(x) && Marked(x, s', grey + {target}) && target in x.heap && target !in Fwd(s.left)
    requires Fwd(s'.left) == Fwd(s.left)[target := result] && result in s'.copies
    requires Moved(x.heap[target], s'.copies[result]) && !s'.copies[result].Obj?
    ensures Marked(x, s', grey) && target !in Objects(x.heap)
    ensures HeldBut(x.heap, Fwd(s.left).Keys, s', {result})
  {
    hide Marked, Fwd, HeldBy, Ready;
    FinishKeeps(x, s', grey, target);
  }
}
