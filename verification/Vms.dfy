/** The roots of the VM and its collection: cvm_young_gc of src/cvm.c. */
module Vms {
  import opened Values
  import opened Probe
  import opened HashTables
  import opened HashRuns
  import opened Hashes
  import opened Heaps
  import opened Marking
  import opened Redirects
  import opened Orders
  import opened Aliasing
  import opened Collections
  import opened YoungGens

  /** A call frame: register i of the source is regs[i]. */
  datatype Frame = Frame(callee: nat, pc: nat, regs: seq<Word>)

  datatype Scene = Scene(external: Word, frames: seq<Frame>)

  predicate IsRef(v: Word) {
    IsPtr(v) && !IsNull(v)
  }

  /** Registers may point at redirect headers; what they lead to is in s. */
  ghost predicate RegsIn(h: Heap, s: set<Word>, regs: seq<Word>) {
    forall v :: v in regs && IsRef(v) ==> Resolves(h, v) && RootOf(h, v) in s
  }

  ghost predicate FramesIn(h: Heap, s: set<Word>, frames: seq<Frame>) {
    forall f :: f in frames ==> RegsIn(h, s, f.regs)
  }

  /** What this leads to is in s. */
  ghost predicate LeadsIn(h: Heap, s: set<Word>, v: Word) {
    Resolves(h, v) && RootOf(h, v) in s
  }

  ghost predicate ScenesIn(h: Heap, s: set<Word>, scenes: seq<Scene>) {
    forall c :: c in scenes ==> LeadsIn(h, s, c.external) && FramesIn(h, s, c.frames)
  }

  /** What the global, the externals and all registers lead to. */
  ghost function Roots(h: Heap, global: Word, scenes: seq<Scene>): set<Word> {
    (set v | v == global && Resolves(h, v) :: RootOf(h, v))
    + (set c | c in scenes && Resolves(h, c.external) :: RootOf(h, c.external))
    + (set c, f, v | c in scenes && f in c.frames && v in f.regs && IsRef(v) && Resolves(h, v) :: RootOf(h, v))
  }

  lemma RootsAreIn(h: Heap, t: set<Word>, s: set<Word>, global: Word, scenes: seq<Scene>)
    requires LeadsIn(h, t, global) && ScenesIn(h, t, scenes) && Roots(h, global, scenes) <= s
    ensures LeadsIn(h, s, global) && ScenesIn(h, s, scenes)
  {
    hide Resolves, RootOf;
    forall c | c in scenes ensures LeadsIn(h, s, c.external) && FramesIn(h, s, c.frames) {
      assert LeadsIn(h, t, c.external) && FramesIn(h, t, c.frames);
      forall f | f in c.frames ensures RegsIn(h, s, f.regs) {
        assert RegsIn(h, t, f.regs);
      }
    }
  }

  // ----- the order in which the roots are marked -----

  /** A register's redirects are followed before it is marked. */
  ghost function Lead(h: Heap, v: Word): seq<Word> {
    if IsRef(v) && Resolves(h, v) then [RootOf(h, v)] else []
  }

  ghost function RegsLine(h: Heap, regs: seq<Word>): seq<Word> {
    if regs == [] then [] else RegsLine(h, regs[..|regs| - 1]) + Lead(h, regs[|regs| - 1])
  }

  ghost function FramesLine(h: Heap, frames: seq<Frame>): seq<Word> {
    if frames == [] then [] else FramesLine(h, frames[..|frames| - 1]) + RegsLine(h, frames[|frames| - 1].regs)
  }

  /** Scene by scene, the external and then the registers. */
  ghost function ScenesLine(h: Heap, scenes: seq<Scene>): seq<Word> {
    if scenes == [] then []
    else
      var last := scenes[|scenes| - 1];
      ScenesLine(h, scenes[..|scenes| - 1]) + [last.external] + FramesLine(h, last.frames)
  }

  /** The externals are marked as they are, so they have to be objects. */
  ghost predicate ExternalsAre(s: set<Word>, scenes: seq<Scene>) {
    forall c :: c in scenes ==> c.external in s
  }

  /** From these roots a collection meets every redirect after the object behind it. */
  ghost predicate Orderly(h: Heap, global: Word, scenes: seq<Scene>) {
    && global in Objects(h) && ExternalsAre(Objects(h), scenes)
    && Ordered(h, {}, [global] + ScenesLine(h, scenes))
  }

  /** The same as a property of the line of all pointers met. */
  lemma OrderlyIff(h: Heap, global: Word, scenes: seq<Scene>)
    requires HeapLeads(h)
    ensures Orderly(h, global, scenes) <==>
              && global in Objects(h) && ExternalsAre(Objects(h), scenes)
              && InLine(h, Line(h, [], [global] + ScenesLine(h, scenes)))
  {
    hide Ordered, InLine, Line, Objects, HeapLeads, ExternalsAre;
    assert ToSet([]) * Objects(h) == {};
    EmptyInLine(h);
    OrderedIff(h, [], [global] + ScenesLine(h, scenes));
  }

  lemma EmptyInLine(h: Heap)
    ensures InLine(h, [])
  {
  }

  /** Marking some scenes: the objects met if all is in order, or else a header. */
  ghost predicate ScenesOutcome(h: Heap, m: set<Word>, scenes: seq<Scene>, m': set<Word>) {
    if ExternalsAre(Objects(h), scenes) then Outcome(h, m, ScenesLine(h, scenes), m')
    else m <= m' && !(m' <= Objects(h))
  }

  /** A root that is marked as it is. */
  ghost predicate RootOutcome(h: Heap, m: set<Word>, v: Word, m': set<Word>) {
    m <= m' && v in m' && (v in Objects(h) ==> Outcome(h, m, [v], m'))
  }

  lemma ScenesOutcomeNext(h: Heap, m: set<Word>, scenes: seq<Scene>, i: nat, m1: set<Word>, m2: set<Word>, m3: set<Word>)
    requires i < |scenes| && ScenesOutcome(h, m, scenes[..i], m1)
    requires RootOutcome(h, m1, scenes[i].external, m2) && Outcome(h, m2, FramesLine(h, scenes[i].frames), m3)
    ensures ScenesOutcome(h, m, scenes[..i + 1], m3)
  {
    hide Objects, Ordered, Meets, Resolves, RootOf, FramesLine;
    assert scenes[..i + 1][..i] == scenes[..i];
    assert scenes[..i + 1] == scenes[..i] + [scenes[i]];
    var e, frames := scenes[i].external, FramesLine(h, scenes[i].frames);
    if ExternalsAre(Objects(h), scenes[..i + 1]) {
      assert scenes[i] in scenes[..i + 1];
      assert ExternalsAre(Objects(h), scenes[..i]);
      OutcomeAppend(h, m, ScenesLine(h, scenes[..i]), m1, [e], m2);
      OutcomeAppend(h, m, ScenesLine(h, scenes[..i]) + [e], m2, frames, m3);
    } else if e in Objects(h) {
      assert !ExternalsAre(Objects(h), scenes[..i]);
    }
  }

  /** From the start of a collection to its end. */
  lemma RootsOutcome(h: Heap, global: Word, scenes: seq<Scene>, m1: set<Word>, m2: set<Word>)
    requires RootOutcome(h, {}, global, m1) && ScenesOutcome(h, m1, scenes, m2)
    ensures m2 <= Objects(h) <==> Orderly(h, global, scenes)
  {
    hide Objects, Ordered, Resolves, RootOf, ScenesLine;
    if global in Objects(h) && ExternalsAre(Objects(h), scenes) {
      OutcomeAppend(h, {}, [global], m1, ScenesLine(h, scenes), m2);
    }
    hide ExternalsAre;
    if global !in Objects(h) {
      assert global in m2;
    }
  }

  // ----- registers after a collection -----

  ghost predicate RegsMoved(h: Heap, f: map<Word, Word>, regs: seq<Word>, regs': seq<Word>) {
    |regs'| == |regs| && forall i :: 0 <= i < |regs| ==> Sent(h, f, regs[i], regs'[i])
  }

  ghost predicate FrameMoved(h: Heap, f: map<Word, Word>, a: Frame, b: Frame) {
    b.callee == a.callee && b.pc == a.pc && RegsMoved(h, f, a.regs, b.regs)
  }

  ghost predicate FramesMoved(h: Heap, f: map<Word, Word>, frames: seq<Frame>, frames': seq<Frame>) {
    |frames'| == |frames| && forall i :: 0 <= i < |frames| ==> FrameMoved(h, f, frames[i], frames'[i])
  }

  ghost predicate SceneMoved(h: Heap, f: map<Word, Word>, c: Scene, c': Scene) {
    c.external in f && c'.external == f[c.external] && FramesMoved(h, f, c.frames, c'.frames)
  }

  ghost predicate ScenesMoved(h: Heap, f: map<Word, Word>, scenes: seq<Scene>, scenes': seq<Scene>) {
    |scenes'| == |scenes| && forall i :: 0 <= i < |scenes| ==> SceneMoved(h, f, scenes[i], scenes'[i])
  }

  lemma RegsMovedExtends(h: Heap, f: map<Word, Word>, f': map<Word, Word>, regs: seq<Word>, regs': seq<Word>)
    requires RegsMoved(h, f, regs, regs') && Extends(f, f')
    ensures RegsMoved(h, f', regs, regs')
  {
    hide Sent, Extends;
    forall i | 0 <= i < |regs| ensures Sent(h, f', regs[i], regs'[i]) {
      SentExtends(h, f, f', regs[i], regs'[i]);
    }
  }

  lemma FramesMovedExtends(h: Heap, f: map<Word, Word>, f': map<Word, Word>, frames: seq<Frame>, frames': seq<Frame>)
    requires FramesMoved(h, f, frames, frames') && Extends(f, f')
    ensures FramesMoved(h, f', frames, frames')
  {
    hide RegsMoved, Extends;
    forall i | 0 <= i < |frames| ensures FrameMoved(h, f', frames[i], frames'[i]) {
      assert FrameMoved(h, f, frames[i], frames'[i]);
      RegsMovedExtends(h, f, f', frames[i].regs, frames'[i].regs);
    }
  }

  lemma ScenesMovedExtends(h: Heap, f: map<Word, Word>, f': map<Word, Word>, scenes: seq<Scene>, scenes': seq<Scene>)
    requires ScenesMoved(h, f, scenes, scenes') && Extends(f, f')
    ensures ScenesMoved(h, f', scenes, scenes')
  {
    hide FramesMoved;
    forall i | 0 <= i < |scenes| ensures SceneMoved(h, f', scenes[i], scenes'[i]) {
      assert SceneMoved(h, f, scenes[i], scenes'[i]);
      FramesMovedExtends(h, f, f', scenes[i].frames, scenes'[i].frames);
    }
  }

  /** From s to s' exactly what these pointers ask for has been marked, and every
      header that was copied is held by a field. */
  ghost predicate Marks(h: Heap, s: Snapshot, s': Snapshot, stack: seq<Word>) {
    && Grows(s, s') && Outcome(h, Fwd(s.left).Keys, stack, Fwd(s'.left).Keys)
    && HeldBut(h, Fwd(s.left).Keys, s', {})
  }

  lemma MarksNothing(h: Heap, s: Snapshot)
    ensures Marks(h, s, s, [])
  {
    hide Fwd, HeldBy;
    OutcomeNothing(h, Fwd(s.left).Keys);
  }

  lemma MarksThen(h: Heap, s: Snapshot, a: seq<Word>, s1: Snapshot, b: seq<Word>, s2: Snapshot)
    requires Marks(h, s, s1, a) && Marks(h, s1, s2, b)
    ensures Marks(h, s, s2, a + b)
  {
    hide Fwd, HeldBut, Outcome, Grows;
    GrowsTransitive(s, s1, s2);
    HeldMore(h, Fwd(s.left).Keys, s1, s2, {}, {});
    var none: set<Word> := {};
    assert none + none == none;
    OutcomeAppend(h, Fwd(s.left).Keys, a, Fwd(s1.left).Keys, b, Fwd(s2.left).Keys);
  }

  class VMState {
    var youngGen: YoungGen
    var global: Word
    var scenes: seq<Scene>

    constructor (youngGen: YoungGen, global: Word, scenes: seq<Scene>)
      ensures this.youngGen == youngGen && this.global == global && this.scenes == scenes
    {
      this.youngGen, this.global, this.scenes := youngGen, global, scenes;
    }

    /** cvm_state_new: the global object, one scene with its array of externals, and
        the frame of the main function. */
    static method Create(first: Word, second: Word) returns (vm: VMState)
      requires first != second
      requires first > 0 && first % YOUNG_GEN_BLOCK_SIZE == 0 && first + YOUNG_GEN_BLOCK_SIZE <= WORD_RANGE
      requires second > 0 && second % YOUNG_GEN_BLOCK_SIZE == 0 && second + YOUNG_GEN_BLOCK_SIZE <= WORD_RANGE
      ensures fresh(vm) && vm.Valid()
      ensures |vm.scenes| == 1 && |vm.scenes[0].frames| == 1
      ensures vm.scenes[0].frames[0] == MainFrame(vm.global)
    {
      hide InSpace, HeapOk, HeapLeads, Objects, ScenesIn, LeadsIn, MainFrame, IsCapacity, EmptyNodes;
      var youngGen := new YoungGen(first, second);
      MinimumIsCapacity();
      NormalizeOfCapacity(HASH_MIN_CAPACITY);
      assert HeapOk(map[]) by { EmptyHeapOk(); }
      var global := youngGen.NewHash(HASH_MIN_CAPACITY, HT_OBJECT);
      NewKeepsHeapOk(map[], global, HT_OBJECT, HASH_MIN_CAPACITY);
      ghost var h := youngGen.current.objects;
      var external := youngGen.NewHash(HASH_MIN_CAPACITY, HT_ARRAY);
      NewKeepsHeapOk(h, external, HT_ARRAY, HASH_MIN_CAPACITY);
      vm := new VMState(youngGen, global, [Scene(external, [MainFrame(global)])]);
      FitLeads(youngGen.current.objects);
      FirstScene(youngGen.current.objects, global, external);
    }

    /** One register of cvm_young_gc: follow the redirects, then mark. */
    method MarkRegister(v: Word, ghost x: Context) returns (v': Word)
      requires youngGen.Collecting(x, {})
      requires IsRef(v) ==> LeadsIn(x.heap, x.live, v)
      modifies youngGen.current, youngGen.replacement
      ensures youngGen.Collecting(x, {}) && Marks(x.heap, old(youngGen.Now()), youngGen.Now(), Lead(x.heap, v))
      ensures Sent(x.heap, Fwd(youngGen.current.objects), v, v')
    {
      hide Ready, Marked, Fwd, Resolves, RootOf, Sent, Marks, Outcome, HeldBut, Grows, Objects;
      hide IsPtr, IsNull, IsLive, ToPtr;
      ghost var s := youngGen.Now();
      RefIsLive(v);
      if IsPtr(v) && !IsNull(v) {
        PtrIsSelf(v);
        var hash := youngGen.Follow(ToPtr(v), x, {});
        FollowedIsLive(x, s, v, hash);
        var moved := youngGen.Mark(hash, x, {});
        RegisterMarked(x, s, youngGen.Now(), v, hash, moved);
        v' := FromPtr(moved);
      } else {
        v' := v;
        MarksNothing(x.heap, s);
        SentScalar(x.heap, Fwd(youngGen.current.objects), v);
      }
    }

    method MarkRegisters(regs: seq<Word>, ghost x: Context) returns (regs': seq<Word>)
      requires youngGen.Collecting(x, {}) && RegsIn(x.heap, x.live, regs)
      modifies youngGen.current, youngGen.replacement
      ensures youngGen.Collecting(x, {}) && Marks(x.heap, old(youngGen.Now()), youngGen.Now(), RegsLine(x.heap, regs))
      ensures RegsMoved(x.heap, Fwd(youngGen.current.objects), regs, regs')
    {
      hide Ready, Marked, Fwd, Resolves, RootOf, Sent, Extends, Marks, Lead;
      regs' := [];
      MarksNothing(x.heap, youngGen.Now());
      while |regs'| < |regs|
        invariant |regs'| <= |regs|
        invariant youngGen.Collecting(x, {})
        invariant Marks(x.heap, old(youngGen.Now()), youngGen.Now(), RegsLine(x.heap, regs[..|regs'|]))
        invariant RegsMoved(x.heap, Fwd(youngGen.current.objects), regs[..|regs'|], regs')
      {
        ghost var s, done := youngGen.Now(), regs[..|regs'|];
        assert regs[|regs'|] in regs;
        var v' := MarkRegister(regs[|regs'|], x);
        MarksThen(x.heap, old(youngGen.Now()), RegsLine(x.heap, done), s, Lead(x.heap, regs[|regs'|]), youngGen.Now());
        MarksGrow(x.heap, s, youngGen.Now(), Lead(x.heap, regs[|regs'|]));
        RegsMovedExtends(x.heap, Fwd(s.left), Fwd(youngGen.current.objects), done, regs');
        assert regs[..|regs'| + 1] == done + [regs[|regs'|]];
        assert (done + [regs[|regs'|]])[..|done|] == done;
        regs' := regs' + [v'];
      }
      assert regs[..|regs'|] == regs;
    }

    method MarkFrames(frames: seq<Frame>, ghost x: Context) returns (frames': seq<Frame>)
      requires youngGen.Collecting(x, {}) && FramesIn(x.heap, x.live, frames)
      modifies youngGen.current, youngGen.replacement
      ensures youngGen.Collecting(x, {}) && Marks(x.heap, old(youngGen.Now()), youngGen.Now(), FramesLine(x.heap, frames))
      ensures FramesMoved(x.heap, Fwd(youngGen.current.objects), frames, frames')
    {
      hide Ready, Marked, Fwd, RegsMoved, RegsIn, Extends, Marks, RegsLine;
      frames' := [];
      MarksNothing(x.heap, youngGen.Now());
      while |frames'| < |frames|
        invariant |frames'| <= |frames|
        invariant youngGen.Collecting(x, {})
        invariant Marks(x.heap, old(youngGen.Now()), youngGen.Now(), FramesLine(x.heap, frames[..|frames'|]))
        invariant FramesMoved(x.heap, Fwd(youngGen.current.objects), frames[..|frames'|], frames')
      {
        ghost var s, done := youngGen.Now(), frames[..|frames'|];
        var frame := frames[|frames'|];
        assert frame in frames;
        var regs' := MarkRegisters(frame.regs, x);
        MarksThen(x.heap, old(youngGen.Now()), FramesLine(x.heap, done), s, RegsLine(x.heap, frame.regs), youngGen.Now());
        MarksGrow(x.heap, s, youngGen.Now(), RegsLine(x.heap, frame.regs));
        FramesMovedExtends(x.heap, Fwd(s.left), Fwd(youngGen.current.objects), done, frames');
        assert frames[..|frames'| + 1] == done + [frame];
        assert (done + [frame])[..|done|] == done;
        frames' := frames' + [frame.(regs := regs')];
      }
      assert frames[..|frames'|] == frames;
    }

    /** The global or an external is marked as it is. */
    method MarkRoot(root: Word, ghost x: Context) returns (root': Word)
      requires youngGen.Collecting(x, {}) && root in x.live
      modifies youngGen.current, youngGen.replacement
      ensures youngGen.Collecting(x, {}) && Grows(old(youngGen.Now()), youngGen.Now())
      ensures root in Fwd(youngGen.current.objects) && root' == Fwd(youngGen.current.objects)[root]
      ensures RootOutcome(x.heap, old(Fwd(youngGen.current.objects).Keys), root, Fwd(youngGen.current.objects).Keys)
      ensures HeldBut(x.heap, old(Fwd(youngGen.current.objects).Keys), youngGen.Now(), {root'})
    {
      hide Ready, Marked, Fwd, Outcome, HeldBut, Objects, Grows;
      ghost var s := youngGen.Now();
      root' := youngGen.Mark(root, x, {});
      GrowsKeys(s, youngGen.Now());
    }

    method MarkScenes(ghost x: Context) returns (scenes': seq<Scene>)
      requires youngGen.Collecting(x, {}) && ScenesIn(x.heap, x.live, scenes) && ExternalsAre(x.live, scenes)
      modifies youngGen.current, youngGen.replacement
      ensures youngGen.Collecting(x, {}) && Grows(old(youngGen.Now()), youngGen.Now())
      ensures ScenesMoved(x.heap, Fwd(youngGen.current.objects), scenes, scenes')
      ensures ScenesOutcome(x.heap, old(Fwd(youngGen.current.objects).Keys), scenes, Fwd(youngGen.current.objects).Keys)
      ensures HeldBut(x.heap, old(Fwd(youngGen.current.objects).Keys), youngGen.Now(), Externals(scenes'))
    {
      hide Ready, Marked, Fwd, FramesMoved, FramesIn, Extends, Marks, ScenesOutcome, HeldBut, RootOutcome, Grows;
      hide Externals, FramesLine;
      scenes' := [];
      ghost var s0 := youngGen.Now();
      GrowsSelf(s0);
      ScenesOutcomeNone(x.heap, Fwd(s0.left).Keys, scenes);
      HeldNone(x.heap, s0);
      NoExternals();
      while |scenes'| < |scenes|
        invariant |scenes'| <= |scenes|
        invariant youngGen.Collecting(x, {}) && Grows(s0, youngGen.Now())
        invariant ScenesMoved(x.heap, Fwd(youngGen.current.objects), scenes[..|scenes'|], scenes')
        invariant ScenesOutcome(x.heap, Fwd(s0.left).Keys, scenes[..|scenes'|], Fwd(youngGen.current.objects).Keys)
        invariant HeldBut(x.heap, Fwd(s0.left).Keys, youngGen.Now(), Externals(scenes'))
      {
        ghost var s, done := youngGen.Now(), scenes[..|scenes'|];
        var scene := scenes[|scenes'|];
        assert scene in scenes;
        var external := MarkRoot(scene.external, x);
        ghost var t := youngGen.Now();
        var frames' := MarkFrames(scene.frames, x);
        SceneMarked(x.heap, s0, s, t, youngGen.Now(), scenes, |scenes'|, Externals(scenes'), external);
        ScenesMovedExtends(x.heap, Fwd(s.left), Fwd(youngGen.current.objects), done, scenes');
        assert scenes[..|scenes'| + 1] == done + [scene];
        ExtendsAt(Fwd(t.left), Fwd(youngGen.current.objects), scene.external);
        MoreExternals(scenes', Scene(external, frames'));
        scenes' := scenes' + [Scene(external, frames')];
      }
      assert scenes[..|scenes'|] == scenes;
    }

    ghost function Memory(): Heap
      reads this, youngGen, youngGen.current
    {
      youngGen.current.objects
    }

    /** Between collections: every pointer in a field, a register or a root leads to an object. */
    ghost predicate Valid()
      reads this, youngGen, youngGen.current, youngGen.replacement
    {
      && youngGen.Idle() && HeapLeads(Memory())
      && LeadsIn(Memory(), Objects(Memory()), global) && ScenesIn(Memory(), Objects(Memory()), scenes)
    }

    /** cvm_young_gc.  The collection is right, and leaves a machine in which every
        pointer leads to an object, if and only if it meets every redirect after
        the object behind it, and the global and the externals are objects.  It has
        then moved exactly the reachable objects, one to one, onto a block without redirects.
        In any case roots, registers and the fields of copies get new addresses, of
        what they led to or of a header on the way; no more space is used; and none of the
        addresses is an old one. */
    method YoungGc() returns (ghost f: map<Word, Word>)
      requires Valid()
      modifies this`global, this`scenes, youngGen, youngGen.current, youngGen.replacement
      ensures youngGen.Idle()
      ensures Valid() <==> Orderly(old(Memory()), old(global), old(scenes))
      ensures Valid() ==>
                && f.Keys == Reach(Plain(old(Memory())), Roots(old(Memory()), old(global), old(scenes)))
                && Isomorphic(Plain(old(Memory())), Memory(), f) && PtrTargets(f)
                && HeapOk(Memory()) && Objects(Memory()) == Memory().Keys
      ensures Memory().Keys !! old(Memory()).Keys
      ensures old(global) in f && global == f[old(global)]
      ensures Bijective(f, Memory()) && CopiesOk(old(Memory()), f, Memory(), {})
      ensures ScenesMoved(old(Memory()), f, old(scenes), scenes)
      ensures youngGen.current.used <= old(youngGen.current.used)
    {
      hide Ready, Marked, Fwd, HeapOk, Objects, ScenesIn, ScenesMoved, InSpace, Isomorphic, Reach, Roots, Extends;
      hide Plain, Behind, HeapLeads, Orderly, ScenesOutcome, RootOutcome, HeldBut, Grows, Externals, LeadsIn, Covered;
      hide ExternalsAre, Bijective, CopiesOk;
      ghost var h, roots, scenes0 := Memory(), Roots(Memory(), global, scenes), scenes;
      ghost var x := Context(h, youngGen.current.base, youngGen.current.used, youngGen.current.extents,
                             youngGen.replacement.base, Behind(h, Reach(Plain(h), roots)));
      RootsAreLive(x, roots, global, scenes);
      MarkStart(x, youngGen.Now());
      ghost var s := youngGen.Now();
      var global' := MarkRoot(global, x);
      ghost var t := youngGen.Now();
      var scenes' := MarkScenes(x);
      f := Fwd(youngGen.current.objects);
      GrowsAt(t, youngGen.Now(), global);
      RootsOutcome(h, global, scenes, Fwd(t.left).Keys, f.Keys);
      HeldMore(h, {}, t, youngGen.Now(), {global'}, Externals(scenes'));
      UsedLess(x, youngGen.Now());
      BlocksAreApart(x, youngGen.Now());
      MarkedParts(x, youngGen.Now(), {});
      if f.Keys <= Objects(h) {
        RootsAreMoved(h, f, global, scenes, scenes');
        CollectionDone(x, youngGen.Now(), roots);
        NewScenesIn(h, youngGen.Now().copies, f, global, scenes, scenes');
      } else {
        CollectionLost(x, youngGen.Now(), {global'} + Externals(scenes'));
        LostRoots(youngGen.Now().copies, global', scenes');
      }
      global, scenes := global', scenes';
      youngGen.GcEnd(x);
    }

    // ----- registers of the running frame -----

    ghost predicate HasFrame(reg: nat)
      reads this
    {
      |scenes| > 0 && |scenes[0].frames| > 0 && reg < |scenes[0].frames[0].regs|
    }

    /** cvm_get_register */
    function GetRegister(reg: nat): Word
      requires HasFrame(reg)
      reads this
    {
      scenes[0].frames[0].regs[reg]
    }

    /** cvm_set_register: register 0 is never written. */
    method SetRegister(reg: nat, value: Word)
      requires HasFrame(reg)
      modifies this`scenes
      ensures scenes == if reg == 0 then old(scenes) else WithRegister(old(scenes), reg, value)
    {
      if reg != 0 {
        var frame := scenes[0].frames[0];
        frame := frame.(regs := frame.regs[reg := value]);
        scenes := scenes[0 := scenes[0].(frames := scenes[0].frames[0 := frame])];
      }
    }

    /** _cvm_get_hash_in_register: None is the type error.  The register is left
        pointing past the redirects it went through. */
    method GetHashInRegister(reg: nat) returns (hash: Option<Word>)
      requires HasFrame(reg)
      requires IsRef(GetRegister(reg)) ==> Resolves(Memory(), GetRegister(reg))
      modifies this`scenes
      ensures hash.Some? <==> IsRef(old(GetRegister(reg)))
      ensures hash.Some? ==> hash.value == RootOf(Memory(), old(GetRegister(reg)))
      ensures scenes == if hash.Some? && reg != 0 then WithRegister(old(scenes), reg, hash.value) else old(scenes)
    {
      hide Resolves, RootOf, Hops;
      var value := GetRegister(reg);
      if !IsPtr(value) || IsNull(value) {
        return None;
      }
      var h := ToPtr(value);
      PtrIsSelf(value);
      ResolvesIn(Memory(), h);
      SameRegister(scenes, reg);
      if youngGen.current.objects[h].Redirect? {
        while youngGen.current.objects[h].Redirect?
          invariant Resolves(Memory(), h) && RootOf(Memory(), h) == RootOf(Memory(), value) && h in Memory()
          invariant scenes == old(scenes)
          decreases Hops(Memory(), h)
        {
          RootStep(Memory(), h);
          HopsStep(Memory(), h);
          h := youngGen.current.objects[h].to;
          ResolvesIn(Memory(), h);
        }
        RootIsSelf(Memory(), h);
        SetRegister(reg, FromPtr(h));
      } else {
        RootIsSelf(Memory(), h);
      }
      hash := Some(h);
    }

    /** The read of I_GET_OBJ, once the key is known. */
    method GetField(reg: nat, key: Word) returns (value: Option<Word>)
      requires HasFrame(reg)
      requires IsRef(GetRegister(reg)) ==> CanRead(Memory(), GetRegister(reg), key)
      modifies this`scenes
      ensures value.Some? <==> IsRef(old(GetRegister(reg)))
      ensures scenes == if value.None? || reg == 0 then old(scenes)
                        else WithRegister(old(scenes), reg, RootOf(Memory(), old(GetRegister(reg))))
      ensures value.Some? ==>
                var m := View(Memory(), old(GetRegister(reg)));
                && m.Some?
                && (if key in m.value then value.value == m.value[key] else IsUndefined(value.value))
    {
      hide Resolves, RootOf, View, HasTable, Ends, WellFormed;
      ghost var h, v := Memory(), GetRegister(reg);
      var hash := GetHashInRegister(reg);
      if hash.None? {
        return None;
      }
      CanReadParts(h, v, key);
      var found := FindInObject(youngGen.current.objects[hash.value], key);
      FindThrough(h, v, key);
      value := Some(found);
    }

    /** _cvm_set_hash_in_register, without a collection: if a larger table is
        needed there is room for it. */
    method SetHashInRegister(reg: nat, key: Word, value: Word) returns (ok: bool)
      requires HasFrame(reg)
      requires InSpace(youngGen.current.base, youngGen.current.used, Memory(), youngGen.current.extents)
      requires IsRef(GetRegister(reg)) ==> CanWrite(Memory(), youngGen.current.used, GetRegister(reg), key, value)
      modifies this`scenes, youngGen.current
      ensures ok <==> IsRef(old(GetRegister(reg)))
      ensures !ok ==> Memory() == old(Memory()) && scenes == old(scenes)
      ensures ok ==>
                var root := RootOf(old(Memory()), old(GetRegister(reg)));
                && root in old(Memory())
                && scenes == (if reg == 0 then old(scenes) else WithRegister(old(scenes), reg, root))
                && exists b :: b !in old(Memory()) && Memory() == SetHeap(old(Memory()), root, key, value, b)
                            && (Outgrows(old(Memory())[root], key, value) ==>
                                  b == youngGen.current.base + old(youngGen.current.used))
      ensures InSpace(youngGen.current.base, youngGen.current.used, Memory(), youngGen.current.extents)
    {
      hide Resolves, RootOf, InSpace, Writable, SetHeap, Outgrows;
      ghost var before := Memory();
      var hash := GetHashInRegister(reg);
      if hash.None? {
        return false;
      }
      ok := true;
      RootIsObject(before, old(GetRegister(reg)));
      ghost var b := Write(hash.value, key, value);
    }

    /** The write itself, to the object at the end of the chain. */
    method Write(root: Word, key: Word, value: Word) returns (ghost b: Word)
      requires InSpace(youngGen.current.base, youngGen.current.used, Memory(), youngGen.current.extents)
      requires root in Memory() && Writable(Memory()[root], key)
      requires Outgrows(Memory()[root], key, value) ==>
                 youngGen.current.used + TotalSize(2 * |Memory()[root].nodes|) <= YOUNG_GEN_BLOCK_SIZE
      modifies youngGen.current
      ensures b !in old(Memory()) && Memory() == SetHeap(old(Memory()), root, key, value, b)
      ensures if Outgrows(old(Memory())[root], key, value) then
                && b == youngGen.current.base + old(youngGen.current.used)
                && youngGen.current.used == old(youngGen.current.used) + TotalSize(2 * |old(Memory())[root].nodes|)
              else youngGen.current.used == old(youngGen.current.used)
      ensures InSpace(youngGen.current.base, youngGen.current.used, Memory(), youngGen.current.extents)
    {
      hide InSpace, HasTable, Writable, Ends, IsCapacity, NeedExpand, SetHeap, SetObj, GrownObj, Outgrows;
      ghost var before := Memory();
      WritableParts(Memory()[root], key);
      var o := SetInObject(youngGen.current.objects[root], key, value);
      SetObjSize(before[root], key, value);
      SameSizeSpace(youngGen.current.base, youngGen.current.used, before, youngGen.current.extents, root, o);
      youngGen.current.objects := youngGen.current.objects[root := o];
      if NeedExpand(o.size, |o.nodes|) {
        CapacityBound(2 * |o.nodes|);
        NormalizeOfCapacity(2 * |o.nodes|);
        var address := youngGen.NewHash(2 * |o.nodes|, o.kind);
        b := address;
        var larger := RehashObject(o);
        ghost var base, used, extents := youngGen.current.base, youngGen.current.used, youngGen.current.extents;
        SameSizeSpace(base, used, Memory(), extents, address, larger);
        RedirectSpace(base, used, Memory()[address := larger], extents, root, address);
        youngGen.current.objects := youngGen.current.objects[address := larger][root := Redirect(address)];
        SetHeapMoves(before, root, key, value, b);
      } else {
        b := FreshAddress(youngGen.current.base, youngGen.current.used, before, youngGen.current.extents);
        SetHeapStays(before, root, key, value);
      }
    }
  }

  /** The main function has 65535 registers: 0 in the first, the global object in
      the second, undefined in all others. */
  function MainFrame(global: Word): Frame {
    Frame(0, 0, [FromInt(0), FromPtr(global)] + seq(65534, i => UNDEFINED))
  }

  lemma EmptyHeapOk()
    ensures HeapOk(map[])
  {
  }

  lemma FirstScene(h: Heap, global: Word, external: Word)
    requires global in Objects(h) && external in Objects(h)
    ensures ScenesIn(h, Objects(h), [Scene(external, [MainFrame(global)])]) && LeadsIn(h, Objects(h), global)
  {
    ObjectResolves(h, external);
    ObjectResolves(h, global);
    var frame := MainFrame(global);
    forall v | v in frame.regs && IsRef(v) ensures Resolves(h, v) && RootOf(h, v) in Objects(h) {
      assert v == global;
      ObjectResolves(h, v);
    }
    hide RegsIn, MainFrame, Objects;
  }

  /** hash_find on a table of the heap. */
  method FindInObject(o: Obj, key: Word) returns (value: Word)
    requires HasTable(o) && Ends(o.nodes, key)
    ensures value == FindIn(o.nodes, key)
  {
    hide WellFormed, Contents, Ends, FindIn;
    var table := new Hash.At(o.kind, o.info, o.size, o.nodes);
    value := table.Find(key);
  }

  /** hash_set on a table of the heap. */
  method SetInObject(o: Obj, key: Word, value: Word) returns (o': Obj)
    requires HasTable(o) && Ends(o.nodes, key)
    ensures o' == SetObj(o, key, value)
  {
    hide WellFormed, Contents, Ends, SetIn;
    SetIsUpdate(o.nodes, key, value);
    var table := new Hash.At(o.kind, o.info, o.size, o.nodes);
    table.Set(key, value);
    o' := Obj(o.kind, o.info, table.size, table.content[..]);
  }

  /** hash_rehash into a new table of twice the capacity. */
  method RehashObject(o: Obj) returns (o': Obj)
    requires HasTable(o) && |o.nodes| < SIGN_BIT
    ensures o' == GrownObj(o) && o'.Obj? && |o'.nodes| == 2 * |o.nodes|
  {
    hide WellFormed, Contents, HashTables.Rehash, IsCapacity;
    TableCapacity(o.nodes);
    DoubleIsCapacity(|o.nodes|);
    ContentsSize(o.nodes);
    var src := new Hash.At(o.kind, o.info, o.size, o.nodes);
    var dst := new Hash(2 * |o.nodes|, o.kind);
    dst.Rehash(src);
    o' := Obj(dst.kind, dst.info, dst.size, dst.content[..]);
  }

  lemma WritableParts(o: Obj, key: Word)
    requires Writable(o, key)
    ensures o.Obj? && HasTable(o) && Ends(o.nodes, key) && |o.nodes| < SIGN_BIT && IsCapacity(2 * |o.nodes|)
  {
    TableCapacity(o.nodes);
    DoubleIsCapacity(|o.nodes|);
  }

  lemma SetObjSize(o: Obj, key: Word, value: Word)
    requires Writable(o, key)
    ensures Outgrows(o, key, value) == NeedExpand(SetObj(o, key, value).size, |o.nodes|)
    ensures HasTable(SetObj(o, key, value)) && |SetObj(o, key, value).nodes| == |o.nodes|
    ensures SetObj(o, key, value).Obj? && SetObj(o, key, value).kind == o.kind
  {
    SetObjEntries(o, key, value);
  }

  /** The object that v leads to can be searched. */
  ghost predicate CanRead(h: Heap, v: Word, key: Word) {
    && Resolves(h, v) && RootOf(h, v) in h
    && HasTable(h[RootOf(h, v)]) && Ends(h[RootOf(h, v)].nodes, key)
  }

  lemma CanReadParts(h: Heap, v: Word, key: Word)
    requires CanRead(h, v, key)
    ensures View(h, v).Some? && HasTable(h[RootOf(h, v)]) && h[RootOf(h, v)].Obj?
  {
    hide Resolves, RootOf, Ends;
  }

  /** The object that v leads to takes a write, and a larger table fits if one is needed. */
  ghost predicate CanWrite(h: Heap, used: nat, v: Word, key: Word, value: Word) {
    && Resolves(h, v) && RootOf(h, v) in h && Writable(h[RootOf(h, v)], key)
    && (Outgrows(h[RootOf(h, v)], key, value) ==>
          used + TotalSize(2 * |h[RootOf(h, v)].nodes|) <= YOUNG_GEN_BLOCK_SIZE)
  }

  /** The scenes with one register of the running frame changed. */
  function WithRegister(scenes: seq<Scene>, reg: nat, value: Word): seq<Scene> {
    if |scenes| > 0 && |scenes[0].frames| > 0 && reg < |scenes[0].frames[0].regs| then
      var frame := scenes[0].frames[0];
      scenes[0 := scenes[0].(frames := scenes[0].frames[0 := frame.(regs := frame.regs[reg := value])])]
    else scenes
  }

  lemma SameRegister(scenes: seq<Scene>, reg: nat)
    requires |scenes| > 0 && |scenes[0].frames| > 0 && reg < |scenes[0].frames[0].regs|
    ensures WithRegister(scenes, reg, scenes[0].frames[0].regs[reg]) == scenes
  {
    var frame := scenes[0].frames[0];
    assert frame.regs[reg := frame.regs[reg]] == frame.regs;
    assert scenes[0].frames[0 := frame] == scenes[0].frames;
  }

  lemma PtrIsSelf(v: Word)
    requires IsPtr(v)
    ensures ToPtr(v) == v && FromPtr(v) == v
  {
  }

  lemma ResolvesIn(h: Heap, a: Word)
    requires Resolves(h, a)
    ensures a in h
  {
  }

  /** A write that fits. */
  lemma SetHeapStays(h: Heap, root: Word, key: Word, value: Word)
    requires root in h && Writable(h[root], key) && !Outgrows(h[root], key, value)
    ensures forall b :: SetHeap(h, root, key, value, b) == h[root := SetObj(h[root], key, value)]
  {
    hide Writable, SetObj, Outgrows;
  }

  /** A write that needs the larger table. */
  lemma SetHeapMoves(h: Heap, root: Word, key: Word, value: Word, b: Word)
    requires root in h && Writable(h[root], key) && Outgrows(h[root], key, value)
    ensures HasTable(SetObj(h[root], key, value)) && |SetObj(h[root], key, value).nodes| == |h[root].nodes|
    ensures SetHeap(h, root, key, value, b) == h[root := Redirect(b)][b := GrownObj(SetObj(h[root], key, value))]
  {
    SetObjEntries(h[root], key, value);
    hide HasTable, Ends, SetObj, Outgrows, GrownObj, Entries;
  }

  lemma SameSizeSpace(base: Word, used: nat, objects: Heap, ext: map<Word, nat>, b: Word, o: Obj)
    requires InSpace(base, used, objects, ext) && b in objects && objects[b].Obj?
    requires o.Obj? && |o.nodes| == |objects[b].nodes|
    ensures InSpace(base, used, objects[b := o], ext)
  {
    hide InSpace;
    RewriteSpace(base, used, objects, ext, b, o);
  }

  lemma RedirectSpace(base: Word, used: nat, objects: Heap, ext: map<Word, nat>, a: Word, to: Word)
    requires InSpace(base, used, objects, ext) && a in objects
    ensures InSpace(base, used, objects[a := Redirect(to)], ext)
  {
    hide Sum;
    assert objects[a := Redirect(to)].Keys == objects.Keys;
    assert Fits(base, used, a, objects[a], ext[a]);
  }

  lemma FreshAddress(base: Word, used: nat, objects: Heap, ext: map<Word, nat>) returns (b: Word)
    requires InSpace(base, used, objects, ext)
    ensures b !in objects
  {
    hide Sum;
    b := 1;
    assert b in objects ==> Fits(base, used, b, objects[b], ext[b]);
  }

  lemma RootsAreObjects(h: Heap, global: Word, scenes: seq<Scene>)
    requires LeadsIn(h, Objects(h), global) && ScenesIn(h, Objects(h), scenes)
    ensures Roots(h, global, scenes) <= Objects(h)
  {
    hide Resolves, RootOf, Objects;
    forall c, f, v | c in scenes && f in c.frames && v in f.regs && IsRef(v) && Resolves(h, v)
      ensures RootOf(h, v) in Objects(h)
    {
      assert FramesIn(h, Objects(h), c.frames);
      assert RegsIn(h, Objects(h), f.regs);
    }
  }

  /** The roots, and all that a collection can meet from them. */
  lemma RootsAreLive(x: Context, roots: set<Word>, global: Word, scenes: seq<Scene>)
    requires HeapLeads(x.heap) && InSpace(x.base, x.used, x.heap, x.extents)
    requires LeadsIn(x.heap, Objects(x.heap), global) && ScenesIn(x.heap, Objects(x.heap), scenes)
    requires roots == Roots(x.heap, global, scenes) && x.live == Behind(x.heap, Reach(Plain(x.heap), roots))
    ensures Covered(x.heap, x.live) && global in x.live && ScenesIn(x.heap, x.live, scenes)
    ensures ExternalsAre(x.live, scenes)
  {
    hide InSpace, Objects, Plain, Reach, Covered, HeapLeads, Roots, RootOf, Resolves, ScenesIn, HeapOk;
    var h, r := x.heap, Reach(Plain(x.heap), roots);
    PlainIsFit(x.base, x.used, h, x.extents);
    PlainObjects(h);
    RootsAreObjects(h, global, scenes);
    ReachIsClosed(Plain(h), roots);
    BehindIsCovered(h, r, x.base, x.used, x.extents);
    RootsAreIn(h, Objects(h), r, global, scenes);
    LeadsAreBehind(h, r, global, scenes);
  }

  lemma LeadsAreBehind(h: Heap, r: set<Word>, global: Word, scenes: seq<Scene>)
    requires LeadsIn(h, r, global) && ScenesIn(h, r, scenes)
    ensures global in Behind(h, r) && ScenesIn(h, Behind(h, r), scenes) && ExternalsAre(Behind(h, r), scenes)
  {
    hide RootOf;
    LeadIsBehind(h, r, global);
    forall c | c in scenes
      ensures c.external in Behind(h, r) && LeadsIn(h, Behind(h, r), c.external) && FramesIn(h, Behind(h, r), c.frames)
    {
      LeadIsBehind(h, r, c.external);
      forall f | f in c.frames ensures RegsIn(h, Behind(h, r), f.regs) {
        forall v | v in f.regs && IsRef(v) ensures LeadsIn(h, Behind(h, r), v) {
          assert FramesIn(h, r, c.frames) && RegsIn(h, r, f.regs);
          LeadIsBehind(h, r, v);
        }
      }
    }
  }

  lemma LeadIsBehind(h: Heap, r: set<Word>, v: Word)
    requires LeadsIn(h, r, v)
    ensures v in Behind(h, r) && LeadsIn(h, Behind(h, r), v)
  {
    hide RootOf;
    RootIsObject(h, v);
  }

  lemma MarkStart(x: Context, s: Snapshot)
    requires HeapLeads(x.heap) && InSpace(x.base, x.used, x.heap, x.extents) && x.target != x.base
    requires Covered(x.heap, x.live)
    requires s.left == x.heap && s.copies == map[] && InSpace(x.target, s.used, s.copies, s.extents)
    ensures Ready(x) && Marked(x, s, {}) && Fwd(s.left).Keys == {}
  {
    hide TableOk, PtrsIn, AllFit, Covered;
    SumEmpty();
    assert s.extents.Keys == {};
    assert s.extents == map[];
    assert Fwd(s.left) == map[];
  }

  lemma UsedLess(x: Context, s: Snapshot)
    requires Ready(x) && Marked(x, s, {})
    ensures s.used <= x.used
  {
    hide Sum, LeftOk, Bijective, CopiesOk, AllFit, Fwd, HeapLeads, Covered;
    SumSubset(x.extents, Fwd(s.left).Keys * x.extents.Keys, x.extents.Keys);
  }

  lemma RegRootsMoved(h: Heap, f: map<Word, Word>, a: Frame, b: Frame)
    requires FrameMoved(h, f, a, b) && HeapLeads(h) && f.Keys <= Objects(h)
    ensures forall v :: v in a.regs && IsRef(v) && Resolves(h, v) ==> RootOf(h, v) in f
  {
    hide Resolves, RootOf, Sent, HeapLeads;
    forall v | v in a.regs && IsRef(v) && Resolves(h, v) ensures RootOf(h, v) in f {
      var k :| 0 <= k < |a.regs| && a.regs[k] == v;
      assert Sent(h, f, a.regs[k], b.regs[k]);
      SentToRoot(h, f, a.regs[k], b.regs[k]);
    }
  }

  lemma SceneRootsMoved(h: Heap, f: map<Word, Word>, c: Scene, c': Scene)
    requires SceneMoved(h, f, c, c') && HeapLeads(h) && f.Keys <= Objects(h)
    ensures forall r, v :: r in c.frames && v in r.regs && IsRef(v) && Resolves(h, v) ==> RootOf(h, v) in f
  {
    hide Resolves, RootOf, FrameMoved, HeapLeads;
    forall r | r in c.frames ensures forall v :: v in r.regs && IsRef(v) && Resolves(h, v) ==> RootOf(h, v) in f {
      var j :| 0 <= j < |c.frames| && c.frames[j] == r;
      RegRootsMoved(h, f, c.frames[j], c'.frames[j]);
    }
  }

  /** All roots have been moved. */
  lemma RootsAreMoved(h: Heap, f: map<Word, Word>, global: Word, scenes: seq<Scene>, scenes': seq<Scene>)
    requires global in f && ScenesMoved(h, f, scenes, scenes') && HeapLeads(h) && f.Keys <= Objects(h)
    ensures Roots(h, global, scenes) <= f.Keys
  {
    hide Resolves, RootOf, FramesMoved, HeapLeads;
    RootOfMoved(h, f, global);
    forall c | c in scenes
      ensures Resolves(h, c.external) ==> RootOf(h, c.external) in f
      ensures forall r, v :: r in c.frames && v in r.regs && IsRef(v) && Resolves(h, v) ==> RootOf(h, v) in f
    {
      var i :| 0 <= i < |scenes| && scenes[i] == c;
      assert SceneMoved(h, f, scenes[i], scenes'[i]);
      SceneRootsMoved(h, f, scenes[i], scenes'[i]);
      RootOfMoved(h, f, c.external);
    }
  }

  lemma RootOfMoved(h: Heap, f: map<Word, Word>, v: Word)
    requires v in f && f.Keys <= Objects(h)
    ensures Resolves(h, v) && RootOf(h, v) == v
  {
    ObjectResolves(h, v);
  }

  lemma NewAddress(h': Heap, f: map<Word, Word>, a: Word)
    requires a in f && Bijective(f, h') && Objects(h') == h'.Keys
    ensures LeadsIn(h', Objects(h'), f[a])
  {
    ObjectResolves(h', f[a]);
  }

  lemma MovedRegsIn(h: Heap, h': Heap, f: map<Word, Word>, regs: seq<Word>, regs': seq<Word>)
    requires Bijective(f, h') && Objects(h') == h'.Keys && RegsMoved(h, f, regs, regs')
    ensures RegsIn(h', Objects(h'), regs')
  {
    hide RootOf, Resolves, SameRoot, Bijective, Objects;
    forall v' | v' in regs' && IsRef(v') ensures LeadsIn(h', Objects(h'), v') {
      var k :| 0 <= k < |regs'| && regs'[k] == v';
      assert Sent(h, f, regs[k], regs'[k]);
      if IsLive(regs[k]) && IsPtr(regs[k]) {
        var c :| c in f && v' == f[c];
        NewAddress(h', f, c);
      }
    }
  }

  /** The new roots and registers lead to objects of the new heap. */
  lemma NewScenesIn(h: Heap, h': Heap, f: map<Word, Word>, global: Word, scenes: seq<Scene>, scenes': seq<Scene>)
    requires Isomorphic(Plain(h), h', f) && Objects(h') == h'.Keys && HeapOk(h')
    requires ScenesMoved(h, f, scenes, scenes') && global in f
    ensures HeapLeads(h') && LeadsIn(h', Objects(h'), f[global]) && ScenesIn(h', Objects(h'), scenes')
  {
    hide Plain, RegsMoved, Objects, RegsIn, HeapOk, HeapLeads, Bijective, LeadsIn, CopyOf;
    FitLeads(h');
    NewAddress(h', f, global);
    forall c' | c' in scenes' ensures LeadsIn(h', Objects(h'), c'.external) && FramesIn(h', Objects(h'), c'.frames) {
      var i :| 0 <= i < |scenes'| && scenes'[i] == c';
      assert SceneMoved(h, f, scenes[i], scenes'[i]);
      NewAddress(h', f, scenes[i].external);
      forall r' | r' in c'.frames ensures RegsIn(h', Objects(h'), r'.regs) {
        var j :| 0 <= j < |c'.frames| && c'.frames[j] == r';
        assert FrameMoved(h, f, scenes[i].frames[j], c'.frames[j]);
        MovedRegsIn(h, h', f, scenes[i].frames[j].regs, r'.regs);
      }
    }
  }

  ghost function Externals(scenes: seq<Scene>): set<Word> {
    set c | c in scenes :: c.external
  }

  lemma NoExternals()
    ensures Externals([]) == {}
  {
  }

  lemma MoreExternals(scenes: seq<Scene>, c: Scene)
    ensures Externals(scenes + [c]) == Externals(scenes) + {c.external}
  {
  }

  /** A root that points into the old block. */
  lemma LostRoots(h': Heap, global: Word, scenes: seq<Scene>)
    requires !HeapLeads(h') || exists y :: y in {global} + Externals(scenes) && !Resolves(h', y)
    ensures !(HeapLeads(h') && LeadsIn(h', Objects(h'), global) && ScenesIn(h', Objects(h'), scenes))
  {
    hide Resolves, RootOf, HeapLeads;
  }

  lemma ScenesOutcomeNone(h: Heap, m: set<Word>, scenes: seq<Scene>)
    ensures ScenesOutcome(h, m, scenes[..0], m)
  {
    OutcomeNothing(h, m);
  }

  /** One more scene. */
  lemma SceneMarked(h: Heap, s0: Snapshot, s: Snapshot, t: Snapshot, u: Snapshot, scenes: seq<Scene>, i: nat,
        ys: set<Word>, external: Word)
    requires i < |scenes| && Grows(s0, s) && Grows(s, t)
    requires ScenesOutcome(h, Fwd(s0.left).Keys, scenes[..i], Fwd(s.left).Keys)
    requires RootOutcome(h, Fwd(s.left).Keys, scenes[i].external, Fwd(t.left).Keys)
    requires Marks(h, t, u, FramesLine(h, scenes[i].frames))
    requires HeldBut(h, Fwd(s0.left).Keys, s, ys) && HeldBut(h, Fwd(s.left).Keys, t, {external})
    ensures Grows(s0, u) && Grows(s, u) && Extends(Fwd(t.left), Fwd(u.left)) && Extends(Fwd(s.left), Fwd(u.left))
    ensures ScenesOutcome(h, Fwd(s0.left).Keys, scenes[..i + 1], Fwd(u.left).Keys)
    ensures HeldBut(h, Fwd(s0.left).Keys, u, ys + {external})
  {
    hide Fwd, ScenesOutcome, RootOutcome, HeldBut, FramesLine, Outcome;
    ScenesOutcomeNext(h, Fwd(s0.left).Keys, scenes, i, Fwd(s.left).Keys, Fwd(t.left).Keys, Fwd(u.left).Keys);
    GrowsTransitive(s, t, u);
    GrowsTransitive(s0, s, u);
    HeldMore(h, Fwd(s0.left).Keys, s, t, ys, {external});
    GrowsTransitive(s0, s, t);
    HeldMore(h, Fwd(s0.left).Keys, t, u, ys + {external}, {});
    assert ys + {external} + {} == ys + {external};
  }

  lemma GrowsSelf(s: Snapshot)
    ensures Grows(s, s)
  {
  }

  lemma GrowsKeys(s: Snapshot, s': Snapshot)
    requires Grows(s, s')
    ensures Fwd(s.left).Keys <= Fwd(s'.left).Keys
  {
    hide Fwd;
  }

  lemma GrowsAt(s: Snapshot, s': Snapshot, a: Word)
    requires Grows(s, s') && a in Fwd(s.left)
    ensures a in Fwd(s'.left) && Fwd(s'.left)[a] == Fwd(s.left)[a]
  {
    hide Fwd;
  }

  lemma MarksGrow(h: Heap, s: Snapshot, s': Snapshot, stack: seq<Word>)
    requires Marks(h, s, s', stack)
    ensures Extends(Fwd(s.left), Fwd(s'.left))
  {
  }

  lemma ExtendsAt(f: map<Word, Word>, f': map<Word, Word>, a: Word)
    requires Extends(f, f') && a in f
    ensures a in f' && f'[a] == f[a]
  {
  }

  lemma BlocksAreApart(x: Context, s: Snapshot)
    requires Ready(x) && Marked(x, s, {})
    ensures s.copies.Keys !! x.heap.Keys
  {
    hide Ready, Marked;
    forall b | b in s.copies ensures b !in x.heap {
      BlocksApart(x, s, {}, b);
    }
  }

  /** Where a register's chain stops is an object that is live or something moved. */
  lemma FollowedIsLive(x: Context, s: Snapshot, v: Word, hash: Word)
    requires Ready(x) && Marked(x, s, {}) && LeadsIn(x.heap, x.live, v) && SameRoot(x.heap, v, hash)
    requires hash in s.left && hash in x.heap && !s.left[hash].Redirect?
    ensures hash in x.live
  {
    hide Sum, InSpace, Bijective, CopiesOk, TableOk, PtrsIn, Resolves, RootOf;
    if s.left[hash].GcLeft? {
      assert hash in Fwd(s.left);
    } else {
      ObjectResolves(x.heap, hash);
    }
  }

  /** A register is sent, and marking it is marking the object that it leads to. */
  lemma RegisterMarked(x: Context, s: Snapshot, s': Snapshot, v: Word, hash: Word, moved: Word)
    requires Ready(x) && Marked(x, s, {}) && Marked(x, s', {}) && IsRef(v) && SameRoot(x.heap, v, hash)
    requires hash in s.left && hash in x.heap && !s.left[hash].Redirect? && hash in x.live
    requires Grows(s, s') && hash in Fwd(s'.left) && moved == Fwd(s'.left)[hash]
    requires hash in Objects(x.heap) ==> Outcome(x.heap, Fwd(s.left).Keys, [hash], Fwd(s'.left).Keys)
    requires HeldBut(x.heap, Fwd(s.left).Keys, s', {moved})
    ensures Sent(x.heap, Fwd(s'.left), v, moved) && Marks(x.heap, s, s', Lead(x.heap, v))
  {
    hide Ready, Marked, Fwd, Resolves, RootOf, HeldBut, Outcome, Objects, Grows, IsPtr, IsNull, IsLive;
    RefIsLive(v);
    StopIsRoot(x, s, v, hash);
    GrowsKeys(s, s');
    OtherwiseHeld(x, s, s', hash, moved);
    if hash !in Objects(x.heap) {
      OutcomeOfLost(x.heap, Fwd(s.left).Keys, hash, Lead(x.heap, v), Fwd(s'.left).Keys);
    }
  }

  lemma RefIsLive(v: Word)
    ensures IsRef(v) <==> IsLive(v) && IsPtr(v)
  {
  }

  lemma OutcomeOfLost(h: Heap, m: set<Word>, a: Word, stack: seq<Word>, m': set<Word>)
    requires a in m && a !in Objects(h) && m <= m'
    ensures Outcome(h, m, stack, m')
  {
  }

  /** The address returned for a register is no copied header's that was not there. */
  lemma OtherwiseHeld(x: Context, s: Snapshot, s': Snapshot, hash: Word, moved: Word)
    requires Ready(x) && Marked(x, s', {}) && hash in x.heap && hash in Fwd(s'.left) && moved == Fwd(s'.left)[hash]
    requires HeldBut(x.heap, Fwd(s.left).Keys, s', {moved}) && (x.heap[hash].Redirect? ==> hash in Fwd(s.left))
    ensures HeldBut(x.heap, Fwd(s.left).Keys, s', {})
  {
    hide Ready, Marked, Fwd, HeldBy;
    MarkedParts(x, s', {});
  }

  lemma StopIsRoot(x: Context, s: Snapshot, v: Word, hash: Word)
    requires Ready(x) && Marked(x, s, {}) && SameRoot(x.heap, v, hash) && hash in s.left && hash in x.heap
    requires !s.left[hash].Redirect?
    ensures hash in Objects(x.heap) ==> hash == RootOf(x.heap, v) && !x.heap[hash].Redirect?
    ensures hash !in Objects(x.heap) ==> hash in Fwd(s.left)
    ensures x.heap[hash].Redirect? ==> hash in Fwd(s.left)
  {
    hide Sum, InSpace, Bijective, CopiesOk, TableOk, PtrsIn, Resolves, RootOf;
    if hash in Objects(x.heap) {
      ObjectResolves(x.heap, hash);
    }
  }

  lemma RootIsSelf(h: Heap, a: Word)
    requires Resolves(h, a) && !h[a].Redirect?
    ensures RootOf(h, a) == a
  {
    RootIs(h, a, 0);
  }
}
