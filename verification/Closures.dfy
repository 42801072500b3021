/** What I_NEW_CLS captures and what a frame of the closure starts with. */
module Closures {
  import opened Values
  import opened Insts
  import opened Probe
  import opened HashTables
  import opened HashRuns
  import opened Heaps
  import opened Aliasing
  import opened YoungGens
  import opened Vms
  import opened Frames

  // ----- a new frame -----

  lemma {:induction false} ArgumentsAre(regs: Regs, args: Obj, k: nat)
    requires WithArguments(regs, args, k).Ok?
    ensures k == 0 || (k < |regs| && HasTable(args))
    ensures forall i: nat :: i < k ==> Ends(args.nodes, Wrap(i))
    ensures forall r: nat :: r < |regs| ==>
              WithArguments(regs, args, k).value[r] == if 1 <= r <= k then FindIn(args.nodes, Wrap(r - 1)) else regs[r]
    decreases k
  {
    hide HasTable, Ends, FindIn;
    if k > 0 {
      ArgumentsAre(regs, args, k - 1);
    }
  }

  /** The captured values that have been copied override what was there. */
  lemma {:induction false} CapturesAre(regs: Regs, nodes: seq<Node>, k: nat)
    requires WellFormed(nodes) && k <= |nodes| && WithCaptures(regs, nodes, k).Ok?
    ensures forall r: nat :: r < |regs| ==>
              WithCaptures(regs, nodes, k).value[r] ==
              if r > 0 && r in Prefix(nodes, k) then Prefix(nodes, k)[r] else regs[r]
    decreases k
  {
    hide WellFormed, Prefix, IsLive;
    if k > 0 {
      CapturesAre(regs, nodes, k - 1);
      if IsLive(nodes[k - 1].value) {
        PrefixLive(nodes, k - 1);
      } else {
        PrefixDead(nodes, k - 1);
      }
    } else {
      PrefixNone(nodes);
    }
  }

  lemma PrefixNone(nodes: seq<Node>)
    requires WellFormed(nodes)
    ensures Prefix(nodes, 0) == map[]
  {
  }

  lemma PrefixAll(nodes: seq<Node>)
    requires WellFormed(nodes)
    ensures Prefix(nodes, |nodes|) == Contents(nodes)
  {
  }

  /** What register r of a new frame holds, given the maps of the closure and of the arguments. */
  ghost predicate Holds(f: Function, captured: map<Word, Word>, args: map<Word, Word>, r: Word, v: Word) {
    if r in captured then v == captured[r]
    else if r <= f.argumentsNr + 1 && r - 1 in args then v == args[r - 1]
    else IsUndefined(v)
  }

  /** The frame of a call: captured values come before arguments, the n-th argument
      is in register n + 1, and everything else is undefined. */
  lemma FrameHolds(p: Program, m: Memory, closure: Obj, args: Obj, r: Word)
    requires HasTable(closure) && closure.Obj? && NewFrame(p, m, closure, args).Ok?
    requires p.functions[closure.info.first].argumentsNr + 1 < WORD_RANGE
    requires 0 < r < |NewFrame(p, m, closure, args).value.regs|
    ensures HasTable(args)
    ensures Holds(p.functions[closure.info.first], Contents(closure.nodes), Contents(args.nodes), r,
                  NewFrame(p, m, closure, args).value.regs[r])
  {
    hide WellFormed, Contents, Ends, FindIn, Prefix, Blank, WithArguments, WithCaptures;
    var f := p.functions[closure.info.first];
    var blank := Blank(f, m.global);
    var given := WithArguments(blank, args, f.argumentsNr + 1).value;
    ArgumentsAre(blank, args, f.argumentsNr + 1);
    CapturesAre(given, closure.nodes, |closure.nodes|);
    PrefixAll(closure.nodes);
    if r <= f.argumentsNr + 1 {
      TableCapacity(args.nodes);
      assert Ends(args.nodes, Wrap(r - 1));
      FindIsLookup(args.nodes, r - 1);
    } else {
      BlankIs(f, m.global, r);
    }
  }

  lemma BlankIs(f: Function, global: Word, r: nat)
    requires 1 < r <= f.registerNr
    ensures IsUndefined(Blank(f, global)[r])
  {
  }

  // ----- a new closure -----

  ghost function ClosureOf(imm: int, nodes: seq<Node>): Obj
    requires WellFormed(nodes)
  {
    Obj(HT_CLOSURE, Info(Wrap(imm), 0), |Contents(nodes)|, nodes)
  }

  lemma NewClosureParts(p: Program, m: Memory, regs: seq<Word>, rd: nat, imm: int)
    requires NewClosure(p, m, regs, rd, imm).Ok?
    ensures 0 <= imm < |p.functions| && 0 < |p.functions[imm].captures| <= SIGN_BIT && rd < |regs|
    ensures var captures := p.functions[imm].captures;
            var n := NormalizeCapacity(|captures|);
            && IsCapacity(n) && m.used + TotalSize(n) <= YOUNG_GEN_BLOCK_SIZE && WellFormed(EmptyNodes(n))
            && var address := Wrap(m.base + m.used);
               var regs' := SetReg(regs, rd, FromPtr(address)).value;
               var nodes := Captured(EmptyNodes(n), captures, regs', |captures|);
               && nodes.Ok?
               && NewClosure(p, m, regs, rd, imm).value ==
                  (m.(heap := m.heap[address := ClosureOf(imm, nodes.value)], used := m.used + TotalSize(n)), regs')
  {
    hide NormalizeCapacity, IsCapacity, Contents, WellFormed, Captured, SetReg;
    var captures := p.functions[imm].captures;
    NormalIsCapacity(|captures|);
    NormalizeIsLeast(|captures|, 0);
    EmptyIsEmpty(NormalizeCapacity(|captures|));
    var address := Wrap(m.base + m.used);
    var a := Allocate(m, |captures|, HT_CLOSURE).value;
    var regs' := SetReg(regs, rd, FromPtr(address)).value;
    var nodes := Captured(EmptyNodes(NormalizeCapacity(|captures|)), captures, regs', |captures|);
    assert a.0.heap[address := ClosureOf(imm, nodes.value)] == m.heap[address := ClosureOf(imm, nodes.value)];
  }

  /** The map of the first k captures, on top of m. */
  ghost function Bound(m: map<Word, Word>, captures: seq<Capture>, regs: Regs, k: nat): map<Word, Word>
    requires k <= |captures| && forall i :: 0 <= i < k ==> captures[i].outer < |regs|
  {
    if k == 0 then m
    else Updated(Bound(m, captures, regs, k - 1), Wrap(captures[k - 1].inner), regs[captures[k - 1].outer])
  }

  lemma {:induction false} CapturedContents(nodes: seq<Node>, captures: seq<Capture>, regs: Regs, k: nat)
    requires WellFormed(nodes) && k <= |captures| && Captured(nodes, captures, regs, k).Ok?
    ensures forall i :: 0 <= i < k ==> captures[i].outer < |regs|
    ensures Contents(Captured(nodes, captures, regs, k).value) == Bound(Contents(nodes), captures, regs, k)
    decreases k
  {
    hide WellFormed, Contents, SetIn, Ends, Updated;
    if k > 0 {
      CapturedContents(nodes, captures, regs, k - 1);
      var before := Captured(nodes, captures, regs, k - 1).value;
      SetIsUpdate(before, Wrap(captures[k - 1].inner), regs[captures[k - 1].outer]);
    }
  }

  /** Captures go to different registers. */
  ghost predicate Apart(captures: seq<Capture>) {
    forall i, j :: 0 <= i < j < |captures| ==> captures[i].inner != captures[j].inner
  }

  ghost predicate Named(captures: seq<Capture>) {
    Apart(captures) && forall i :: 0 <= i < |captures| ==> captures[i].inner < WORD_RANGE
  }

  lemma {:induction false} BoundAt(m: map<Word, Word>, captures: seq<Capture>, regs: Regs, k: nat, i: nat)
    requires Named(captures) && i < k <= |captures| && forall j :: 0 <= j < k ==> captures[j].outer < |regs|
    ensures var key, value := captures[i].inner, regs[captures[i].outer];
            if IsLive(value) then key in Bound(m, captures, regs, k) && Bound(m, captures, regs, k)[key] == value
            else key !in Bound(m, captures, regs, k)
    decreases k
  {
    hide IsLive;
    if i < k - 1 {
      BoundAt(m, captures, regs, k - 1, i);
    }
  }

  /** A captured variable has, in every frame of the closure, the value that its
      register had when the closure was made; only null and undefined are not
      kept, and give way to the argument in the same place. */
  lemma CaptureReturns(p: Program, m: Memory, regs: Regs, rd: nat, imm: int, i: nat, later: Memory, args: Obj)
    requires NewClosure(p, m, regs, rd, imm).Ok? && |p.functions| <= WORD_RANGE
    requires var f := p.functions[imm]; Named(f.captures) && i < |f.captures| && f.argumentsNr + 1 < WORD_RANGE
    ensures var e, address, c := NewClosure(p, m, regs, rd, imm).value, Wrap(m.base + m.used), p.functions[imm].captures[i];
            && address in e.0.heap && e.0.heap[address].Obj? && e.0.heap[address].kind == HT_CLOSURE
            && c.outer < |e.1|
            && var frame := NewFrame(p, later, e.0.heap[address], args);
               frame.Ok? && 0 < c.inner < |frame.value.regs| ==>
                 && frame.value.callee == imm && HasTable(args)
                 && var v, w := e.1[c.outer], frame.value.regs[c.inner];
                    if IsLive(v) then w == v
                    else if c.inner <= p.functions[imm].argumentsNr + 1 && c.inner - 1 in Contents(args.nodes)
                      then w == Contents(args.nodes)[c.inner - 1]
                    else IsUndefined(w)
  {
    hide WellFormed, Contents, Captured, Bound, IsLive, NewFrame, Apart;
    var f := p.functions[imm];
    var e, address := NewClosure(p, m, regs, rd, imm).value, Wrap(m.base + m.used);
    NormalIsCapacity(|f.captures|);
    var normal := NormalizeCapacity(|f.captures|);
    EmptyIsEmpty(normal);
    CapturedContents(EmptyNodes(normal), f.captures, e.1, |f.captures|);
    BoundAt(map[], f.captures, e.1, |f.captures|, i);
    var closure := e.0.heap[address];
    ClosureFits(closure);
    var frame := NewFrame(p, later, closure, args);
    if frame.Ok? && 0 < f.captures[i].inner < |frame.value.regs| {
      FrameOfClosure(p, later, closure, args);
      FrameHolds(p, later, closure, args, f.captures[i].inner);
    }
  }

  lemma ClosureFits(o: Obj)
    requires o.Obj? && o.kind == HT_CLOSURE && WellFormed(o.nodes) && o.size == |Contents(o.nodes)|
    ensures HasTable(o)
  {
    hide WellFormed, Contents;
  }

  lemma FrameOfClosure(p: Program, m: Memory, closure: Obj, args: Obj)
    requires closure.Obj? && NewFrame(p, m, closure, args).Ok?
    ensures NewFrame(p, m, closure, args).value.callee == closure.info.first
  {
  }

  // ----- a closure can always be filled -----

  ghost function UsedSlots(nodes: seq<Node>): set<nat> {
    set i: nat | i < |nodes| && !IsNull(nodes[i].value)
  }

  lemma UsedBound(nodes: seq<Node>, key: Word)
    requires IsCapacity(|nodes|) && |UsedSlots(nodes)| < |nodes|
    ensures Ends(nodes, key)
  {
    hide IsCapacity, Ends;
    var all := Below(|nodes|);
    assert all - UsedSlots(nodes) != {} by {
      SubsetSize(all, UsedSlots(nodes) + (all - UsedSlots(nodes)));
    }
    var i :| i in all - UsedSlots(nodes);
    assert Stops(nodes[i], key);
    SearchEndsIff(nodes, key);
  }

  lemma UsedStep(nodes: seq<Node>, key: Word, value: Word)
    requires IsCapacity(|nodes|) && Ends(nodes, key)
    ensures |UsedSlots(SetIn(nodes, key, value))| <= |UsedSlots(nodes)| + 1
  {
    hide IsCapacity, Ends, Target;
    var t := Target(nodes, key);
    SubsetSize(UsedSlots(SetIn(nodes, key, value)), UsedSlots(nodes) + {t});
  }

  lemma {:induction false} CapturedFits(nodes: seq<Node>, captures: seq<Capture>, regs: Regs, k: nat)
    requires WellFormed(nodes) && UsedSlots(nodes) == {} && k <= |captures| <= |nodes|
    requires forall i :: 0 <= i < k ==> captures[i].outer < |regs|
    ensures Captured(nodes, captures, regs, k).Ok?
    ensures |UsedSlots(Captured(nodes, captures, regs, k).value)| <= k
    decreases k
  {
    hide WellFormed, SetIn, Ends, UsedSlots;
    if k > 0 {
      CapturedFits(nodes, captures, regs, k - 1);
      var before, key := Captured(nodes, captures, regs, k - 1).value, Wrap(captures[k - 1].inner);
      TableCapacity(before);
      UsedBound(before, key);
      UsedStep(before, key, regs[captures[k - 1].outer]);
    }
  }

  /** No search for a place in a new closure goes on for ever: I_NEW_CLS can only
      fail for want of room in the block. */
  lemma ClosureIsMade(p: Program, m: Memory, regs: Regs, rd: nat, imm: int)
    requires 0 <= imm < |p.functions| && rd < |regs| && p.functions[imm].captures != []
    requires forall c :: c in p.functions[imm].captures ==> c.outer < |regs|
    ensures NewClosure(p, m, regs, rd, imm).Ok? <==>
              m.used + TotalSize(NormalizeCapacity(|p.functions[imm].captures|)) <= YOUNG_GEN_BLOCK_SIZE
  {
    hide WellFormed, Contents, Captured, UsedSlots, NormalizeCapacity, IsCapacity;
    var captures := p.functions[imm].captures;
    var n := NormalizeCapacity(|captures|);
    if m.used + TotalSize(n) <= YOUNG_GEN_BLOCK_SIZE {
      NormalIsCapacity(|captures|);
      NormalizeIsLeast(|captures|, 0);
      EmptyIsEmpty(n);
      NoneUsed(n);
      var regs' := SetReg(regs, rd, FromPtr(Wrap(m.base + m.used))).value;
      CapturedFits(EmptyNodes(n), captures, regs', |captures|);
    }
  }

  lemma NoneUsed(n: nat)
    ensures UsedSlots(EmptyNodes(n)) == {}
  {
  }
}
