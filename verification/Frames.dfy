/** cvm_state_run of src/cvm.c with its heap, its calls and its returns, on the
  frames of one scene. */
module Frames {
  import opened Values
  import opened Insts
  import opened Probe
  import opened HashTables
  import opened HashRuns
  import opened Heaps
  import opened Marking
  import opened Redirects
  import opened Aliasing
  import opened Machines
  import opened YoungGens
  import opened Vms
  import Codes

  /** A register of the defining function and the register its value gets in a frame of the closure. */
  datatype Capture = Capture(outer: nat, inner: nat)

  /** A VMFunction: `registerNr` is its highest register. */
  datatype Function = Function(code: seq<Inst>, registerNr: nat, argumentsNr: nat, captures: seq<Capture>)

  /** The block of the young generation in use, and the global object. */
  datatype Memory = Memory(heap: Heap, base: Word, used: nat, global: Word)

  /** A native function sees the memory, its own address and its argument; None is an error. */
  datatype Program = Program(functions: seq<Function>, native: (Memory, Word, Word) -> Option<(Memory, Word)>)

  /** Why the machine does not go on: an error it reports, an access outside a
      frame, a table or the code, a search without end, or a block that is full,
      in which case the source collects garbage and tries again. */
  datatype Reason = Trap | BadAccess | EndlessSearch | BlockFull

  datatype Result<+T> = Ok(value: T) | Fail(reason: Reason) {
    predicate IsFailure() { Fail? }
    function PropagateFailure<U>(): Result<U>
      requires IsFailure()
    {
      Fail(reason)
    }
    function Extract(): T
      requires !IsFailure()
    {
      value
    }
  }

  type Regs = seq<Word>

  datatype State =
    | Running(memory: Memory, frames: seq<Frame>)
    | Finished(memory: Memory, value: Word)
    | Stopped(reason: Reason)

  // ----- registers -----

  /** Same size, and register 0 as it was. */
  ghost predicate Kept(regs: Regs, regs': Regs) {
    |regs'| == |regs| && (regs != [] ==> regs'[0] == regs[0])
  }

  /** Moreover nothing else but rd and rs is written. */
  ghost predicate Confined(regs: Regs, regs': Regs, rd: nat, rs: nat) {
    Kept(regs, regs') && forall r :: 0 <= r < |regs| && r != rd && r != rs ==> regs'[r] == regs[r]
  }

  /** A register may have been moved along its chain of redirects. */
  ghost predicate Through(h: Heap, v: Word, v': Word) {
    v' == v || (IsRef(v) && Resolves(h, v) && v' == RootOf(h, v))
  }

  ghost predicate LooksThrough(h: Heap, regs: Regs, regs': Regs) {
    |regs'| == |regs| && forall r :: 0 <= r < |regs| ==> Through(h, regs[r], regs'[r])
  }

  lemma LooksThroughTwice(h: Heap, a: Regs, b: Regs, c: Regs)
    requires LooksThrough(h, a, b) && LooksThrough(h, b, c)
    ensures LooksThrough(h, a, c)
  {
    hide Resolves, RootOf, IsRef;
    forall r | 0 <= r < |a| ensures Through(h, a[r], c[r]) {
      assert Through(h, a[r], b[r]) && Through(h, b[r], c[r]);
      if b[r] != a[r] {
        RootIsObject(h, a[r]);
      }
    }
  }

  /** cvm_get_register */
  function GetReg(regs: Regs, reg: nat): (r: Result<Word>)
    ensures r.Fail? ==> r.reason != Trap
  {
    if reg < |regs| then Ok(regs[reg]) else Fail(BadAccess)
  }

  /** cvm_set_register */
  function SetReg(regs: Regs, reg: nat, value: Word): (r: Result<Regs>)
    ensures r.Ok? ==> Kept(regs, r.value) && reg < |regs| && r.value == if reg == 0 then regs else regs[reg := value]
    ensures r.Fail? ==> r.reason != Trap
  {
    match Codes.Put(regs, reg, Some(value))
    case None => Fail(BadAccess)
    case Some(regs') => Ok(regs')
  }

  /** _cvm_get_hash_in_register: the object, and the registers with the chain of redirects cut short. */
  ghost function GetHash(m: Memory, regs: Regs, reg: nat): (r: Result<(Word, Regs)>)
    ensures r.Ok? ==> r.value.0 in m.heap && !m.heap[r.value.0].Redirect?
    ensures r.Ok? ==> Confined(regs, r.value.1, reg, reg) && LooksThrough(m.heap, regs, r.value.1)
  {
    if reg >= |regs| then Fail(BadAccess)
    else if !IsRef(regs[reg]) then Fail(Trap)
    else if !Resolves(m.heap, regs[reg]) then Fail(BadAccess)
    else
      RootIsObject(m.heap, regs[reg]);
      var root := RootOf(m.heap, regs[reg]);
      Ok((root, if reg == 0 then regs else regs[reg := root]))
  }

  // ----- the heap -----

  /** young_gen_new_hash: capacity 0 is undefined behaviour. */
  ghost function Allocate(m: Memory, capacity: nat, kind: HashType): (r: Result<(Memory, Word)>)
    ensures r.Ok? ==> r.value.1 in r.value.0.heap && r.value.0.heap[r.value.1].Obj?
    ensures r.Fail? ==> r.reason != Trap
  {
    if capacity == 0 then Fail(BadAccess)
    else
      var n := NormalizeCapacity(capacity);
      if m.used + TotalSize(n) > YOUNG_GEN_BLOCK_SIZE then Fail(BlockFull)
      else
        var address := Wrap(m.base + m.used);
        var o := Obj(kind, Info(0, 0), 0, EmptyNodes(n));
        Ok((m.(heap := m.heap[address := o], used := m.used + TotalSize(n)), address))
  }

  /** A field's key: strings for objects, integers for everything else. */
  function KeyOf(o: Obj, v: Word): Result<Word> {
    if o.Obj? && o.kind == HT_OBJECT then (if IsString(v) then Ok(ToStr(v)) else Fail(Trap))
    else if IsInt(v) then Ok(Wrap(ToInt(v)))
    else Fail(Trap)
  }

  /** hash_find */
  ghost function Find(o: Obj, key: Word): (r: Result<Word>)
    ensures r.Fail? ==> r.reason != Trap
  {
    if !HasTable(o) then Fail(BadAccess)
    else if !Ends(o.nodes, key) then Fail(EndlessSearch)
    else Ok(FindIn(o.nodes, key))
  }

  /** hash_set and the expansion of _cvm_set_hash_in_register. */
  ghost function SetField(m: Memory, root: Word, key: Word, value: Word): (r: Result<Memory>)
    requires root in m.heap
    ensures r.Fail? ==> r.reason != Trap
  {
    var o := m.heap[root];
    if !HasTable(o) || |o.nodes| >= SIGN_BIT then Fail(BadAccess)
    else if !Ends(o.nodes, key) then Fail(EndlessSearch)
    else
      var address := Wrap(m.base + m.used);
      var heap := SetHeap(m.heap, root, key, value, address);
      if !Outgrows(o, key, value) then Ok(m.(heap := heap))
      else if m.used + TotalSize(2 * |o.nodes|) > YOUNG_GEN_BLOCK_SIZE then Fail(BlockFull)
      else Ok(m.(heap := heap, used := m.used + TotalSize(2 * |o.nodes|)))
  }

  lemma SetFieldParts(m: Memory, root: Word, key: Word, value: Word)
    requires root in m.heap && SetField(m, root, key, value).Ok?
    ensures Writable(m.heap[root], key)
    ensures Outgrows(m.heap[root], key, value) ==> m.used + TotalSize(2 * |m.heap[root].nodes|) <= YOUNG_GEN_BLOCK_SIZE
    ensures SetField(m, root, key, value).value ==
            Memory(SetHeap(m.heap, root, key, value, Wrap(m.base + m.used)), m.base,
                     if Outgrows(m.heap[root], key, value) then m.used + TotalSize(2 * |m.heap[root].nodes|) else m.used,
                     m.global)
  {
    hide SetHeap, Outgrows, Ends, HasTable;
  }

  // ----- instructions that stay in their frame -----

  type Effect = Result<(Memory, Regs)>

  /** I_NEW_OBJ and I_NEW_ARR */
  ghost function NewObject(m: Memory, regs: Regs, rd: nat, kind: HashType): (r: Effect)
    ensures r.Ok? ==> Confined(regs, r.value.1, rd, rd)
    ensures r.Fail? ==> r.reason != Trap
  {
    var a :- Allocate(m, HASH_MIN_CAPACITY, kind);
    var regs' :- SetReg(regs, rd, FromPtr(a.1));
    Ok((a.0, regs'))
  }

  /** I_GET_OBJ */
  ghost function GetObject(m: Memory, regs: Regs, rd: nat, rs: nat, rt: nat): (r: Effect)
    ensures r.Ok? ==> Confined(regs, r.value.1, rd, rs) && r.value.0 == m
  {
    var h :- GetHash(m, regs, rs);
    var k :- GetReg(h.1, rt);
    var key :- KeyOf(m.heap[h.0], k);
    var value :- Find(m.heap[h.0], key);
    var regs' :- SetReg(h.1, rd, value);
    Ok((m, regs'))
  }

  /** I_SET_OBJ */
  ghost function SetObject(m: Memory, regs: Regs, rd: nat, rs: nat, rt: nat): (r: Effect)
    ensures r.Ok? ==> Confined(regs, r.value.1, rd, rd)
  {
    var h :- GetHash(m, regs, rd);
    var k :- GetReg(h.1, rt);
    var key :- KeyOf(m.heap[h.0], k);
    var value :- GetReg(h.1, rs);
    var m' :- SetField(m, h.0, key, value);
    Ok((m', h.1))
  }

  /** The table of a closure after its first k captures. */
  ghost function Captured(nodes: seq<Node>, captures: seq<Capture>, regs: Regs, k: nat): (r: Result<seq<Node>>)
    requires WellFormed(nodes) && k <= |captures|
    ensures r.Ok? ==> WellFormed(r.value) && |r.value| == |nodes|
    ensures r.Fail? ==> r.reason != Trap
  {
    if k == 0 then Ok(nodes)
    else
      var before :- Captured(nodes, captures, regs, k - 1);
      var value :- GetReg(regs, captures[k - 1].outer);
      var key := Wrap(captures[k - 1].inner);
      if !Ends(before, key) then Fail(EndlessSearch)
      else
        SetIsUpdate(before, key, value);
        Ok(SetIn(before, key, value))
  }

  /** I_NEW_CLS: the immediate stands for the function.  The captured registers
      are read when the closure is in rd already. */
  ghost function NewClosure(p: Program, m: Memory, regs: Regs, rd: nat, imm: int): (r: Effect)
    ensures r.Ok? ==> Confined(regs, r.value.1, rd, rd)
    ensures r.Fail? ==> r.reason != Trap
  {
    if !(0 <= imm < |p.functions|) then Fail(BadAccess)
    else
      var captures := p.functions[imm].captures;
      var a :- Allocate(m, |captures|, HT_CLOSURE);
      var regs' :- SetReg(regs, rd, FromPtr(a.1));
      var normal := NormalizeCapacity(|captures|);
      NormalIsCapacity(|captures|);
      EmptyIsEmpty(normal);
      var nodes :- Captured(EmptyNodes(normal), captures, regs', |captures|);
      var closure := Obj(HT_CLOSURE, Info(Wrap(imm), 0), |Contents(nodes)|, nodes);
      Ok((a.0.(heap := a.0.heap[a.1 := closure]), regs'))
  }

  lemma NormalIsCapacity(n: nat)
    requires 0 < n && TotalSize(NormalizeCapacity(n)) <= YOUNG_GEN_BLOCK_SIZE
    ensures IsCapacity(NormalizeCapacity(n))
  {
    hide NormalizeCapacity, IsCapacity;
    NormalizeIsLeast(n, 0);
    NormalizeOfCapacity(n);
  }

  /** li, arithmetic, lnot, mov and undefined. */
  function Compute(m: Memory, regs: Regs, inst: Inst): (r: Effect)
    ensures r.Ok? ==> Confined(regs, r.value.1, inst.rd, inst.rd) && r.value.0 == m
  {
    if inst.rd >= |regs| || (inst.DType? && (inst.rs >= |regs| || inst.rt >= |regs|)) then Fail(BadAccess)
    else
      match Codes.Step(regs, inst)
      case None => Fail(Trap)
      case Some(regs') => Ok((m, regs'))
  }

  function Store(m: Memory, regs: Regs, rd: nat, value: Word): (r: Effect)
    ensures r.Ok? ==> Confined(regs, r.value.1, rd, rd) && r.value.0 == m
  {
    var regs' :- SetReg(regs, rd, value);
    Ok((m, regs'))
  }

  ghost function Execute(p: Program, m: Memory, regs: Regs, inst: Inst): Effect {
    match inst
    case IType(op, rd, imm) =>
      (match op
       case I_LSTR => Store(m, regs, rd, FromStr(Wrap(imm)))
       case I_NEW_CLS => NewClosure(p, m, regs, rd, imm)
       case _ => Compute(m, regs, inst))
    case DType(op, rd, rs, rt) =>
      (match op
       case I_NULL => Store(m, regs, rd, NULL)
       case I_NEW_OBJ => NewObject(m, regs, rd, HT_OBJECT)
       case I_NEW_ARR => NewObject(m, regs, rd, HT_ARRAY)
       case I_GET_OBJ => GetObject(m, regs, rd, rs, rt)
       case I_SET_OBJ => SetObject(m, regs, rd, rs, rt)
       case _ => Compute(m, regs, inst))
  }

  // ----- calls -----

  /** cvm_state_push_frame */
  function Blank(f: Function, global: Word): (regs: Regs)
    ensures |regs| == f.registerNr + 1 && regs[0] == FromInt(0)
  {
    seq(f.registerNr + 1, r requires 0 <= r <= f.registerNr => FirstValue(r, global))
  }

  function FirstValue(r: nat, global: Word): Word {
    if r == 0 then FromInt(0) else if r == 1 then FromPtr(global) else UNDEFINED
  }

  /** The first k arguments of _cvm_setup_function_frame, from register 1 on. */
  ghost function WithArguments(regs: Regs, args: Obj, k: nat): (r: Result<Regs>)
    ensures r.Ok? ==> Kept(regs, r.value)
    ensures r.Fail? ==> r.reason != Trap
  {
    if k == 0 then Ok(regs)
    else
      var before :- WithArguments(regs, args, k - 1);
      var value :- Find(args, Wrap(k - 1));
      SetReg(before, k, value)
  }

  /** The entries in the first k slots of the closure, each to the register that is its key. */
  function WithCaptures(regs: Regs, nodes: seq<Node>, k: nat): (r: Result<Regs>)
    requires k <= |nodes|
    ensures r.Ok? ==> Kept(regs, r.value)
    ensures r.Fail? ==> r.reason != Trap
  {
    if k == 0 then Ok(regs)
    else
      var before :- WithCaptures(regs, nodes, k - 1);
      if IsLive(nodes[k - 1].value) then SetReg(before, nodes[k - 1].key, nodes[k - 1].value) else Ok(before)
  }

  /** _cvm_setup_function_frame: arguments, then captured values. */
  ghost function Setup(f: Function, regs: Regs, closure: Obj, args: Obj): (r: Result<Regs>)
    requires closure.Obj?
    ensures r.Ok? ==> Kept(regs, r.value)
    ensures r.Fail? ==> r.reason != Trap
  {
    var given :- WithArguments(regs, args, f.argumentsNr + 1);
    WithCaptures(given, closure.nodes, |closure.nodes|)
  }

  /** The frame of a call of this closure with these arguments. */
  ghost function NewFrame(p: Program, m: Memory, closure: Obj, args: Obj): (r: Result<Frame>)
    requires closure.Obj?
    ensures r.Ok? ==> r.value.callee < |p.functions| && FrameOk(p, r.value) && r.value.pc == 0
    ensures r.Fail? ==> r.reason != Trap
  {
    if closure.info.first >= |p.functions| || p.functions[closure.info.first].registerNr < 1 then Fail(BadAccess)
    else
      var f := p.functions[closure.info.first];
      var regs :- Setup(f, Blank(f, m.global), closure, args);
      Ok(Frame(closure.info.first, 0, regs))
  }

  /** What a call leaves: the memory, the caller's registers, and the frame of a closure. */
  datatype Called = Called(memory: Memory, regs: Regs, top: Option<Frame>)

  /** I_CALL */
  ghost function Call(p: Program, m: Memory, regs: Regs, inst: Inst): (r: Result<Called>)
    ensures r.Ok? ==> inst.DType? && Kept(regs, r.value.regs)
    ensures r.Ok? && r.value.top.Some? ==>
              FrameOk(p, r.value.top.value) && LooksThrough(m.heap, regs, r.value.regs) && r.value.memory == m
    ensures r.Ok? && r.value.top.None? ==>
              forall i :: 0 <= i < |regs| && i != inst.rd ==> Through(m.heap, regs[i], r.value.regs[i])
  {
    if inst.IType? then Fail(BadAccess)
    else
      var f :- GetHash(m, regs, inst.rs);
      var callee := m.heap[f.0];
      if callee.Obj? && callee.kind == HT_LIGHTFUNC then
        var arg :- GetReg(f.1, inst.rt);
        match p.native(m, callee.info.first, arg)
        case None => Fail(Trap)
        case Some((m', value)) =>
          var regs' :- SetReg(f.1, inst.rd, value);
          Ok(Called(m', regs', None))
      else if callee.Obj? && callee.kind == HT_CLOSURE then
        var args :- GetHash(m, f.1, inst.rt);
        LooksThroughTwice(m.heap, regs, f.1, args.1);
        var top :- NewFrame(p, m, callee, m.heap[args.0]);
        Ok(Called(m, args.1, Some(top)))
      else Fail(Trap)
  }

  /** I_RET in a callee: the value goes to the register of the instruction in
      front of the caller's pc. */
  function Resumed(p: Program, caller: Frame, value: Word): Result<Frame> {
    if caller.callee >= |p.functions| || !(0 < caller.pc <= |p.functions[caller.callee].code|) then Fail(BadAccess)
    else
      var regs :- SetReg(caller.regs, p.functions[caller.callee].code[caller.pc - 1].rd, value);
      Ok(caller.(regs := regs))
  }

  // ----- the machine -----

  /** A frame after a jump; there is no instruction in front of the code. */
  function Goto(m: Memory, frames: seq<Frame>, pc: int): State
    requires frames != []
  {
    if pc < 0 then Stopped(BadAccess) else Running(m, [frames[0].(pc := pc)] + frames[1..])
  }

  /** The instruction that the top frame stands at. */
  function InstAt(p: Program, f: Frame): Result<Inst> {
    if f.callee < |p.functions| && f.pc < |p.functions[f.callee].code| then Ok(p.functions[f.callee].code[f.pc])
    else Fail(BadAccess)
  }

  /** One turn of the loop of cvm_state_run. */
  ghost function Step(p: Program, s: State): State {
    if !s.Running? || s.frames == [] then s
    else
      var f, rest := s.frames[0], s.frames[1..];
      match InstAt(p, f)
      case Fail(reason) => Stopped(reason)
      case Ok(inst) =>
        match inst.op
        case I_HALT => Finished(s.memory, UNDEFINED)
        case I_CALL =>
          (match Call(p, s.memory, f.regs, inst)
           case Fail(reason) => Stopped(reason)
           case Ok(c) =>
             var caller := Frame(f.callee, f.pc + 1, c.regs);
             Running(c.memory, if c.top.Some? then [c.top.value, caller] + rest else [caller] + rest))
        case I_RET =>
          (match GetReg(f.regs, inst.rd)
           case Fail(reason) => Stopped(reason)
           case Ok(value) =>
             if rest == [] then Finished(s.memory, value)
             else
               match Resumed(p, rest[0], value)
               case Fail(reason) => Stopped(reason)
               case Ok(caller) => Running(s.memory, [caller] + rest[1..]))
        case I_J => if inst.IType? then Goto(s.memory, s.frames, inst.imm) else Stopped(BadAccess)
        case I_BNR =>
          if !inst.IType? || inst.rd >= |f.regs| then Stopped(BadAccess)
          else Goto(s.memory, s.frames, f.pc + 1 + if IsFalse(f.regs[inst.rd]) then inst.imm else 0)
        case _ =>
          match Execute(p, s.memory, f.regs, inst)
          case Fail(reason) => Stopped(reason)
          case Ok(e) => Running(e.0, [Frame(f.callee, f.pc + 1, e.1)] + rest)
  }

  ghost function Run(p: Program, s: State, n: nat): (last: State)
    ensures n == 0 ==> last == s
  {
    if n == 0 then s else Step(p, Run(p, s, n - 1))
  }

  // ----- what every frame keeps -----

  /** A frame has the registers of its function, and the first holds the number 0. */
  ghost predicate FrameOk(p: Program, f: Frame) {
    && f.callee < |p.functions|
    && |f.regs| == p.functions[f.callee].registerNr + 1
    && f.regs[0] == FromInt(0)
  }

  /** A frame below another one stands behind the call it waits for. */
  ghost predicate Waits(p: Program, f: Frame) {
    && f.callee < |p.functions| && 0 < f.pc <= |p.functions[f.callee].code|
    && p.functions[f.callee].code[f.pc - 1].op == I_CALL
  }

  ghost predicate FramesOk(p: Program, frames: seq<Frame>) {
    && frames != []
    && (forall i :: 0 <= i < |frames| ==> FrameOk(p, frames[i]))
    && (forall i :: 1 <= i < |frames| ==> Waits(p, frames[i]))
  }

  ghost predicate StateOk(p: Program, s: State) {
    s.Running? ==> FramesOk(p, s.frames)
  }

  /** No instruction changes the size of its frame or register 0, and of the other
      registers at most rd and, when it looks through redirects, rs. */
  lemma ExecuteKeeps(p: Program, m: Memory, regs: Regs, inst: Inst)
    requires Execute(p, m, regs, inst).Ok?
    ensures Confined(regs, Execute(p, m, regs, inst).value.1, inst.rd, if inst.DType? then inst.rs else inst.rd)
  {
    hide NewObject, GetObject, SetObject, NewClosure, Compute, Store;
  }

  lemma ResumedOk(p: Program, caller: Frame, value: Word)
    requires FrameOk(p, caller) && Resumed(p, caller, value).Ok?
    ensures FrameOk(p, Resumed(p, caller, value).value)
    ensures Waits(p, caller) ==> Waits(p, Resumed(p, caller, value).value)
  {
  }

  /** A new top frame on frames that were there. */
  lemma TopOk(p: Program, frames: seq<Frame>, top: Frame)
    requires FramesOk(p, frames) && FrameOk(p, top)
    ensures FramesOk(p, [top] + frames[1..])
  {
    hide FrameOk, Waits;
  }

  lemma PushOk(p: Program, frames: seq<Frame>, top: Frame)
    requires FramesOk(p, frames) && FrameOk(p, top) && Waits(p, frames[0])
    ensures FramesOk(p, [top] + frames)
  {
    hide FrameOk, Waits;
  }

  lemma PopOk(p: Program, frames: seq<Frame>)
    requires FramesOk(p, frames) && |frames| > 1
    ensures FramesOk(p, frames[1..])
  {
    hide FrameOk, Waits;
  }

  lemma NextOk(p: Program, f: Frame, regs: Regs)
    requires FrameOk(p, f) && InstAt(p, f).Ok? && Kept(f.regs, regs)
    ensures FrameOk(p, Frame(f.callee, f.pc + 1, regs))
    ensures InstAt(p, f).value.op == I_CALL ==> Waits(p, Frame(f.callee, f.pc + 1, regs))
  {
  }

  /** Every instruction, calls and returns included, keeps that the registers of
      every frame are those of its function with the number 0 in the first, and
      that every frame but the top one waits behind a call. */
  lemma StepKeeps(p: Program, s: State)
    requires StateOk(p, s)
    ensures StateOk(p, Step(p, s))
  {
    hide FrameOk, Call, Execute, Waits, Confined, Kept, Resumed, Goto;
    if s.Running? && InstAt(p, s.frames[0]).Ok? {
      var inst := InstAt(p, s.frames[0]).value;
      match inst.op {
        case I_HALT =>
        case I_CALL => CallKeeps(p, s);
        case I_RET => RetKeeps(p, s);
        case I_J => JumpKeeps(p, s);
        case I_BNR => JumpKeeps(p, s);
        case _ => ExecutedKeeps(p, s);
      }
    }
  }

  lemma ExecutedKeeps(p: Program, s: State)
    requires s.Running? && FramesOk(p, s.frames) && InstAt(p, s.frames[0]).Ok?
    ensures var f := s.frames[0];
            match Execute(p, s.memory, f.regs, InstAt(p, f).value)
            case Fail(_) => true
            case Ok(e) => FramesOk(p, [Frame(f.callee, f.pc + 1, e.1)] + s.frames[1..])
  {
    hide FrameOk, Execute, Waits, InstAt;
    var f := s.frames[0];
    var inst := InstAt(p, f).value;
    if Execute(p, s.memory, f.regs, inst).Ok? {
      var regs := Execute(p, s.memory, f.regs, inst).value.1;
      ExecuteKeeps(p, s.memory, f.regs, inst);
      NextOk(p, f, regs);
      TopOk(p, s.frames, Frame(f.callee, f.pc + 1, regs));
    }
  }

  lemma CallKeeps(p: Program, s: State)
    requires s.Running? && FramesOk(p, s.frames)
    requires InstAt(p, s.frames[0]).Ok? && InstAt(p, s.frames[0]).value.op == I_CALL
    ensures StateOk(p, Step(p, s))
  {
    hide FrameOk, Call, Execute, Waits, Kept, InstAt, FramesOk;
    FirstOk(p, s.frames);
    var f := s.frames[0];
    var r := Call(p, s.memory, f.regs, InstAt(p, f).value);
    if r.Ok? {
      var caller := Frame(f.callee, f.pc + 1, r.value.regs);
      NextOk(p, f, r.value.regs);
      TopOk(p, s.frames, caller);
      if r.value.top.Some? {
        PushOk(p, [caller] + s.frames[1..], r.value.top.value);
        assert [r.value.top.value] + ([caller] + s.frames[1..]) == [r.value.top.value, caller] + s.frames[1..];
      }
    }
  }

  lemma FirstOk(p: Program, frames: seq<Frame>)
    requires FramesOk(p, frames)
    ensures frames != [] && FrameOk(p, frames[0]) && (|frames| > 1 ==> FrameOk(p, frames[1]) && Waits(p, frames[1]))
  {
    hide FrameOk, Waits;
  }

  lemma RetKeeps(p: Program, s: State)
    requires s.Running? && FramesOk(p, s.frames)
    requires InstAt(p, s.frames[0]).Ok? && InstAt(p, s.frames[0]).value.op == I_RET
    ensures StateOk(p, Step(p, s))
  {
    hide FrameOk, Execute, Waits, Kept, InstAt, FramesOk, Resumed;
    FirstOk(p, s.frames);
    var value := GetReg(s.frames[0].regs, InstAt(p, s.frames[0]).value.rd);
    if value.Ok? && |s.frames| > 1 && Resumed(p, s.frames[1], value.value).Ok? {
      PopOk(p, s.frames);
      ResumedOk(p, s.frames[1], value.value);
      TopOk(p, s.frames[1..], Resumed(p, s.frames[1], value.value).value);
    }
  }

  lemma JumpKeeps(p: Program, s: State)
    requires s.Running? && FramesOk(p, s.frames)
    ensures forall pc :: StateOk(p, Goto(s.memory, s.frames, pc))
  {
    forall pc ensures StateOk(p, Goto(s.memory, s.frames, pc)) {
      if pc >= 0 {
        assert FrameOk(p, s.frames[0]);
        TopOk(p, s.frames, s.frames[0].(pc := pc));
      }
    }
  }

  /** Over whole runs. */
  lemma {:induction false} RunKeeps(p: Program, s: State, n: nat)
    requires StateOk(p, s)
    ensures StateOk(p, Run(p, s, n))
  {
    hide StateOk, Step;
    if n > 0 {
      RunKeeps(p, s, n - 1);
      StepKeeps(p, Run(p, s, n - 1));
    }
  }

  /** A collection between two instructions keeps it too. */
  lemma CollectionKeeps(p: Program, h: Heap, f: map<Word, Word>, frames: seq<Frame>, frames': seq<Frame>)
    requires FramesOk(p, frames) && FramesMoved(h, f, frames, frames')
    ensures FramesOk(p, frames')
  {
    hide Resolves, RootOf;
    forall i | 0 <= i < |frames'| ensures FrameOk(p, frames'[i]) && (i > 0 ==> Waits(p, frames'[i])) {
      assert FrameMoved(h, f, frames[i], frames'[i]);
      assert FrameOk(p, frames[i]);
      assert Sent(h, f, frames[i].regs[0], frames'[i].regs[0]);
      assert i > 0 ==> Waits(p, frames[i]);
    }
  }

  // ----- calls return where they came from -----

  /** These frames are at the bottom, with at least one more on top. */
  ghost predicate OnTop(s: State, bottom: seq<Frame>) {
    s.Running? && |s.frames| > |bottom| && s.frames[|s.frames| - |bottom|..] == bottom
  }

  /** The value that a state about to return will return. */
  ghost predicate Returns(p: Program, s: State, value: Word) {
    && s.Running? && s.frames != [] && InstAt(p, s.frames[0]).Ok?
    && InstAt(p, s.frames[0]).value.op == I_RET
    && GetReg(s.frames[0].regs, InstAt(p, s.frames[0]).value.rd) == Ok(value)
  }

  ghost predicate Halts(p: Program, s: State) {
    s.Running? && s.frames != [] && InstAt(p, s.frames[0]).Ok? && InstAt(p, s.frames[0]).value.op == I_HALT
  }

  /** Whatever happens to the top of a frame list leaves the bottom alone. */
  lemma BelowKept(frames: seq<Frame>, top: seq<Frame>, bottom: seq<Frame>)
    requires |frames| > |bottom| && frames[|frames| - |bottom|..] == bottom && top != []
    ensures (top + frames[1..])[|top + frames[1..]| - |bottom|..] == bottom
  {
    var k := |frames| - 1 - |bottom|;
    assert frames[1..][k..] == bottom;
    assert (top + frames[1..])[|top| + k..] == frames[1..][k..];
  }

  /** These frames were waiting, and the topmost of them has received the value. */
  ghost predicate CameDown(p: Program, s: State, value: Word, bottom: seq<Frame>, next: State)
    requires bottom != []
  {
    && Returns(p, s, value) && Resumed(p, bottom[0], value).Ok?
    && next.Running? && next.frames == [Resumed(p, bottom[0], value).value] + bottom[1..]
  }

  lemma RetStep(p: Program, s: State)
    requires s.Running? && |s.frames| > 1 && InstAt(p, s.frames[0]).Ok? && InstAt(p, s.frames[0]).value.op == I_RET
    ensures var r, next := GetReg(s.frames[0].regs, InstAt(p, s.frames[0]).value.rd), Step(p, s);
            if r.Fail? || Resumed(p, s.frames[1], r.value).Fail? then next.Stopped?
            else next == Running(s.memory, [Resumed(p, s.frames[1], r.value).value] + s.frames[2..])
  {
    hide Resumed, InstAt;
    assert s.frames[1..][1..] == s.frames[2..];
  }

  lemma RetBelow(p: Program, s: State, bottom: seq<Frame>)
    requires OnTop(s, bottom) && bottom != []
    requires InstAt(p, s.frames[0]).Ok? && InstAt(p, s.frames[0]).value.op == I_RET
    ensures var next := Step(p, s);
            || next.Stopped?
            || (|s.frames| > |bottom| + 1 && OnTop(next, bottom))
            || (|s.frames| == |bottom| + 1 && exists value :: CameDown(p, s, value, bottom, next))
  {
    hide Resumed, InstAt, Step;
    RetStep(p, s);
    var r := GetReg(s.frames[0].regs, InstAt(p, s.frames[0]).value.rd);
    if r.Ok? && Resumed(p, s.frames[1], r.value).Ok? {
      if |s.frames| > |bottom| + 1 {
        assert s.frames[1..][1..] == s.frames[2..];
        BelowKept(s.frames[1..], [Resumed(p, s.frames[1], r.value).value], bottom);
      } else {
        assert s.frames[1..] == bottom;
        assert s.frames[2..] == bottom[1..];
        assert CameDown(p, s, r.value, bottom, Step(p, s));
      }
    }
  }

  /** A step that neither returns nor halts replaces the top frame by one or two. */
  lemma StepShape(p: Program, s: State) returns (top: seq<Frame>)
    requires s.Running? && s.frames != []
    requires InstAt(p, s.frames[0]).Ok? ==> InstAt(p, s.frames[0]).value.op !in {I_RET, I_HALT}
    ensures top != [] && (Step(p, s).Stopped? || (Step(p, s).Running? && Step(p, s).frames == top + s.frames[1..]))
  {
    hide InstAt, Call, Execute, Resumed, IsFalse;
    top := s.frames[..1];
    if Step(p, s).Running? {
      var frames := Step(p, s).frames;
      top := frames[..|frames| - |s.frames| + 1];
    }
  }

  /** One step above waiting frames: it stays above them and leaves them alone, or
      it returns to them, or it halts the whole machine, or stops with an error. */
  lemma StepBelow(p: Program, s: State, bottom: seq<Frame>)
    requires OnTop(s, bottom) && bottom != []
    ensures var next := Step(p, s);
            && (next.Finished? ==> Halts(p, s) && next.value == UNDEFINED)
            && (next.Running? && |next.frames| > |bottom| ==> OnTop(next, bottom))
            && (next.Running? && |next.frames| <= |bottom| ==> exists value :: CameDown(p, s, value, bottom, next))
  {
    hide Step, Resumed, InstAt;
    if InstAt(p, s.frames[0]).Ok? && InstAt(p, s.frames[0]).value.op == I_RET {
      RetBelow(p, s, bottom);
    } else if Halts(p, s) {
      HaltStep(p, s);
    } else {
      var top := StepShape(p, s);
      BelowKept(s.frames, top, bottom);
    }
  }

  lemma HaltStep(p: Program, s: State)
    requires Halts(p, s)
    ensures Step(p, s) == Finished(s.memory, UNDEFINED)
  {
  }

  /** As long as a run stays above them, the bottom frames are as they were; when
      it comes down to them for the first time, the topmost of them has received
      the returned value and nothing else has changed; and before that it can
      only finish by halting. */
  lemma {:induction false} BottomUntouched(p: Program, s: State, bottom: seq<Frame>, n: nat)
    requires OnTop(s, bottom) && bottom != []
    requires forall k: nat :: k <= n ==> Run(p, s, k).Running? && |Run(p, s, k).frames| > |bottom|
    ensures OnTop(Run(p, s, n), bottom)
    ensures var next := Run(p, s, n + 1);
            && (next.Finished? ==> Halts(p, Run(p, s, n)) && next.value == UNDEFINED)
            && (next.Running? && |next.frames| <= |bottom| ==>
                 exists value :: CameDown(p, Run(p, s, n), value, bottom, next))
  {
    hide Step, Resumed, CameDown;
    if n > 0 {
      BottomUntouched(p, s, bottom, n - 1);
      StepBelow(p, Run(p, s, n - 1), bottom);
    }
    StepBelow(p, Run(p, s, n), bottom);
  }

  /** The top frame stands at a call of a closure. */
  ghost predicate Enters(p: Program, s: State) {
    && s.Running? && s.frames != [] && InstAt(p, s.frames[0]).Ok? && InstAt(p, s.frames[0]).value.op == I_CALL
    && var r := Call(p, s.memory, s.frames[0].regs, InstAt(p, s.frames[0]).value);
       r.Ok? && r.value.top.Some?
  }

  /** A call of a closure: the frames it leaves. */
  lemma CallStep(p: Program, s: State) returns (caller: Frame)
    requires Enters(p, s)
    ensures caller.callee == s.frames[0].callee && caller.pc == s.frames[0].pc + 1
    ensures LooksThrough(s.memory.heap, s.frames[0].regs, caller.regs)
    ensures OnTop(Step(p, s), [caller] + s.frames[1..]) && |Step(p, s).frames| == |s.frames| + 1
  {
    hide InstAt, Call, LooksThrough;
    var r := Call(p, s.memory, s.frames[0].regs, InstAt(p, s.frames[0]).value);
    caller := Frame(s.frames[0].callee, s.frames[0].pc + 1, r.value.regs);
    assert Step(p, s).frames[1..] == [caller] + s.frames[1..];
  }

  /** The caller after its callee returned. */
  lemma CallerAfter(p: Program, h: Heap, f: Frame, regs: Regs, value: Word)
    requires InstAt(p, f).Ok? && LooksThrough(h, f.regs, regs)
    requires Resumed(p, Frame(f.callee, f.pc + 1, regs), value).Ok?
    ensures var rd, after := InstAt(p, f).value.rd, Resumed(p, Frame(f.callee, f.pc + 1, regs), value).value;
            && after.callee == f.callee && after.pc == f.pc + 1 && |after.regs| == |f.regs| && rd < |f.regs|
            && (forall r :: 0 <= r < |f.regs| && (r != rd || rd == 0) ==> Through(h, f.regs[r], after.regs[r]))
            && (rd != 0 ==> after.regs[rd] == value)
  {
    hide Through;
  }

  /** A matching return resumes behind its call: however deep the callee went, when
      the frame list is first as long again as before the call, the frames below the
      caller are untouched, the caller goes on at the next instruction, its result
      register holds the returned value, and every other register is as it was, up
      to redirects that the call looked through. */
  lemma CallReturns(p: Program, s: State, n: nat) returns (value: Word)
    requires Enters(p, s)
    requires forall k: nat :: 1 <= k <= n + 1 ==> Run(p, s, k).Running? && |Run(p, s, k).frames| > |s.frames|
    requires Run(p, s, n + 2).Running? && |Run(p, s, n + 2).frames| <= |s.frames|
    ensures Returns(p, Run(p, s, n + 1), value)
    ensures var f, rd, frames := s.frames[0], InstAt(p, s.frames[0]).value.rd, Run(p, s, n + 2).frames;
            && |frames| == |s.frames| && frames[1..] == s.frames[1..]
            && frames[0].callee == f.callee && frames[0].pc == f.pc + 1 && |frames[0].regs| == |f.regs|
            && rd < |f.regs| && (rd != 0 ==> frames[0].regs[rd] == value)
            && (forall r :: 0 <= r < |f.regs| && (r != rd || rd == 0) ==>
                  Through(s.memory.heap, f.regs[r], frames[0].regs[r]))
  {
    hide Step, Returns, Resumed, InstAt, Call, LooksThrough, Through;
    var caller := CallStep(p, s);
    var bottom := [caller] + s.frames[1..];
    RunOne(p, s);
    var s1 := Step(p, s);
    forall k: nat ensures Run(p, s1, k) == Run(p, s, k + 1) {
      RunShift(p, s, k);
    }
    BottomUntouched(p, s1, bottom, n);
    value :| CameDown(p, Run(p, s1, n), value, bottom, Run(p, s1, n + 1));
    assert bottom[1..] == s.frames[1..];
    CallerAfter(p, s.memory.heap, s.frames[0], caller.regs, value);
  }

  lemma RunOne(p: Program, s: State)
    ensures Run(p, s, 1) == Step(p, s)
  {
    assert Run(p, s, 0) == s;
  }

  lemma {:induction false} RunShift(p: Program, s: State, k: nat)
    ensures Run(p, Step(p, s), k) == Run(p, s, k + 1)
  {
    hide Step;
    if k == 0 {
      RunOne(p, s);
    } else {
      RunShift(p, s, k - 1);
    }
  }
}
