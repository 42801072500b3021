/** The loop of cvm_state_run on the objects it works on: every turn is the step
  that the frames' properties are proved for. */
module Interpreters {
  import opened Values
  import opened Insts
  import opened Probe
  import opened HashTables
  import opened HashRuns
  import opened Heaps
  import opened Marking
  import opened Redirects
  import opened Aliasing
  import opened Machines
  import opened Arithmetic
  import opened YoungGens
  import opened Vms
  import opened Closures
  import opened Safety
  import Codes
  import F = Frames

  /** The source's behaviour is defined, comes to an end and needs no collection. */
  predicate Regular<T>(r: F.Result<T>) {
    r.Ok? || r.reason == F.Trap
  }

  /** Native functions allocate in the block that they are given. */
  ghost predicate NativesFit(program: F.Program) {
    forall m: F.Memory, ext, info, arg :: InSpace(m.base, m.used, m.heap, ext) && program.native(m, info, arg).Some? ==>
      NativeFits(m, program.native(m, info, arg).value.0)
  }

  ghost predicate NativeFits(m: F.Memory, m': F.Memory) {
    m'.base == m.base && m'.global == m.global && exists ext :: InSpace(m'.base, m'.used, m'.heap, ext)
  }

  /** The scenes with other registers in the running frame. */
  function WithRegs(scenes: seq<Scene>, regs: seq<Word>): seq<Scene>
    requires |scenes| > 0 && |scenes[0].frames| > 0
  {
    scenes[0 := scenes[0].(frames := scenes[0].frames[0 := scenes[0].frames[0].(regs := regs)])]
  }

  lemma WithRegsSame(scenes: seq<Scene>)
    requires |scenes| > 0 && |scenes[0].frames| > 0
    ensures WithRegs(scenes, scenes[0].frames[0].regs) == scenes
  {
    assert scenes[0].frames[0 := scenes[0].frames[0]] == scenes[0].frames;
  }

  lemma WithRegsTwice(scenes: seq<Scene>, a: seq<Word>, b: seq<Word>)
    requires |scenes| > 0 && |scenes[0].frames| > 0
    ensures WithRegs(WithRegs(scenes, a), b) == WithRegs(scenes, b)
  {
    var frames, frame := scenes[0].frames, scenes[0].frames[0];
    assert frames[0 := frame.(regs := a)][0 := frame.(regs := b)] == frames[0 := frame.(regs := b)];
  }

  /** The write of the heap's module is the one of the machine. */
  lemma WriteIsSetField(m: F.Memory, root: Word, key: Word, value: Word, b: Word, m': F.Memory)
    requires root in m.heap && F.SetField(m, root, key, value).Ok? && m.base + YOUNG_GEN_BLOCK_SIZE <= WORD_RANGE
    requires Writable(m.heap[root], key)
    requires m'.heap == SetHeap(m.heap, root, key, value, b) && m'.base == m.base && m'.global == m.global
    requires if Outgrows(m.heap[root], key, value)
             then b == m.base + m.used && m'.used == m.used + TotalSize(2 * |m.heap[root].nodes|)
             else m'.used == m.used
    ensures F.SetField(m, root, key, value) == F.Ok(m')
  {
    hide Writable, SetHeap, Outgrows, F.SetField;
    F.SetFieldParts(m, root, key, value);
    if !Outgrows(m.heap[root], key, value) {
      SetHeapStays(m.heap, root, key, value);
    }
  }

  lemma SpaceBound(base: Word, used: nat, objects: Heap, ext: map<Word, nat>)
    requires InSpace(base, used, objects, ext)
    ensures base + YOUNG_GEN_BLOCK_SIZE <= WORD_RANGE
  {
  }

  /** The scenes with other frames in the running one. */
  function WithFrames(scenes: seq<Scene>, frames: seq<Frame>): seq<Scene>
    requires |scenes| > 0
  {
    scenes[0 := scenes[0].(frames := frames)]
  }

  lemma WithRegsOnTop(scenes: seq<Scene>, top: Frame, rest: seq<Frame>, regs: seq<Word>)
    requires |scenes| > 0
    ensures WithRegs(WithFrames(scenes, [top] + rest), regs) == WithFrames(scenes, [top.(regs := regs)] + rest)
  {
    assert ([top] + rest)[0 := top.(regs := regs)] == [top.(regs := regs)] + rest;
  }

  function Advanced(frames: seq<Frame>): seq<Frame>
    requires frames != []
  {
    [frames[0].(pc := frames[0].pc + 1)] + frames[1..]
  }

  /** One more entry in the closure's table. */
  lemma CapturedStep(nodes: seq<Node>, captures: seq<F.Capture>, regs: seq<Word>, k: nat)
    requires WellFormed(nodes) && k < |captures| && F.Captured(nodes, captures, regs, |captures|).Ok?
    ensures F.Captured(nodes, captures, regs, k).Ok? && captures[k].outer < |regs|
    ensures var before, key := F.Captured(nodes, captures, regs, k).value, Wrap(captures[k].inner);
            && Ends(before, key)
            && F.Captured(nodes, captures, regs, k + 1) == F.Ok(SetIn(before, key, regs[captures[k].outer]))
    decreases |captures| - k
  {
    hide WellFormed, SetIn, Ends;
    if k + 1 < |captures| {
      CapturedStep(nodes, captures, regs, k + 1);
    }
    assert F.Captured(nodes, captures, regs, k + 1).Ok?;
  }

  lemma CapturedNone(nodes: seq<Node>, captures: seq<F.Capture>, regs: seq<Word>)
    requires WellFormed(nodes)
    ensures F.Captured(nodes, captures, regs, 0) == F.Ok(nodes)
  {
  }

  lemma ClosureSet(imm: int, nodes: seq<Node>, key: Word, value: Word)
    requires WellFormed(nodes) && Ends(nodes, key)
    ensures HasTable(ClosureOf(imm, nodes)) && WellFormed(SetIn(nodes, key, value))
    ensures SetObj(ClosureOf(imm, nodes), key, value) == ClosureOf(imm, SetIn(nodes, key, value))
  {
    SetIsUpdate(nodes, key, value);
    hide WellFormed, SetIn, Contents, Ends;
  }

  class Interpreter {
    const program: F.Program
    const vm: VMState

    constructor (program: F.Program, vm: VMState)
      ensures this.program == program && this.vm == vm
    {
      this.program, this.vm := program, vm;
    }

    ghost predicate Valid()
      reads vm, vm.youngGen, vm.youngGen.current
    {
      && |vm.scenes| > 0 && |vm.scenes[0].frames| > 0
      && InSpace(vm.youngGen.current.base, vm.youngGen.current.used, vm.Memory(), vm.youngGen.current.extents)
    }

    ghost function Memory(): F.Memory
      reads vm, vm.youngGen, vm.youngGen.current
    {
      F.Memory(vm.Memory(), vm.youngGen.current.base, vm.youngGen.current.used, vm.global)
    }

    function Regs(): seq<Word>
      requires |vm.scenes| > 0 && |vm.scenes[0].frames| > 0
      reads vm
    {
      vm.scenes[0].frames[0].regs
    }

    ghost function Now(): F.State
      requires |vm.scenes| > 0
      reads vm, vm.youngGen, vm.youngGen.current
    {
      F.Running(Memory(), vm.scenes[0].frames)
    }

    /** The memory and the running frame are as this effect says. */
    ghost predicate Did(scenes: seq<Scene>, e: (F.Memory, seq<Word>))
      requires |scenes| > 0 && |scenes[0].frames| > 0
      reads vm, vm.youngGen, vm.youngGen.current
    {
      Valid() && Memory() == e.0 && vm.scenes == WithRegs(scenes, e.1)
    }

    /** cvm_set_register */
    method Set(rd: nat, value: Word)
      requires Valid() && rd < |Regs()|
      modifies vm`scenes
      ensures F.SetReg(old(Regs()), rd, value).Ok?
      ensures Did(old(vm.scenes), (Memory(), F.SetReg(old(Regs()), rd, value).value))
    {
      hide InSpace;
      WithRegsSame(vm.scenes);
      vm.SetRegister(rd, value);
    }

    /** _cvm_get_hash_in_register */
    method GetHash(reg: nat) returns (hash: F.Result<Word>)
      requires Valid() && Regular(F.GetHash(Memory(), Regs(), reg))
      modifies vm`scenes
      ensures match F.GetHash(old(Memory()), old(Regs()), reg)
              case Fail(reason) => hash == F.Fail(reason)
              case Ok((root, regs)) => hash == F.Ok(root) && Did(old(vm.scenes), (old(Memory()), regs))
    {
      hide InSpace, Resolves, RootOf;
      WithRegsSame(vm.scenes);
      var h := vm.GetHashInRegister(reg);
      hash := if h.Some? then F.Ok(h.value) else F.Fail(F.Trap);
    }

    /** I_NEW_OBJ and I_NEW_ARR */
    method NewObject(rd: nat, kind: HashType)
      requires Valid() && F.NewObject(Memory(), Regs(), rd, kind).Ok?
      modifies vm`scenes, vm.youngGen.current
      ensures Did(old(vm.scenes), F.NewObject(old(Memory()), old(Regs()), rd, kind).value)
    {
      hide InSpace, NormalizeCapacity, IsCapacity, EmptyNodes;
      var address := vm.youngGen.NewHash(HASH_MIN_CAPACITY, kind);
      Set(rd, FromPtr(address));
    }

    /** I_GET_OBJ */
    method GetObject(rd: nat, rs: nat, rt: nat) returns (stop: Option<F.Reason>)
      requires Valid() && Regular(F.GetObject(Memory(), Regs(), rd, rs, rt))
      modifies vm`scenes
      ensures match F.GetObject(old(Memory()), old(Regs()), rd, rs, rt)
              case Fail(reason) => stop == Some(reason)
              case Ok(e) => stop == None && Did(old(vm.scenes), e)
    {
      hide InSpace, HasTable, Ends, FindIn, F.GetHash, F.KeyOf;
      var h := GetHash(rs);
      if h.Fail? {
        return Some(F.Trap);
      }
      var key := F.KeyOf(vm.youngGen.current.objects[h.value], vm.GetRegister(rt));
      if key.Fail? {
        return Some(F.Trap);
      }
      var value := FindInObject(vm.youngGen.current.objects[h.value], key.value);
      ghost var regs := Regs();
      Set(rd, value);
      WithRegsTwice(old(vm.scenes), regs, Regs());
      stop := None;
    }

    /** I_SET_OBJ */
    method SetObject(rd: nat, rs: nat, rt: nat) returns (stop: Option<F.Reason>)
      requires Valid() && Regular(F.SetObject(Memory(), Regs(), rd, rs, rt))
      modifies vm`scenes, vm.youngGen.current
      ensures match F.SetObject(old(Memory()), old(Regs()), rd, rs, rt)
              case Fail(reason) => stop == Some(reason)
              case Ok(e) => stop == None && Did(old(vm.scenes), e)
    {
      hide InSpace, F.GetHash, F.KeyOf, F.SetField, SetHeap, Outgrows, Writable;
      var h := GetHash(rd);
      if h.Fail? {
        return Some(F.Trap);
      }
      var key := F.KeyOf(vm.youngGen.current.objects[h.value], vm.GetRegister(rt));
      if key.Fail? {
        return Some(F.Trap);
      }
      ghost var m := Memory();
      var value := vm.GetRegister(rs);
      SpaceBound(m.base, m.used, m.heap, vm.youngGen.current.extents);
      F.SetFieldParts(m, h.value, key.value, value);
      ghost var b := vm.Write(h.value, key.value, value);
      WriteIsSetField(m, h.value, key.value, value, b, Memory());
      stop := None;
    }

    /** One turn of the loop of I_NEW_CLS that fills the closure. */
    method CaptureOne(address: Word, imm: int, capture: F.Capture, ghost nodes: seq<Node>)
      requires Valid() && address in vm.Memory() && WellFormed(nodes) && vm.Memory()[address] == ClosureOf(imm, nodes)
      requires capture.outer < |Regs()| && Ends(nodes, Wrap(capture.inner))
      modifies vm.youngGen.current
      ensures Valid() && vm.youngGen.current.used == old(vm.youngGen.current.used)
      ensures WellFormed(SetIn(nodes, Wrap(capture.inner), Regs()[capture.outer]))
      ensures vm.Memory() ==
              old(vm.Memory())[address := ClosureOf(imm, SetIn(nodes, Wrap(capture.inner), Regs()[capture.outer]))]
    {
      hide InSpace, WellFormed, Ends, HasTable, SetObj, SetIn, Contents;
      var key, value := Wrap(capture.inner), vm.GetRegister(capture.outer);
      ClosureSet(imm, nodes, key, value);
      var o := SetInObject(vm.youngGen.current.objects[address], key, value);
      ghost var current := vm.youngGen.current;
      SetSize(nodes, key, value);
      SameSizeSpace(current.base, current.used, current.objects, current.extents, address, o);
      vm.youngGen.current.objects := vm.youngGen.current.objects[address := o];
    }

    /** The closure that I_NEW_CLS starts from. */
    method EmptyClosure(captures: nat, imm: int) returns (address: Word)
      requires Valid() && 0 < captures <= SIGN_BIT && IsCapacity(NormalizeCapacity(captures))
      requires vm.youngGen.current.used + TotalSize(NormalizeCapacity(captures)) <= YOUNG_GEN_BLOCK_SIZE
      modifies vm.youngGen.current
      ensures Valid() && address == vm.youngGen.current.base + old(vm.youngGen.current.used)
      ensures vm.youngGen.current.used == old(vm.youngGen.current.used) + TotalSize(NormalizeCapacity(captures))
      ensures WellFormed(EmptyNodes(NormalizeCapacity(captures)))
      ensures vm.Memory() == old(vm.Memory())[address := ClosureOf(imm, EmptyNodes(NormalizeCapacity(captures)))]
    {
      hide InSpace, WellFormed, NormalizeCapacity, IsCapacity, EmptyNodes, Contents;
      EmptyIsEmpty(NormalizeCapacity(captures));
      ghost var h := vm.Memory();
      address := vm.youngGen.NewHash(captures, HT_CLOSURE);
      var o := vm.youngGen.current.objects[address].(info := Info(Wrap(imm), 0));
      ghost var current := vm.youngGen.current;
      SameSizeSpace(current.base, current.used, current.objects, current.extents, address, o);
      vm.youngGen.current.objects := vm.youngGen.current.objects[address := o];
      assert vm.Memory() == h[address := o];
    }

    /** I_NEW_CLS */
    method NewClosure(rd: nat, imm: int)
      requires Valid() && F.NewClosure(program, Memory(), Regs(), rd, imm).Ok?
      modifies vm`scenes, vm.youngGen.current
      ensures Did(old(vm.scenes), F.NewClosure(program, old(Memory()), old(Regs()), rd, imm).value)
    {
      hide InSpace, WellFormed, NormalizeCapacity, IsCapacity, EmptyNodes, Contents, F.NewClosure, F.Captured;
      hide ClosureOf, Ends, SetIn;
      NewClosureParts(program, Memory(), Regs(), rd, imm);
      var captures := program.functions[imm].captures;
      ghost var m, empty := Memory(), EmptyNodes(NormalizeCapacity(|captures|));
      var address := EmptyClosure(|captures|, imm);
      Set(rd, FromPtr(address));
      ghost var scenes, used := vm.scenes, vm.youngGen.current.used;
      ghost var nodes := empty;
      CapturedNone(empty, captures, Regs());
      var i := 0;
      while i < |captures|
        invariant i <= |captures| && Valid() && vm.scenes == scenes && vm.youngGen.current.used == used
        invariant WellFormed(nodes) && F.Captured(empty, captures, Regs(), i) == F.Ok(nodes)
        invariant vm.Memory() == m.heap[address := ClosureOf(imm, nodes)]
      {
        CapturedStep(empty, captures, Regs(), i);
        CaptureOne(address, imm, captures[i], nodes);
        nodes := SetIn(nodes, Wrap(captures[i].inner), Regs()[captures[i].outer]);
        i := i + 1;
      }
    }

    /** li, arithmetic, lnot, mov and undefined. */
    method Compute(inst: Inst) returns (stop: Option<F.Reason>)
      requires Valid() && Regular(F.Compute(Memory(), Regs(), inst))
      modifies vm`scenes
      ensures match F.Compute(old(Memory()), old(Regs()), inst)
              case Fail(reason) => stop == Some(reason)
              case Ok(e) => stop == None && Did(old(vm.scenes), e)
    {
      hide InSpace, ExecOp, ExecNot, FromInt;
      var value: Option<Word> := None;
      match inst {
        case IType(op, _, imm) =>
          value := if op == I_LI then Some(FromInt(imm)) else None;
        case DType(op, _, rs, rt) =>
          var l, r := vm.GetRegister(rs), vm.GetRegister(rt);
          match op {
            case I_LNOT => value := ExecNot(l);
            case I_MOV => value := Some(l);
            case I_UNDEFINED => value := Some(UNDEFINED);
            case _ =>
              var operator := Codes.OperandOf(op);
              value := if operator.Some? then ExecOp(operator.value, l, r) else None;
          }
      }
      if value == None {
        return Some(F.Trap);
      }
      Set(inst.rd, value.value);
      stop := None;
    }

    /** The instructions that stay in their frame. */
    method Execute(inst: Inst) returns (stop: Option<F.Reason>)
      requires Valid() && Regular(F.Execute(program, Memory(), Regs(), inst))
      modifies vm`scenes, vm.youngGen.current
      ensures match F.Execute(program, old(Memory()), old(Regs()), inst)
              case Fail(reason) => stop == Some(reason)
              case Ok(e) => stop == None && Did(old(vm.scenes), e)
    {
      hide InSpace, F.NewObject, F.GetObject, F.SetObject, F.NewClosure, F.Compute;
      stop := None;
      match inst {
        case IType(op, rd, imm) =>
          match op {
            case I_LSTR => Set(rd, FromStr(Wrap(imm)));
            case I_NEW_CLS => NewClosure(rd, imm);
            case _ => stop := Compute(inst);
          }
        case DType(op, rd, rs, rt) =>
          match op {
            case I_NULL => Set(rd, NULL);
            case I_NEW_OBJ => NewObject(rd, HT_OBJECT);
            case I_NEW_ARR => NewObject(rd, HT_ARRAY);
            case I_GET_OBJ => stop := GetObject(rd, rs, rt);
            case I_SET_OBJ => stop := SetObject(rd, rs, rt);
            case _ => stop := Compute(inst);
          }
      }
    }

    /** cvm_state_push_frame */
    method PushFrame(callee: nat)
      requires Valid() && callee < |program.functions| && program.functions[callee].registerNr >= 1
      modifies vm`scenes
      ensures Valid() && Memory() == old(Memory())
      ensures vm.scenes == WithFrames(old(vm.scenes),
                [Frame(callee, 0, F.Blank(program.functions[callee], vm.global))] + old(vm.scenes)[0].frames)
      ensures vm.scenes != [] && vm.scenes[0].frames != []
      ensures var top := vm.scenes[0].frames[0];
              && top.callee == callee && top.pc == 0 && |top.regs| == program.functions[callee].registerNr + 1
              && top.regs[0] == 1 && top.regs[1] == vm.global
              && forall r :: 2 <= r < |top.regs| ==> top.regs[r] == 3
    {
      hide InSpace;
      var registerNr := program.functions[callee].registerNr;
      var regs: seq<Word> := [FromInt(0), FromPtr(vm.global)];
      while |regs| <= registerNr
        invariant 2 <= |regs| <= registerNr + 1
        invariant regs == F.Blank(program.functions[callee], vm.global)[..|regs|]
      {
        regs := regs + [UNDEFINED];
      }
      assert regs == F.Blank(program.functions[callee], vm.global);
      vm.scenes := vm.scenes[0 := vm.scenes[0].(frames := [Frame(callee, 0, regs)] + vm.scenes[0].frames)];
    }

    /** _cvm_setup_function_frame, in the frame that was pushed for the closure. */
    method SetupFrame(closure: Word, args: Word, f: F.Function)
      requires Valid() && closure in vm.Memory() && vm.Memory()[closure].Obj? && args in vm.Memory()
      requires F.Setup(f, Regs(), vm.Memory()[closure], vm.Memory()[args]).Ok?
      modifies vm`scenes
      ensures Did(old(vm.scenes), (old(Memory()), F.Setup(f, old(Regs()), vm.Memory()[closure], vm.Memory()[args]).value))
    {
      hide InSpace, HasTable, Ends, FindIn, F.WithArguments, F.WithCaptures, F.Find;
      ghost var scenes, blank, o, m := vm.scenes, Regs(), vm.Memory()[args], Memory();
      ghost var nodes := vm.Memory()[closure].nodes;
      WithRegsSame(scenes);
      SetupStart(blank, o, nodes);
      var i := 0;
      while i <= f.argumentsNr
        invariant i <= f.argumentsNr + 1 && Valid() && Did(scenes, (m, Regs()))
        invariant F.WithArguments(blank, o, i) == F.Ok(Regs())
      {
        ArgumentStep(blank, o, i, f.argumentsNr + 1);
        var value := FindInObject(vm.youngGen.current.objects[args], Wrap(i));
        ghost var regs := Regs();
        Set(i + 1, value);
        WithRegsTwice(scenes, regs, Regs());
        i := i + 1;
      }
      ghost var given := Regs();
      SetupStart(given, o, nodes);
      var k := 0;
      while k < |vm.youngGen.current.objects[closure].nodes|
        invariant k <= |nodes| && Valid() && Did(scenes, (m, Regs()))
        invariant F.WithCaptures(given, nodes, k) == F.Ok(Regs())
      {
        var node := vm.youngGen.current.objects[closure].nodes[k];
        CaptureStep(given, nodes, k);
        if !IsUndefined(node.value) && !IsNull(node.value) {
          ghost var regs := Regs();
          Set(node.key, node.value);
          WithRegsTwice(scenes, regs, Regs());
        }
        k := k + 1;
      }
    }

    /** The call of a native function. */
    method CallNative(func: Word, rd: nat, arg: Word) returns (stop: Option<F.Reason>)
      requires Valid() && NativesFit(program)
      requires program.native(Memory(), func, arg).Some? ==> rd < |Regs()|
      modifies vm`scenes, vm.youngGen.current
      ensures match program.native(old(Memory()), func, arg)
              case None => stop == Some(F.Trap)
              case Some((m, value)) =>
                stop == None && F.SetReg(old(Regs()), rd, value).Ok?
                && Did(old(vm.scenes), (m, F.SetReg(old(Regs()), rd, value).value))
    {
      hide InSpace;
      var current := vm.youngGen.current;
      var r := program.native(F.Memory(current.objects, current.base, current.used, vm.global), func, arg);
      if r == None {
        return Some(F.Trap);
      }
      ghost var ext :| InSpace(current.base, r.value.0.used, r.value.0.heap, ext);
      current.objects, current.used, current.extents := r.value.0.heap, r.value.0.used, ext;
      Set(rd, r.value.1);
      stop := None;
    }

    /** I_CALL */
    method Call(inst: Inst) returns (stop: Option<F.Reason>)
      requires Valid() && NativesFit(program) && Regular(F.Call(program, Memory(), Regs(), inst))
      modifies vm`scenes, vm.youngGen.current
      ensures match F.Call(program, old(Memory()), old(Regs()), inst)
              case Fail(reason) => stop == Some(reason)
              case Ok(c) =>
                && stop == None && Valid() && Memory() == c.memory
                && var after := WithRegs(old(vm.scenes), c.regs);
                   vm.scenes == if c.top.Some? then WithFrames(after, [c.top.value] + after[0].frames) else after
    {
      hide InSpace, F.GetHash, F.Setup, NativesFit, NativeFits;
      var f := GetHash(inst.rs);
      if f.Fail? {
        return Some(F.Trap);
      }
      ghost var regs := Regs();
      var callee := vm.youngGen.current.objects[f.value];
      if callee.Obj? && callee.kind == HT_LIGHTFUNC {
        stop := CallNative(callee.info.first, inst.rd, vm.GetRegister(inst.rt));
        if stop == None {
          WithRegsTwice(old(vm.scenes), regs, Regs());
        }
        return;
      }
      if !(callee.Obj? && callee.kind == HT_CLOSURE) {
        return Some(F.Trap);
      }
      var args := GetHash(inst.rt);
      if args.Fail? {
        return Some(F.Trap);
      }
      WithRegsTwice(old(vm.scenes), regs, Regs());
      EnterClosure(f.value, args.value);
      stop := None;
    }

    /** The frame of a closure that is called. */
    method EnterClosure(closure: Word, args: Word)
      requires Valid() && closure in vm.Memory() && vm.Memory()[closure].Obj? && args in vm.Memory()
      requires F.NewFrame(program, Memory(), vm.Memory()[closure], vm.Memory()[args]).Ok?
      modifies vm`scenes
      ensures Valid() && Memory() == old(Memory())
      ensures vm.scenes == WithFrames(old(vm.scenes),
                [F.NewFrame(program, Memory(), vm.Memory()[closure], vm.Memory()[args]).value] + old(vm.scenes)[0].frames)
    {
      hide InSpace, F.Setup, F.Blank;
      var callee := vm.youngGen.current.objects[closure].info.first;
      PushFrame(callee);
      ghost var blank := vm.scenes[0].frames[0];
      SetupFrame(closure, args, program.functions[callee]);
      WithRegsOnTop(old(vm.scenes), blank, old(vm.scenes)[0].frames, Regs());
    }

    /** The frame's pc is moved on before the instruction is executed. */
    method Fetch() returns (inst: Inst)
      requires Valid() && F.InstAt(program, vm.scenes[0].frames[0]).Ok?
      modifies vm`scenes
      ensures Valid() && inst == F.InstAt(program, old(vm.scenes)[0].frames[0]).value
      ensures vm.scenes == WithFrames(old(vm.scenes), Advanced(old(vm.scenes)[0].frames))
    {
      hide InSpace;
      var frames := vm.scenes[0].frames;
      inst := program.functions[frames[0].callee].code[frames[0].pc];
      vm.scenes := vm.scenes[0 := vm.scenes[0].(frames := [frames[0].(pc := frames[0].pc + 1)] + frames[1..])];
    }

    /** I_RET: None while there is a caller to go on. */
    method Return(inst: Inst) returns (result: Option<Word>)
      requires Valid() && inst.rd < |Regs()|
      requires |vm.scenes[0].frames| > 1 ==> F.Resumed(program, vm.scenes[0].frames[1], Regs()[inst.rd]).Ok?
      modifies vm`scenes
      ensures Memory() == old(Memory())
      ensures |old(vm.scenes)[0].frames| == 1 ==> result == Some(old(Regs())[inst.rd])
      ensures |old(vm.scenes)[0].frames| > 1 ==>
                && result == None && Valid()
                && vm.scenes == WithFrames(old(vm.scenes),
                     [F.Resumed(program, old(vm.scenes)[0].frames[1], old(Regs())[inst.rd]).value]
                     + old(vm.scenes)[0].frames[2..])
    {
      hide InSpace;
      var value := vm.GetRegister(inst.rd);
      vm.scenes := vm.scenes[0 := vm.scenes[0].(frames := vm.scenes[0].frames[1..])];
      if |vm.scenes[0].frames| == 0 {
        return Some(value);
      }
      var caller := vm.scenes[0].frames[0];
      assert vm.scenes[0].frames == [caller] + old(vm.scenes)[0].frames[2..];
      Set(program.functions[caller.callee].code[caller.pc - 1].rd, value);
      WithRegsOnTop(old(vm.scenes), caller, old(vm.scenes)[0].frames[2..], Regs());
      result := None;
    }

    /** The target of a jump. */
    method SetPc(pc: nat)
      requires Valid()
      modifies vm`scenes
      ensures Valid() && Memory() == old(Memory())
      ensures vm.scenes == WithFrames(old(vm.scenes),
                             [old(vm.scenes)[0].frames[0].(pc := pc)] + old(vm.scenes)[0].frames[1..])
    {
      hide InSpace;
      var frames := vm.scenes[0].frames;
      vm.scenes := vm.scenes[0 := vm.scenes[0].(frames := [frames[0].(pc := pc)] + frames[1..])];
    }

    /** Where a turn that started with these scenes has got to. */
    ghost predicate Turned(end: Option<F.State>, next: F.State, scenes: seq<Scene>)
      requires |scenes| > 0
      reads vm, vm.youngGen, vm.youngGen.current
    {
      match next
      case Running(m, frames) => end == None && Valid() && Memory() == m && vm.scenes == WithFrames(scenes, frames)
      case last => end == Some(last)
    }

    /** The instruction has been fetched from the top frame of s. */
    ghost predicate Fetched(inst: Inst, s: F.State, scenes: seq<Scene>)
      requires |scenes| > 0
      reads vm, vm.youngGen, vm.youngGen.current
    {
      && Valid() && s.Running? && s.frames != [] && Memory() == s.memory
      && vm.scenes == WithFrames(scenes, Advanced(s.frames)) && F.InstAt(program, s.frames[0]) == F.Ok(inst)
    }

    method CallTurn(inst: Inst, ghost s: F.State, ghost scenes: seq<Scene>) returns (end: Option<F.State>)
      requires |scenes| > 0 && Fetched(inst, s, scenes) && inst.op == I_CALL && NativesFit(program)
      requires Regular(F.Call(program, s.memory, s.frames[0].regs, inst))
      modifies vm`scenes, vm.youngGen.current
      ensures Turned(end, F.Step(program, s), scenes)
    {
      hide InSpace, F.Call, F.InstAt, NativesFit;
      var stop := Call(inst);
      if stop.Some? {
        return Some(F.Stopped(stop.value));
      }
      ghost var f := s.frames[0];
      ghost var c := F.Call(program, s.memory, f.regs, inst).value;
      ghost var caller, rest := Frame(f.callee, f.pc + 1, c.regs), s.frames[1..];
      WithRegsOnTop(scenes, f.(pc := f.pc + 1), rest, c.regs);
      if c.top.Some? {
        assert [c.top.value] + ([caller] + rest) == [c.top.value, caller] + rest;
      }
      end := None;
    }

    method ReturnTurn(inst: Inst, ghost s: F.State, ghost scenes: seq<Scene>) returns (end: Option<F.State>)
      requires |scenes| > 0 && Fetched(inst, s, scenes) && inst.op == I_RET && inst.rd < |s.frames[0].regs|
      requires |s.frames| > 1 ==> F.Resumed(program, s.frames[1], s.frames[0].regs[inst.rd]).Ok?
      modifies vm`scenes
      ensures Turned(end, F.Step(program, s), scenes)
    {
      hide InSpace, F.InstAt, F.Resumed;
      var result := Return(inst);
      end := if result.Some? then Some(Final(result.value)) else None;
      if |s.frames| > 1 {
        assert Advanced(s.frames)[2..] == s.frames[1..][1..];
      }
    }

    method JumpTurn(inst: Inst, ghost s: F.State, ghost scenes: seq<Scene>) returns (end: Option<F.State>)
      requires |scenes| > 0 && Fetched(inst, s, scenes) && (inst.op == I_J || inst.op == I_BNR)
      requires !F.Step(program, s).Stopped?
      modifies vm`scenes
      ensures Turned(end, F.Step(program, s), scenes)
    {
      hide InSpace, F.InstAt, IsFalse;
      end := None;
      if inst.op == I_J {
        SetPc(inst.imm);
      } else if IsFalse(vm.GetRegister(inst.rd)) {
        SetPc(vm.scenes[0].frames[0].pc + inst.imm);
      }
    }

    method ExecuteTurn(inst: Inst, ghost s: F.State, ghost scenes: seq<Scene>) returns (end: Option<F.State>)
      requires |scenes| > 0 && Fetched(inst, s, scenes) && inst.op !in {I_HALT, I_CALL, I_RET, I_J, I_BNR}
      requires Regular(F.Execute(program, s.memory, s.frames[0].regs, inst))
      modifies vm`scenes, vm.youngGen.current
      ensures Turned(end, F.Step(program, s), scenes)
    {
      hide InSpace, F.Execute, F.InstAt;
      var stop := Execute(inst);
      if stop.Some? {
        return Some(F.Stopped(stop.value));
      }
      ghost var f := s.frames[0];
      WithRegsOnTop(scenes, f.(pc := f.pc + 1), s.frames[1..], F.Execute(program, s.memory, f.regs, inst).value.1);
      end := None;
    }

    /** One turn of cvm_state_run. */
    method Turn() returns (end: Option<F.State>)
      requires Valid() && NativesFit(program)
      requires F.Step(program, Now()).Stopped? ==> F.Step(program, Now()).reason == F.Trap
      modifies vm`scenes, vm.youngGen.current
      ensures Turned(end, F.Step(program, old(Now())), old(vm.scenes))
    {
      hide InSpace, F.Step, F.Call, F.Execute, F.InstAt, F.Resumed, NativesFit, IsFalse, Turned;
      ghost var s, scenes := Now(), vm.scenes;
      StepInst(program, s);
      var inst := Fetch();
      match inst.op {
        case I_HALT =>
          end := Some(Final(UNDEFINED));
          HaltTurn(end, s, scenes);
        case I_CALL => end := CallTurn(inst, s, scenes);
        case I_RET => end := ReturnTurn(inst, s, scenes);
        case I_J => end := JumpTurn(inst, s, scenes);
        case I_BNR => end := JumpTurn(inst, s, scenes);
        case _ => end := ExecuteTurn(inst, s, scenes);
      }
    }

    /** The loop of cvm_state_run, for n turns or until it ends.  Afterwards the
        garbage can be collected again. */
    method Run(n: nat) returns (end: Option<F.State>)
      requires Valid() && NativesFit(program)
      requires forall k: nat :: k <= n && F.Run(program, Now(), k).Stopped? ==> F.Run(program, Now(), k).reason == F.Trap
      modifies vm`scenes, vm.youngGen.current
      ensures Turned(end, F.Run(program, old(Now()), n), old(vm.scenes))
      ensures old(vm.Valid()) && NativesSafe(program) && end == None ==> vm.Valid()
    {
      hide InSpace, F.Step, F.Run, NativesFit, NativesSafe, HeapLeads, ScenesIn, LeadsIn;
      ghost var s, scenes, m, ext := Now(), vm.scenes, Memory(), vm.youngGen.current.extents;
      ghost var collectable := vm.Valid();
      end := None;
      RunNone(program, s);
      SameFrames(scenes);
      var i := 0;
      while i < n && end == None
        invariant i <= n && (end == None ==> Valid())
        invariant Turned(end, F.Run(program, s, i), scenes) && (end.Some? ==> !F.Run(program, s, i).Running?)
      {
        RunNext(program, s, i);
        ghost var frames := vm.scenes[0].frames;
        end := Turn();
        if end == None {
          FramesTwice(scenes, frames, vm.scenes[0].frames);
        }
        i := i + 1;
      }
      if end.Some? {
        RunEnded(program, s, i, n);
      } else if collectable && NativesSafe(program) {
        RunIsCollectable(program, m, ext, scenes, n);
      }
    }

    lemma HaltTurn(end: Option<F.State>, s: F.State, scenes: seq<Scene>)
      requires |scenes| > 0 && s.Running? && s.frames != [] && F.InstAt(program, s.frames[0]).Ok?
      requires F.InstAt(program, s.frames[0]).value.op == I_HALT && end == Some(F.Finished(s.memory, UNDEFINED))
      ensures Turned(end, F.Step(program, s), scenes)
    {
    }

    /** The result of cvm_state_run. */
    function Final(value: Word): F.State
      reads vm, vm.youngGen, vm.youngGen.current
    {
      var current := vm.youngGen.current;
      F.Finished(F.Memory(current.objects, current.base, current.used, vm.global), value)
    }
  }

  lemma SetSize(nodes: seq<Node>, key: Word, value: Word)
    requires WellFormed(nodes) && Ends(nodes, key)
    ensures |SetIn(nodes, key, value)| == |nodes|
  {
  }

  lemma SetupStart(regs: seq<Word>, args: Obj, nodes: seq<Node>)
    ensures F.WithArguments(regs, args, 0) == F.Ok(regs) && F.WithCaptures(regs, nodes, 0) == F.Ok(regs)
  {
  }

  lemma ArgumentStep(regs: seq<Word>, args: Obj, k: nat, n: nat)
    requires k < n && F.WithArguments(regs, args, n).Ok?
    ensures HasTable(args) && Ends(args.nodes, Wrap(k))
    ensures F.WithArguments(regs, args, k).Ok? && k + 1 < |regs|
    ensures F.WithArguments(regs, args, k + 1)
         == F.SetReg(F.WithArguments(regs, args, k).value, k + 1, FindIn(args.nodes, Wrap(k)))
    ensures F.WithArguments(regs, args, k + 1).Ok?
    decreases n - k
  {
    hide HasTable, Ends, FindIn;
    if k + 1 < n {
      ArgumentStep(regs, args, k + 1, n);
    }
    assert F.WithArguments(regs, args, k + 1).Ok?;
  }

  lemma CaptureStep(regs: seq<Word>, nodes: seq<Node>, k: nat)
    requires k < |nodes| && F.WithCaptures(regs, nodes, |nodes|).Ok?
    ensures F.WithCaptures(regs, nodes, k).Ok? && F.WithCaptures(regs, nodes, k + 1).Ok?
    ensures var before := F.WithCaptures(regs, nodes, k).value;
            F.WithCaptures(regs, nodes, k + 1) ==
            if IsLive(nodes[k].value) then F.SetReg(before, nodes[k].key, nodes[k].value) else F.Ok(before)
    decreases |nodes| - k
  {
    if k + 1 < |nodes| {
      CaptureStep(regs, nodes, k + 1);
    }
    assert F.WithCaptures(regs, nodes, k + 1).Ok?;
  }

  lemma StepInst(p: F.Program, s: F.State)
    requires s.Running? && s.frames != [] && (F.Step(p, s).Stopped? ==> F.Step(p, s).reason == F.Trap)
    ensures F.InstAt(p, s.frames[0]).Ok?
    ensures var f, inst := s.frames[0], F.InstAt(p, s.frames[0]).value;
            && (inst.op == I_J || inst.op == I_BNR ==> !F.Step(p, s).Stopped?)
            && (inst.op == I_RET ==> inst.rd < |f.regs|)
            && (inst.op == I_RET && |s.frames| > 1 ==> F.Resumed(p, s.frames[1], f.regs[inst.rd]).Ok?)
            && (inst.op == I_CALL ==> Regular(F.Call(p, s.memory, f.regs, inst)))
            && (inst.op !in {I_HALT, I_CALL, I_RET, I_J, I_BNR} ==> Regular(F.Execute(p, s.memory, f.regs, inst)))
  {
    hide F.Call, F.Execute, IsFalse;
  }

  lemma RunNone(p: F.Program, s: F.State)
    ensures F.Run(p, s, 0) == s
  {
  }

  lemma RunNext(p: F.Program, s: F.State, i: nat)
    ensures F.Run(p, s, i + 1) == F.Step(p, F.Run(p, s, i))
  {
    hide F.Step;
  }

  /** What has ended stays. */
  lemma {:induction false} RunEnded(p: F.Program, s: F.State, i: nat, n: nat)
    requires !F.Run(p, s, i).Running? && i <= n
    ensures F.Run(p, s, n) == F.Run(p, s, i)
    decreases n
  {
    hide F.Call, F.Execute;
    if i < n {
      RunEnded(p, s, i, n - 1);
    }
  }

  lemma SameFrames(scenes: seq<Scene>)
    requires |scenes| > 0
    ensures WithFrames(scenes, scenes[0].frames) == scenes
  {
  }

  lemma FramesTwice(scenes: seq<Scene>, a: seq<Frame>, b: seq<Frame>)
    requires |scenes| > 0
    ensures WithFrames(WithFrames(scenes, a), b) == WithFrames(scenes, b)
  {
  }
}
