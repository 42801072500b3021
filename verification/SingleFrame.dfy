/** On code without calls and without the heap, the machine with frames is the
  register machine that the layout and the compiler are proved against. */
module SingleFrame {
  import opened Values
  import opened Insts
  import opened Layout
  import opened Arithmetic
  import opened Scopes
  import opened Codes
  import opened Programs
  import opened Compilation
  import opened Machines
  import opened Vms
  import F = Frames

  /** Straight-line instructions, returns, jumps, and branches on a register of the frame. */
  predicate Simple(code: seq<Inst>, size: nat) {
    forall i :: 0 <= i < |code| ==>
      var inst := code[i];
      || IsStraight(inst.op) || inst.op == I_RET || inst.op == I_J
      || (inst.op == I_BNR && inst.IType? && inst.rd < size)
  }

  /** The same place in the other machine; a place in front of the code is an error there. */
  ghost function Placed(m: F.Memory, g: nat, c: Config<RegFile, Machines.Result>): F.State {
    match c
    case At(pc, s) => if pc < 0 then F.Stopped(F.BadAccess) else F.Running(m, [Frame(g, pc, s)])
    case Done(Returned(v)) => F.Finished(m, v)
    case Done(Trapped) => F.Stopped(F.Trap)
    case Stuck => F.Stopped(F.BadAccess)
  }

  /** The same state, whatever the error. */
  ghost predicate Same(a: F.State, b: F.State) {
    a == b || (a.Stopped? && b.Stopped?)
  }

  lemma ExecuteIsStep(p: F.Program, m: F.Memory, s: RegFile, inst: Inst)
    requires IsStraight(inst.op)
    ensures match Codes.Step(s, inst)
            case None => F.Execute(p, m, s, inst).Fail?
            case Some(s') => F.Execute(p, m, s, inst) == F.Ok((m, s'))
  {
    hide ExecOp, ExecNot, FromInt;
  }

  /** An instruction of the code that the frame stands at. */
  ghost predicate StandsAt(p: F.Program, g: nat, code: seq<Inst>, pc: int, inst: Inst) {
    g < |p.functions| && p.functions[g].code == code && 0 <= pc < |code| && code[pc] == inst
  }

  lemma StraightStep(p: F.Program, m: F.Memory, g: nat, code: seq<Inst>, pc: int, s: RegFile, inst: Inst)
    requires StandsAt(p, g, code, pc, inst) && IsStraight(inst.op)
    ensures Same(F.Step(p, F.Running(m, [Frame(g, pc, s)])), Placed(m, g, FlatStep(CVM, code, At(pc, s))))
    ensures FlatStep(CVM, code, At(pc, s)).At? ==> |FlatStep(CVM, code, At(pc, s)).s| == |s|
  {
    hide F.Execute, Codes.Step;
    ExecuteIsStep(p, m, s, inst);
    assert CVM.exec(s, inst) == Exec(s, inst);
  }

  lemma ReturnStep(p: F.Program, m: F.Memory, g: nat, code: seq<Inst>, pc: int, s: RegFile, inst: Inst)
    requires StandsAt(p, g, code, pc, inst) && inst.op == I_RET
    ensures Same(F.Step(p, F.Running(m, [Frame(g, pc, s)])), Placed(m, g, FlatStep(CVM, code, At(pc, s))))
    ensures !FlatStep(CVM, code, At(pc, s)).At?
  {
    hide F.Execute, Codes.Step;
    assert CVM.exec(s, inst) == Exec(s, inst);
  }

  lemma JumpStep(p: F.Program, m: F.Memory, g: nat, code: seq<Inst>, pc: int, s: RegFile, inst: Inst)
    requires StandsAt(p, g, code, pc, inst) && (inst.op == I_J || (inst.op == I_BNR && inst.IType? && inst.rd < |s|))
    ensures Same(F.Step(p, F.Running(m, [Frame(g, pc, s)])), Placed(m, g, FlatStep(CVM, code, At(pc, s))))
    ensures FlatStep(CVM, code, At(pc, s)).At? ==> |FlatStep(CVM, code, At(pc, s)).s| == |s|
  {
    hide F.Execute, IsFalse;
    assert CVM.exec(s, inst) == Exec(s, inst);
    assert CVM.falsy(s, inst.rd) == Falsy(s, inst.rd);
  }

  /** One turn. */
  lemma FlatStepIsStep(p: F.Program, m: F.Memory, g: nat, code: seq<Inst>, c: Config<RegFile, Machines.Result>)
    requires g < |p.functions| && p.functions[g].code == code
    requires c.At? ==> Simple(code, |c.s|)
    ensures Same(F.Step(p, Placed(m, g, c)), Placed(m, g, FlatStep(CVM, code, c)))
    ensures c.At? && FlatStep(CVM, code, c).At? ==> |FlatStep(CVM, code, c).s| == |c.s|
  {
    if c.At? && 0 <= c.pc < |code| {
      hide F.Step, FlatStep, IsStraight;
      var inst := code[c.pc];
      if IsStraight(inst.op) {
        StraightStep(p, m, g, code, c.pc, c.s, inst);
      } else if inst.op == I_RET {
        ReturnStep(p, m, g, code, c.pc, c.s, inst);
      } else {
        JumpStep(p, m, g, code, c.pc, c.s, inst);
      }
    } else {
      hide F.Execute, F.Call, IsFalse;
    }
  }

  lemma {:induction false} FlatRunMore(code: seq<Inst>, c: Config<RegFile, Machines.Result>, n: nat)
    ensures FlatRun(CVM, code, c, n + 1) == FlatStep(CVM, code, FlatRun(CVM, code, c, n))
    decreases n
  {
    hide FlatStep;
    FlatRunAdd(CVM, code, c, n, 1);
    FlatRunOne(CVM, code, FlatRun(CVM, code, c, n));
  }

  lemma SameStep(p: F.Program, a: F.State, b: F.State)
    requires Same(a, b)
    ensures Same(F.Step(p, a), F.Step(p, b))
  {
    hide F.Call, F.Execute;
  }

  /** Whole runs. */
  lemma {:induction false} FlatRunIsRun(p: F.Program, m: F.Memory, g: nat, code: seq<Inst>,
          c: Config<RegFile, Machines.Result>, n: nat)
    requires g < |p.functions| && p.functions[g].code == code && c.At? && Simple(code, |c.s|)
    ensures Same(F.Run(p, Placed(m, g, c), n), Placed(m, g, FlatRun(CVM, code, c, n)))
    ensures FlatRun(CVM, code, c, n).At? ==> |FlatRun(CVM, code, c, n).s| == |c.s|
    decreases n
  {
    hide F.Step, FlatStep, Simple, Placed;
    if n > 0 {
      FlatRunIsRun(p, m, g, code, c, n - 1);
      FlatRunMore(code, c, n - 1);
      var before := FlatRun(CVM, code, c, n - 1);
      if before.At? {
        FlatStepIsStep(p, m, g, code, before);
      } else {
        EndStays(p, m, g, code, before);
      }
      SameStep(p, F.Run(p, Placed(m, g, c), n - 1), Placed(m, g, before));
    }
  }

  lemma EndStays(p: F.Program, m: F.Memory, g: nat, code: seq<Inst>, c: Config<RegFile, Machines.Result>)
    requires !c.At?
    ensures FlatStep(CVM, code, c) == c && F.Step(p, Placed(m, g, c)) == Placed(m, g, c)
  {
    hide F.Call, F.Execute;
  }

  /** The code of a straight-line program is of this kind. */
  lemma MainIsSimple(insts: seq<Inst>, size: nat)
    requires Straight(insts)
    ensures Simple(Flatten(MainGraph(insts)), size)
  {
    hide IsStraight, Items;
    var g := MainGraph(insts);
    var items := Items(g, 1);
    MainItems(insts);
    forall i | 0 <= i < |Flatten(g)|
      ensures Resolve(g, items[i], i).op == I_RET || IsStraight(Resolve(g, items[i], i).op)
    {
      UndefinedIsStraight();
    }
  }

  lemma UndefinedIsStraight()
    ensures IsStraight(I_UNDEFINED)
  {
  }

  lemma MainItems(insts: seq<Inst>)
    ensures var items := Items(MainGraph(insts), 1);
            |items| == |insts| + 2
            && (forall i :: 0 <= i < |insts| ==> items[i] == Plain(insts[i]))
            && items[|insts|] == Plain(DType(I_UNDEFINED, 1, 0, 0)) && items[|insts| + 1] == Plain(DType(I_RET, 1, 0, 0))
  {
    assert Items(MainGraph(insts), 0) == [];
  }

  /** From a program to cvm_state_run: its code, as the main function of any
      machine, ends in an error if the program fails, and returns undefined otherwise. */
  lemma ProgramRunsInFrame(program: seq<Stmt>, args: map<Name, nat>, n: nat, p: F.Program, m: F.Memory, g: nat,
        frame: RegFile)
    returns (k: nat)
    requires n < |frame| && forall x :: x in args ==> args[x] <= n
    requires CompileStmts(program, Start(args, n)).Some?
    requires var last := CompileStmts(program, Start(args, n)).value.code;
             && HasRoom(last.registerNr, frame)
             && g < |p.functions| && p.functions[g].code == Flatten(MainGraph(last.insts))
    ensures var last := F.Run(p, F.Running(m, [Frame(g, 0, frame)]), k);
            if ExecStmts(program, Arguments(args, frame)) == None then last.Stopped? else last == F.Finished(m, UNDEFINED)
  {
    hide CompileStmts, ExecStmts, Flatten, FlatRun, Simple, F.Run, Arguments, Straight, Find, Lookup, Decode;
    var insts := CompileStmts(program, Start(args, n)).value.code.insts;
    k := ProgramsRun(program, args, n, frame);
    CompiledIsStraight(program, args, n);
    MainIsSimple(insts, |frame|);
    FlatRunIsRun(p, m, g, Flatten(MainGraph(insts)), At(0, frame), k);
  }
}
