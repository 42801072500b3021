/** cvm_state_run on one frame of numbers: the instance of the abstract machine
  of the layout on which compiled code runs. */
module Machines {
  import opened Values
  import opened Insts
  import opened Layout
  import opened Arithmetic
  import opened Scopes
  import opened Codes
  import opened Programs
  import opened Compilation

  /** A frame: register 0 holds the number 0, register 1 is there. */
  type RegFile = r: Regs | |r| > 1 && r[0] == 1 witness [1, 0]

  datatype Result = Returned(value: Word) | Trapped

  /** I_RET leaves the frame; everything else goes on or traps. */
  function Exec(s: RegFile, inst: Inst): Outcome<RegFile, Result> {
    if inst.op == I_RET then Exit(if inst.rd < |s| then Returned(s[inst.rd]) else Trapped)
    else
      match Codes.Step(s, inst)
      case None => Exit(Trapped)
      case Some(s') => var next: RegFile := s'; Next(next)
  }

  predicate IsFalse(v: Word) {
    IsUndefined(v) || IsNull(v) || (IsInt(v) && ToInt(v) == 0)
  }

  /** The test of I_BNR. */
  function Falsy(s: RegFile, reg: nat): bool {
    reg >= |s| || IsFalse(s[reg])
  }

  const CVM: Machine<RegFile, Result> := Machine(Exec, Falsy, _ => Returned(UNDEFINED))

  /** It is one of the machines that the layout is proved for. */
  lemma CvmIsVm()
    ensures IsVm(CVM)
  {
    forall s: RegFile ensures CVM.falsy(s, 0) {
      assert CVM.falsy(s, 0) == Falsy(s, 0);
    }
    forall s: RegFile ensures RunBody(CVM, RETURN_UNDEFINED, s) == Exit(CVM.undefined(s)) {
      var s': RegFile := s[1 := UNDEFINED];
      assert Exec(s, RETURN_UNDEFINED[0]) == Next(s');
      assert RETURN_UNDEFINED[1..][0] == RETURN_UNDEFINED[1];
      assert Exec(s', RETURN_UNDEFINED[1]) == Exit(Returned(UNDEFINED));
      assert RunBody(CVM, RETURN_UNDEFINED[1..], s') == Exit(Returned(UNDEFINED));
    }
  }

  lemma {:induction false} RunCons(insts: seq<Inst>, s: Regs)
    requires insts != []
    ensures Run(insts, s) == match Codes.Step(s, insts[0]) case None => None case Some(s') => Run(insts[1..], s')
    decreases |insts|
  {
    hide Codes.Step;
    var last := |insts| - 1;
    if last > 0 {
      RunCons(insts[..last], s);
      assert insts[..last][1..] == insts[1..][..last - 1];
    } else {
      assert insts[..last] == [];
    }
  }

  /** Straight-line code runs on the machine as it does on its registers. */
  lemma {:induction false} BodyIsRun(insts: seq<Inst>, s: RegFile)
    requires Straight(insts)
    ensures match Run(insts, s)
            case None => RunBody(CVM, insts, s) == Exit(Trapped)
            case Some(s') => RunBody(CVM, insts, s).Next? && RunBody(CVM, insts, s).s == s'
    decreases |insts|
  {
    hide Codes.Step;
    if insts != [] {
      RunCons(insts, s);
      assert CVM.exec(s, insts[0]) == Exec(s, insts[0]);
      assert insts[0] in insts;
      if Codes.Step(s, insts[0]).Some? {
        BodyIsRun(insts[1..], Codes.Step(s, insts[0]).value);
      }
    }
  }

  /** The main function of a straight-line program: one block without successor. */
  function MainGraph(insts: seq<Inst>): Graph {
    [Block.Block(insts, 0, None, None)]
  }

  lemma MainIsLinked(insts: seq<Inst>)
    requires Straight(insts)
    ensures WellLinked(MainGraph(insts))
    ensures Entry(MainGraph(insts), 0) == 0
  {
  }

  lemma FlattenHasCode(g: Graph)
    ensures HasCode(g, Flatten(g))
  {
  }

  /** Laid out, the code of a block without successor traps or runs and then
      returns undefined. */
  lemma MainRuns(insts: seq<Inst>, s: RegFile) returns (k: nat)
    requires Straight(insts)
    ensures var code := Flatten(MainGraph(insts));
            match Run(insts, s)
            case None => FlatRun(CVM, code, At(0, s), k) == Done(Trapped)
            case Some(end) =>
              && FlatRun(CVM, code, At(0, s), |insts|).At?
              && FlatRun(CVM, code, At(0, s), |insts|).s == end
              && FlatRun(CVM, code, At(0, s), k) == Done(Returned(UNDEFINED))
  {
    hide Run, Items, Tail, Entry, Holds, HasCode, IsVm, Straight;
    var g := MainGraph(insts);
    var code := Flatten(g);
    MainIsLinked(insts);
    FlattenHasCode(g);
    BlockInPlace(g, code, 0);
    BodyIsRun(insts, s);
    var n := BodyRuns(CVM, code, 0, insts, s);
    CvmIsVm();
    k := BlockRuns(CVM, g, code, 0, s);
    MainStep(insts, s);
  }

  lemma MainStep(insts: seq<Inst>, s: RegFile)
    ensures match RunBody(CVM, insts, s)
            case Exit(r) => GraphStep(CVM, MainGraph(insts), At(0, s)) == Done(r)
            case Next(_) => GraphStep(CVM, MainGraph(insts), At(0, s)) == Done(Returned(UNDEFINED))
  {
    if RunBody(CVM, insts, s).Next? {
      var s' := RunBody(CVM, insts, s).s;
      assert CVM.falsy(s', 0) == Falsy(s', 0);
    }
  }

  /** From a program to the machine: compiled, laid out and executed from the
      first instruction, a program that fails ends in a trap, and any other ends
      with every variable in its register and then returns undefined. */
  lemma ProgramsRun(program: seq<Stmt>, args: map<Name, nat>, n: nat, frame: RegFile) returns (k: nat)
    requires n < |frame| && forall x :: x in args ==> args[x] <= n
    requires CompileStmts(program, Start(args, n)).Some?
    requires var last := CompileStmts(program, Start(args, n)).value.code;
             last.registerNr < |frame| && last.registerNr < REGISTER_LIMIT
    ensures var last := CompileStmts(program, Start(args, n)).value;
            var code := Flatten(MainGraph(last.code.insts));
            match ExecStmts(program, Arguments(args, frame))
            case None => FlatRun(CVM, code, At(0, frame), k) == Done(Trapped)
            case Some(env) =>
              && FlatRun(CVM, code, At(0, frame), k) == Done(Returned(UNDEFINED))
              && var end := FlatRun(CVM, code, At(0, frame), |last.code.insts|);
                 && end.At?
                 && forall x :: match Lookup(last.scopes, x)
                    case None => Find(env, x) == None
                    case Some(reg) => reg < |end.s| && Find(env, x) == Some(Decode(end.s[reg]))
  {
    hide CompileStmts, ExecStmts, Run, Lookup, Find, Decode, FlatRun, Flatten, Arguments, Straight;
    CompiledRuns(program, args, n, frame);
    CompiledIsStraight(program, args, n);
    k := MainRuns(CompileStmts(program, Start(args, n)).value.code.insts, frame);
  }

  lemma CompiledIsStraight(program: seq<Stmt>, args: map<Name, nat>, n: nat)
    requires CompileStmts(program, Start(args, n)).Some?
    ensures Straight(CompileStmts(program, Start(args, n)).value.code.insts)
  {
    hide CompileStmts;
    StmtsGrow(program, Start(args, n));
  }
}
