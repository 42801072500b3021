/** The whole way of a straight-line program: from its text, through one pass of
  the compiler and the layout, to the machine. */
module MainFunctions {
  import opened Values
  import opened Insts
  import opened Layout
  import opened Arithmetic
  import opened Scopes
  import opened Codes
  import opened Tables
  import opened BasicBlocks
  import opened IrBuilder
  import opened Programs
  import opened Grammar
  import opened Parsers
  import opened Compilation
  import opened Machines

  lemma MainIsRepresented(bb: BasicBlock)
    requires bb.brReg == 0 && bb.thenBb == null && bb.elseBb == null
    ensures Represents([bb], MainGraph(bb.instList))
  {
  }

  lemma MainSize(insts: seq<Inst>)
    ensures Entry(MainGraph(insts), 1) == |insts| + 2
  {
    var g := MainGraph(insts);
    assert Items(g, 0) == [];
  }

  /** parse_get_main_function, when nothing but straight-line code was compiled. */
  method GetMainFunction(state: ParseState) returns (registerNr: nat, insts: seq<Inst>)
    requires state.Valid() && state.builder.basicBlocks == [state.currentBb]
    requires state.currentBb.entryPoint == NO_ENTRY && state.currentBb.thenBb == null
    requires Straight(state.currentBb.instList) && |state.currentBb.instList| + 4 < INT_LIMIT
    modifies state.builder`basicBlocks, state.currentBb`entryPoint
    ensures registerNr == state.builder.registerNr + 1
    ensures insts == Flatten(MainGraph(state.currentBb.instList))
  {
    hide Flatten, Represents, WellLinked, Entry, Straight, BasicBlock.Dominated;
    registerNr := state.builder.registerNr + 1;
    ghost var g := MainGraph(state.currentBb.instList);
    MainIsRepresented(state.currentBb);
    MainIsLinked(state.currentBb.instList);
    MainSize(state.currentBb.instList);
    insts := state.builder.Destroy(g);
  }

  /** parse and parse_get_main_function on the tokens of a whole program: either it
      is rejected, or the result is the laid-out code of the program. */
  method CompileText(tokens: seq<Token>, global: Name) returns (main: Option<(nat, seq<Inst>)>)
    requires match ProgramOutcome(tokens, Start(map[global := 1], 1))
             case None => true
             case Some(last) => |last.code.insts| + 4 < INT_LIMIT
    ensures match ProgramOutcome(tokens, Start(map[global := 1], 1))
            case None => main == None
            case Some(last) => main == Some((last.code.registerNr + 1, Flatten(MainGraph(last.code.insts))))
  {
    hide ProgramOutcome, BasicBlock.Dominated, BasicBlock.Open, BasicBlock.Constants, BasicBlock.Numbers;
    hide Flatten, Straight;
    var state := new ParseState(tokens, global);
    var ok := state.Parse();
    if !ok {
      return None;
    }
    OutcomeIsStraight(tokens, global);
    assert state.currentBb.instList == state.Now().code.insts;
    var registerNr, insts := GetMainFunction(state);
    main := Some((registerNr, insts));
  }

  lemma OutcomeIsStraight(tokens: seq<Token>, global: Name)
    requires ProgramOutcome(tokens, Start(map[global := 1], 1)).Some?
    ensures Straight(ProgramOutcome(tokens, Start(map[global := 1], 1)).value.code.insts)
  {
    hide CompileStmts, ParseStmts;
    CompiledIsStraight(ParseStmts(tokens).value.0, map[global := 1], 1);
  }

  /** From text to machine: what the compiler makes of the text of a program does,
      in a frame that holds its registers, what the program means; and a text is
      rejected only if the program fails anyway. */
  lemma TextRuns(program: seq<Stmt>, global: Name, frame: RegFile) returns (k: nat)
    requires AllWritable(program)
    requires match ProgramOutcome(RenderStmts(program), Start(map[global := 1], 1))
             case None => HasRoom(1 + StmtsCost(program), frame)
             case Some(last) => HasRoom(last.code.registerNr, frame)
    ensures match ProgramOutcome(RenderStmts(program), Start(map[global := 1], 1))
            case None => ExecStmts(program, Arguments(map[global := 1], frame)) == None
            case Some(last) =>
              var code := Flatten(MainGraph(last.code.insts));
              match ExecStmts(program, Arguments(map[global := 1], frame))
              case None => FlatRun(CVM, code, At(0, frame), k) == Done(Trapped)
              case Some(env) =>
                && FlatRun(CVM, code, At(0, frame), k) == Done(Returned(UNDEFINED))
                && var end := FlatRun(CVM, code, At(0, frame), |last.code.insts|);
                   && end.At?
                   && forall x :: match Lookup(last.scopes, x)
                      case None => Find(env, x) == None
                      case Some(reg) => reg < |end.s| && Find(env, x) == Some(Decode(end.s[reg]))
  {
    hide ProgramOutcome, CompileStmts, ExecStmts, Lookup, Find, Decode, FlatRun, Flatten, Arguments;
    hide AllWritable, RenderStmts;
    var args := map[global := 1];
    TextCompiles(program, Start(args, 1));
    k := 0;
    if CompileStmts(program, Start(args, 1)).Some? {
      k := ProgramsRun(program, args, 1, frame);
    } else {
      RejectedFails(program, args, 1, frame);
    }
  }
}
