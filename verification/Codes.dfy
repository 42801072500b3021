/** Straight-line code of one basic block: the li, arithmetic, lnot, mov and
  undefined members of src/ir_builder.c, and what the VM does with their output. */
module Codes {
  import opened Values
  import opened Insts
  import opened Arithmetic

  /** Register fields of an instruction have 16 bits. */
  const REGISTER_LIMIT := 0x1_0000

  function Field(reg: nat): nat {
    reg % REGISTER_LIMIT
  }

  /** What a block knows at compile time: its instructions, the registers used
      so far, the registers that hold constants, the registers whose number is known. */
  datatype Code = Code(insts: seq<Inst>, registerNr: nat, constants: map<Word, nat>, numbers: map<nat, Word>)

  datatype Compiled = Compiled(code: Code, reg: nat)

  /** The entry block of a function with n registers taken. */
  function NewCode(n: nat): Code {
    Code([], n, map[FromInt(0) := 0], map[0 := FromInt(0)])
  }

  /** What is known in a new block dominated by one that ends with c: the same,
      and that register 0 holds the constant 0. */
  function Below(c: Code): Code {
    Code([], c.registerNr, c.constants[FromInt(0) := 0], c.numbers[0 := FromInt(0)])
  }

  function OpCode(op: BinOp): Op {
    match op
    case Add => I_ADD
    case Sub => I_SUB
    case Mul => I_MUL
    case Div => I_DIV
    case Mod => I_MOD
    case Eq => I_SEQ
    case Lt => I_SLT
    case Le => I_SLE
  }

  // ----- the builder -----

  /** Append an instruction that writes the next free register. */
  function Emit(c: Code, op: Op, rs: nat, rt: nat): Compiled {
    var ret := c.registerNr + 1;
    Compiled(c.(insts := c.insts + [DType(op, Field(ret), Field(rs), Field(rt))], registerNr := ret), ret)
  }

  /** ir_builder_li: a constant that is in a register already is shared. */
  function Li(c: Code, imm: int): Compiled {
    var key := FromInt(imm);
    if key in c.constants then Compiled(c, c.constants[key])
    else
      var ret := c.registerNr + 1;
      Compiled(Code(c.insts + [IType(I_LI, Field(ret), imm)], ret, c.constants[key := ret], c.numbers[ret := key]), ret)
  }

  predicate IsKnown(c: Code, reg: nat) {
    reg in c.numbers && IsInt(c.numbers[reg])
  }

  /** ir_builder_add to ir_builder_sle: folded when both operands are known.
      None is the trap of a division by zero in the compiler. */
  function Arith(c: Code, op: BinOp, rs: nat, rt: nat): Option<Compiled> {
    if IsKnown(c, rs) && IsKnown(c, rt) then
      match FoldOp(op, c.numbers[rs], c.numbers[rt])
      case None => None
      case Some(imm) => Some(Li(c, imm))
    else Some(Emit(c, OpCode(op), rs, rt))
  }

  /** ir_builder_lnot */
  function Lnot(c: Code, rs: nat): Compiled {
    Emit(c, I_LNOT, rs, 0)
  }

  /** ir_builder_mov: a known number stays known. */
  function Mov(c: Code, rs: nat): Compiled {
    var e := Emit(c, I_MOV, rs, 0);
    if IsKnown(c, rs) then e.(code := e.code.(numbers := c.numbers[e.reg := c.numbers[rs]])) else e
  }

  /** ir_builder_mov_upper: writes a register that may have been written before.
      A known number becomes known for rd; otherwise what was known stays. */
  function MovUpper(c: Code, rd: nat, rs: nat): Code {
    c.(insts := c.insts + [DType(I_MOV, Field(rd), Field(rs), 0)],
       numbers := if IsKnown(c, rs) then c.numbers[rd := c.numbers[rs]] else c.numbers)
  }

  /** ir_builder_undefined */
  function Undef(c: Code): Compiled {
    Emit(c, I_UNDEFINED, 0, 0)
  }

  /** A constant is loaded once: asking for it again gives the same register and no instruction. */
  lemma ConstantsAreShared(c: Code, i: int, j: int)
    ensures FromInt(i) == FromInt(j) ==> Li(Li(c, i).code, j) == Li(c, i)
    ensures FromInt(i) !in c.constants ==>
              && Li(c, i).reg == c.registerNr + 1 == Li(c, i).code.registerNr
              && Li(c, i).code.insts == c.insts + [IType(I_LI, Field(c.registerNr + 1), i)]
  {
    hide FromInt, Field;
  }

  /** An operation on known numbers leaves at most the load of its result, any other
      exactly its own instruction on a new register. */
  lemma KnownIsFolded(c: Code, op: BinOp, rs: nat, rt: nat)
    requires Arith(c, op, rs, rt).Some?
    ensures var e := Arith(c, op, rs, rt).value;
            if IsKnown(c, rs) && IsKnown(c, rt) then
              e.code.insts == c.insts || exists imm :: e.code.insts == c.insts + [IType(I_LI, Field(e.reg), imm)]
            else
              && e.reg == c.registerNr + 1 == e.code.registerNr
              && e.code.insts == c.insts + [DType(OpCode(op), Field(e.reg), Field(rs), Field(rt))]
  {
    hide FromInt, Field, FoldOp, OpCode;
  }

  // ----- the VM on straight-line code -----

  /** The registers of the running frame. */
  type Regs = seq<Word>

  /** cvm_set_register; None is an access outside the frame. */
  function Put(regs: Regs, rd: nat, value: Option<Word>): (r: Option<Regs>)
    ensures r.Some? ==> |r.value| == |regs| && regs != [] && r.value[0] == regs[0]
  {
    if value == None || rd >= |regs| then None
    else if rd == 0 then Some(regs)
    else Some(regs[rd := value.value])
  }

  function OperandOf(op: Op): Option<BinOp> {
    match op
    case I_ADD => Some(Add)
    case I_SUB => Some(Sub)
    case I_MUL => Some(Mul)
    case I_DIV => Some(Div)
    case I_MOD => Some(Mod)
    case I_SEQ => Some(Eq)
    case I_SLT => Some(Lt)
    case I_SLE => Some(Le)
    case _ => None
  }

  /** What the builder members above emit: no jump, no return. */
  predicate IsStraight(op: Op) {
    OperandOf(op).Some? || op == I_LI || op == I_LNOT || op == I_MOV || op == I_UNDEFINED
  }

  predicate Straight(insts: seq<Inst>) {
    forall inst :: inst in insts ==> IsStraight(inst.op)
  }

  /** One instruction of cvm_state_run; None is a trap. */
  function Step(regs: Regs, inst: Inst): (r: Option<Regs>)
    ensures r.Some? ==> |r.value| == |regs| && regs != [] && r.value[0] == regs[0]
  {
    match inst
    case IType(op, rd, imm) => if op == I_LI then Put(regs, rd, Some(FromInt(imm))) else None
    case DType(op, rd, rs, rt) =>
      if rs >= |regs| || rt >= |regs| then None
      else if OperandOf(op).Some? then Put(regs, rd, ExecOp(OperandOf(op).value, regs[rs], regs[rt]))
      else if op == I_LNOT then Put(regs, rd, ExecNot(regs[rs]))
      else if op == I_MOV then Put(regs, rd, Some(regs[rs]))
      else if op == I_UNDEFINED then Put(regs, rd, Some(UNDEFINED))
      else None
  }

  function Run(insts: seq<Inst>, regs: Regs): (r: Option<Regs>)
    ensures insts == [] ==> r == Some(regs)
  {
    if insts == [] then Some(regs)
    else
      match Run(insts[..|insts| - 1], regs)
      case None => None
      case Some(before) => Step(before, insts[|insts| - 1])
  }

  lemma RunOneMore(insts: seq<Inst>, inst: Inst, regs: Regs)
    ensures Run(insts + [inst], regs) == match Run(insts, regs) case None => None case Some(before) => Step(before, inst)
  {
    assert (insts + [inst])[..|insts|] == insts;
  }

  /** A trap is final. */
  lemma {:induction false} TrapStays(insts: seq<Inst>, more: seq<Inst>, regs: Regs)
    requires Run(insts, regs) == None
    ensures Run(insts + more, regs) == None
    decreases |more|
  {
    if more == [] {
      assert insts + more == insts;
    } else {
      var last := |more| - 1;
      TrapStays(insts, more[..last], regs);
      RunOneMore(insts + more[..last], more[last], regs);
      assert insts + more[..last] + [more[last]] == insts + more;
    }
  }

  // ----- what the builder knows is true -----

  ghost predicate ConstantsTrue(c: Code, regs: Regs) {
    forall k :: k in c.constants ==> c.constants[k] <= c.registerNr && c.constants[k] < |regs| && regs[c.constants[k]] == k
  }

  ghost predicate NumbersTrue(c: Code, regs: Regs) {
    forall r :: r in c.numbers ==> r <= c.registerNr && r < |regs| && regs[r] == c.numbers[r]
  }

  /** The code so far ends with these registers, and the tables are right about them. */
  ghost predicate Reached(c: Code, init: Regs, regs: Regs) {
    && Run(c.insts, init) == Some(regs)
    && c.registerNr < |regs| && regs[0] == FromInt(0)
    && ConstantsTrue(c, regs) && NumbersTrue(c, regs)
  }

  /** Later registers change nothing that was there. */
  ghost predicate Keeps(c: Code, regs: Regs, regs': Regs) {
    && |regs'| == |regs| && c.registerNr < |regs|
    && forall r :: 0 <= r <= c.registerNr ==> regs'[r] == regs[r]
  }

  /** The code grew. */
  ghost predicate Extends(c: Code, c': Code) {
    c.registerNr <= c'.registerNr && c.insts <= c'.insts
  }

  lemma ExtendsTraps(c: Code, c': Code, init: Regs)
    requires Extends(c, c') && Run(c.insts, init) == None
    ensures Run(c'.insts, init) == None
  {
    TrapStays(c.insts, c'.insts[|c.insts|..], init);
    assert c.insts + c'.insts[|c.insts|..] == c'.insts;
  }

  lemma ExtendsTransitive(a: Code, b: Code, c: Code)
    requires Extends(a, b) && Extends(b, c)
    ensures Extends(a, c)
  {
  }

  lemma KeepsTransitive(a: Code, b: Code, r0: Regs, r1: Regs, r2: Regs)
    requires Keeps(a, r0, r1) && Keeps(b, r1, r2) && Extends(a, b)
    ensures Keeps(a, r0, r2)
  {
  }

  /** The next register is free and can be named. */
  predicate HasRoom(n: nat, regs: Regs) {
    n < |regs| && n < REGISTER_LIMIT
  }

  lemma FieldIs(reg: nat)
    requires reg < REGISTER_LIMIT
    ensures Field(reg) == reg
  {
  }

  /** One more register. */
  lemma TablesKept(c: Code, c': Code, regs: Regs, ret: nat, w: Word)
    requires ConstantsTrue(c, regs) && NumbersTrue(c, regs) && ret == c.registerNr + 1 == c'.registerNr && ret < |regs|
    requires c'.constants == c.constants || c'.constants == c.constants[w := ret]
    requires c'.numbers == c.numbers || c'.numbers == c.numbers[ret := w]
    ensures ConstantsTrue(c', regs[ret := w]) && NumbersTrue(c', regs[ret := w])
  {
  }

  /** An instruction that writes w to the next register. */
  lemma OneMore(c: Code, c': Code, inst: Inst, init: Regs, regs: Regs, w: Word)
    requires Reached(c, init, regs) && c'.insts == c.insts + [inst] && c'.registerNr == c.registerNr + 1
    requires HasRoom(c'.registerNr, regs)
    requires Step(regs, inst) == Some(regs[c'.registerNr := w])
    requires c'.constants == c.constants || c'.constants == c.constants[w := c'.registerNr]
    requires c'.numbers == c.numbers || c'.numbers == c.numbers[c'.registerNr := w]
    ensures Reached(c', init, regs[c'.registerNr := w]) && Extends(c, c') && Keeps(c, regs, regs[c'.registerNr := w])
  {
    hide Step, ConstantsTrue, NumbersTrue, Run;
    RunOneMore(c.insts, inst, init);
    TablesKept(c, c', regs, c'.registerNr, w);
  }

  /** The outcome of compiling something whose value is w, or which traps. */
  ghost predicate Gives(c: Code, e: Compiled, init: Regs, regs: Regs, w: Option<Word>, regs': Regs) {
    && Extends(c, e.code)
    && match w
       case None => Run(e.code.insts, init) == None
       case Some(word) =>
         && Reached(e.code, init, regs') && Keeps(c, regs, regs')
         && e.reg <= e.code.registerNr && regs'[e.reg] == word
  }

  lemma KeepsSelf(c: Code, regs: Regs)
    requires c.registerNr < |regs|
    ensures Keeps(c, regs, regs) && Extends(c, c)
  {
  }

  lemma LiGives(c: Code, imm: int, init: Regs, regs: Regs) returns (regs': Regs)
    requires Reached(c, init, regs) && HasRoom(Li(c, imm).code.registerNr, regs)
    ensures Gives(c, Li(c, imm), init, regs, Some(FromInt(imm)), regs')
  {
    hide Run, Field, FromInt;
    var e, key := Li(c, imm), FromInt(imm);
    if key in c.constants {
      regs' := regs;
      KeepsSelf(c, regs);
    } else {
      FieldIs(e.reg);
      regs' := regs[e.reg := key];
      OneMore(c, e.code, IType(I_LI, e.reg, imm), init, regs, key);
    }
  }

  lemma EmitGives(c: Code, op: Op, rs: nat, rt: nat, w: Option<Word>, init: Regs, regs: Regs) returns (regs': Regs)
    requires Reached(c, init, regs) && rs <= c.registerNr && rt <= c.registerNr && HasRoom(c.registerNr + 1, regs)
    requires forall rd :: 0 < rd < |regs| ==> Step(regs, DType(op, rd, rs, rt)) == Put(regs, rd, w)
    ensures Gives(c, Emit(c, op, rs, rt), init, regs, w, regs')
  {
    hide Run, Field, Step, ConstantsTrue, NumbersTrue;
    var e := Emit(c, op, rs, rt);
    FieldIs(e.reg);
    FieldIs(rs);
    FieldIs(rt);
    var inst := DType(op, e.reg, rs, rt);
    assert Step(regs, inst) == Put(regs, e.reg, w);
    RunOneMore(c.insts, inst, init);
    regs' := regs;
    if w.Some? {
      regs' := regs[e.reg := w.value];
      OneMore(c, e.code, inst, init, regs, w.value);
    }
  }

  /** Folded or not, an operation leaves the word the instruction computes; if
      the compiler traps on a division by zero, so would the instruction. */
  lemma ArithGives(c: Code, op: BinOp, rs: nat, rt: nat, init: Regs, regs: Regs) returns (regs': Regs)
    requires Reached(c, init, regs) && rs <= c.registerNr && rt <= c.registerNr
    requires Arith(c, op, rs, rt).Some? ==> HasRoom(Arith(c, op, rs, rt).value.code.registerNr, regs)
    ensures match Arith(c, op, rs, rt)
            case None => ExecOp(op, regs[rs], regs[rt]) == None
            case Some(e) => Gives(c, e, init, regs, ExecOp(op, regs[rs], regs[rt]), regs')
  {
    hide Run, Field, ExecOp, FoldOp, Li, Gives, Put, FromInt;
    regs' := regs;
    if IsKnown(c, rs) && IsKnown(c, rt) {
      FoldingAgrees(op, c.numbers[rs], c.numbers[rt]);
      var folded := FoldOp(op, c.numbers[rs], c.numbers[rt]);
      if folded.Some? {
        regs' := LiGives(c, folded.value, init, regs);
      }
    } else {
      regs' := EmitGives(c, OpCode(op), rs, rt, ExecOp(op, regs[rs], regs[rt]), init, regs);
    }
  }

  lemma LnotGives(c: Code, rs: nat, init: Regs, regs: Regs) returns (regs': Regs)
    requires Reached(c, init, regs) && rs <= c.registerNr && HasRoom(c.registerNr + 1, regs)
    ensures Gives(c, Lnot(c, rs), init, regs, ExecNot(regs[rs]), regs')
  {
    hide Run, ExecNot, Gives, Emit, Put;
    regs' := EmitGives(c, I_LNOT, rs, 0, ExecNot(regs[rs]), init, regs);
  }

  lemma UndefGives(c: Code, init: Regs, regs: Regs) returns (regs': Regs)
    requires Reached(c, init, regs) && HasRoom(c.registerNr + 1, regs)
    ensures Gives(c, Undef(c), init, regs, Some(UNDEFINED), regs')
  {
    hide Run, Gives, Emit, Put;
    regs' := EmitGives(c, I_UNDEFINED, 0, 0, Some(UNDEFINED), init, regs);
  }

  lemma MovGives(c: Code, rs: nat, init: Regs, regs: Regs) returns (regs': Regs)
    requires Reached(c, init, regs) && rs <= c.registerNr && HasRoom(c.registerNr + 1, regs)
    ensures Gives(c, Mov(c, rs), init, regs, Some(regs[rs]), regs')
  {
    hide Run, Field;
    var e := Mov(c, rs);
    FieldIs(e.reg);
    FieldIs(rs);
    FieldIs(0);
    regs' := regs[e.reg := regs[rs]];
    OneMore(c, e.code, DType(I_MOV, e.reg, rs, 0), init, regs, regs[rs]);
  }
}
