/** Every instruction of cvm_state_run that stays among the registers: what one turn
  of the loop leaves, in plain terms. */
module Instructions {
  import opened Values
  import opened Insts
  import opened Arithmetic
  import opened Operators
  import opened Vms
  import opened Frames
  import Machines
  import Codes

  /** The top frame stands at this instruction. */
  ghost predicate StandsAt(p: Program, s: State, inst: Inst) {
    && s.Running? && s.frames != []
    && s.frames[0].callee < |p.functions|
    && var code := p.functions[s.frames[0].callee].code;
       s.frames[0].pc < |code| && code[s.frames[0].pc] == inst
  }

  /** Register 0 cannot be written. */
  function Wrote(regs: seq<Word>, rd: nat, value: Word): seq<Word>
    requires rd < |regs|
  {
    if rd == 0 then regs else regs[rd := value]
  }

  /** The machine goes on behind the instruction with this value in rd, and nothing else changed. */
  ghost predicate Gives(p: Program, s: State, rd: nat, value: Word) {
    && s.Running? && s.frames != []
    && var f := s.frames[0];
       && rd < |f.regs|
       && Step(p, s) == Running(s.memory, [Frame(f.callee, f.pc + 1, Wrote(f.regs, rd, value))] + s.frames[1..])
  }

  ghost predicate Traps(p: Program, s: State) {
    Step(p, s) == Stopped(Trap)
  }

  /** An instruction that computes from registers. */
  lemma ComputeStep(p: Program, s: State, inst: Inst, value: Option<Word>)
    requires StandsAt(p, s, inst)
    requires Execute(p, s.memory, s.frames[0].regs, inst) == Compute(s.memory, s.frames[0].regs, inst)
    requires inst.op !in {I_HALT, I_CALL, I_RET, I_J, I_BNR}
    requires var regs := s.frames[0].regs;
             && inst.rd < |regs| && (inst.DType? ==> inst.rs < |regs| && inst.rt < |regs|)
             && Codes.Step(regs, inst) == Codes.Put(regs, inst.rd, value)
    ensures match value case None => Traps(p, s) case Some(w) => Gives(p, s, inst.rd, w)
  {
    hide Codes.Step, Execute;
  }

  lemma ExecuteIsCompute(p: Program, m: Memory, regs: seq<Word>, inst: Inst)
    requires if inst.IType? then inst.op == I_LI else inst.op in {I_MOV, I_UNDEFINED, I_LNOT} || IsOperator(inst.op)
    ensures Execute(p, m, regs, inst) == Compute(m, regs, inst)
    ensures inst.op !in {I_HALT, I_CALL, I_RET, I_J, I_BNR}
  {
    hide Compute;
  }

  lemma StoreStep(p: Program, s: State, inst: Inst, value: Word)
    requires StandsAt(p, s, inst) && inst.rd < |s.frames[0].regs| && inst.op !in {I_HALT, I_CALL, I_RET, I_J, I_BNR}
    requires Execute(p, s.memory, s.frames[0].regs, inst) == Store(s.memory, s.frames[0].regs, inst.rd, value)
    ensures Gives(p, s, inst.rd, value)
  {
    hide Execute;
  }

  /** Loads and copies. */
  lemma LoadSteps(p: Program, s: State, rd: nat, rs: nat, rt: nat, imm: int)
    requires s.Running? && s.frames != []
    requires var n := |s.frames[0].regs|; rd < n && rs < n && rt < n
    ensures StandsAt(p, s, IType(I_LI, rd, imm)) ==> Gives(p, s, rd, FromInt(imm))
    ensures StandsAt(p, s, IType(I_LSTR, rd, imm)) && 0 <= imm < WORD_RANGE && imm % 4 == 0 ==> Gives(p, s, rd, imm + 2)
    ensures StandsAt(p, s, DType(I_NULL, rd, rs, rt)) ==> Gives(p, s, rd, 0)
    ensures StandsAt(p, s, DType(I_UNDEFINED, rd, rs, rt)) ==> Gives(p, s, rd, 3)
    ensures StandsAt(p, s, DType(I_MOV, rd, rs, rt)) ==> Gives(p, s, rd, s.frames[0].regs[rs])
  {
    hide FromInt, Codes.Step, Codes.Put, Gives, Step, Store, Compute;
    var m, regs := s.memory, s.frames[0].regs;
    LoadsPut(regs, rd, rs, rt, imm);
    if StandsAt(p, s, IType(I_LI, rd, imm)) {
      ExecuteIsCompute(p, m, regs, IType(I_LI, rd, imm));
      ComputeStep(p, s, IType(I_LI, rd, imm), Some(FromInt(imm)));
    }
    if StandsAt(p, s, IType(I_LSTR, rd, imm)) && 0 <= imm < WORD_RANGE && imm % 4 == 0 {
      StringWord(imm);
      StoreStep(p, s, IType(I_LSTR, rd, imm), imm + 2);
    }
    if StandsAt(p, s, DType(I_NULL, rd, rs, rt)) {
      StoreStep(p, s, DType(I_NULL, rd, rs, rt), 0);
    }
    if StandsAt(p, s, DType(I_UNDEFINED, rd, rs, rt)) {
      ExecuteIsCompute(p, m, regs, DType(I_UNDEFINED, rd, rs, rt));
      ComputeStep(p, s, DType(I_UNDEFINED, rd, rs, rt), Some(3));
    }
    if StandsAt(p, s, DType(I_MOV, rd, rs, rt)) {
      ExecuteIsCompute(p, m, regs, DType(I_MOV, rd, rs, rt));
      ComputeStep(p, s, DType(I_MOV, rd, rs, rt), Some(regs[rs]));
    }
  }

  lemma StringWord(imm: Word)
    requires imm % 4 == 0
    ensures imm + 2 < WORD_RANGE && Wrap(imm) == imm && FromStr(imm) == imm + 2
  {
  }

  lemma LoadsPut(regs: seq<Word>, rd: nat, rs: nat, rt: nat, imm: int)
    requires rd < |regs| && rs < |regs| && rt < |regs|
    ensures Codes.Step(regs, IType(I_LI, rd, imm)) == Codes.Put(regs, rd, Some(FromInt(imm)))
    ensures Codes.Step(regs, DType(I_UNDEFINED, rd, rs, rt)) == Codes.Put(regs, rd, Some(3))
    ensures Codes.Step(regs, DType(I_MOV, rd, rs, rt)) == Codes.Put(regs, rd, Some(regs[rs]))
  {
    hide FromInt;
  }

  /** The operator that an arithmetic instruction stands for. */
  lemma OperatorPut(regs: seq<Word>, rd: nat, rs: nat, rt: nat)
    requires rd < |regs| && rs < |regs| && rt < |regs|
    ensures Codes.Step(regs, DType(I_ADD, rd, rs, rt)) == Codes.Put(regs, rd, ExecOp(Add, regs[rs], regs[rt]))
    ensures Codes.Step(regs, DType(I_SUB, rd, rs, rt)) == Codes.Put(regs, rd, ExecOp(Sub, regs[rs], regs[rt]))
    ensures Codes.Step(regs, DType(I_MUL, rd, rs, rt)) == Codes.Put(regs, rd, ExecOp(Mul, regs[rs], regs[rt]))
    ensures Codes.Step(regs, DType(I_DIV, rd, rs, rt)) == Codes.Put(regs, rd, ExecOp(Div, regs[rs], regs[rt]))
    ensures Codes.Step(regs, DType(I_MOD, rd, rs, rt)) == Codes.Put(regs, rd, ExecOp(Mod, regs[rs], regs[rt]))
    ensures Codes.Step(regs, DType(I_SEQ, rd, rs, rt)) == Codes.Put(regs, rd, ExecOp(Eq, regs[rs], regs[rt]))
    ensures Codes.Step(regs, DType(I_SLT, rd, rs, rt)) == Codes.Put(regs, rd, ExecOp(Lt, regs[rs], regs[rt]))
    ensures Codes.Step(regs, DType(I_SLE, rd, rs, rt)) == Codes.Put(regs, rd, ExecOp(Le, regs[rs], regs[rt]))
    ensures Codes.Step(regs, DType(I_LNOT, rd, rs, rt)) == Codes.Put(regs, rd, ExecNot(regs[rs]))
  {
    hide ExecOp, ExecNot;
  }

  ghost predicate IsOperator(op: Op) {
    op in {I_ADD, I_SUB, I_MUL, I_DIV, I_MOD, I_SEQ, I_SLT, I_SLE}
  }

  /** Arithmetic and comparisons of two numbers. */
  lemma OperatorSteps(p: Program, s: State, op: Op, rd: nat, rs: nat, rt: nat)
    requires StandsAt(p, s, DType(op, rd, rs, rt)) && IsOperator(op)
    requires var n := |s.frames[0].regs|; rd < n && rs < n && rt < n
    ensures var x, y := s.frames[0].regs[rs], s.frames[0].regs[rt];
            if op == I_SEQ then Gives(p, s, rd, FromInt(if x == y then 1 else 0))
            else if !IsInt(x) || !IsInt(y) then Traps(p, s)
            else
              var a, b := ToInt(x), ToInt(y);
              && (op == I_ADD ==> Gives(p, s, rd, FromInt(a + b)))
              && (op == I_SUB ==> Gives(p, s, rd, FromInt(a - b)))
              && (op == I_MUL ==> Gives(p, s, rd, FromInt(a * b)))
              && (op == I_SLT ==> Gives(p, s, rd, FromInt(if a < b then 1 else 0)))
              && (op == I_SLE ==> Gives(p, s, rd, FromInt(if a <= b then 1 else 0)))
              && (op in {I_DIV, I_MOD} && b == 0 ==> Traps(p, s))
              && (forall q, r :: b != 0 && Divides(a, b, q, r) ==>
                    (op == I_DIV ==> Gives(p, s, rd, FromInt(q))) && (op == I_MOD ==> Gives(p, s, rd, FromInt(r))))
  {
    hide FromInt, ToInt, IsInt, ExecOp, ExecNot, Gives, Traps, Divides, Codes.Step, Codes.Put, Compute, Execute;
    var regs := s.frames[0].regs;
    var x, y := regs[rs], regs[rt];
    var o := match op
             case I_ADD => Add
             case I_SUB => Sub
             case I_MUL => Mul
             case I_DIV => Div
             case I_MOD => Mod
             case I_SEQ => Eq
             case I_SLT => Lt
             case _ => Le;
    OperatorPut(regs, rd, rs, rt);
    ExecuteIsCompute(p, s.memory, regs, DType(op, rd, rs, rt));
    ComputeStep(p, s, DType(op, rd, rs, rt), ExecOp(o, x, y));
    ComparisonsGive(x, y);
    if IsInt(x) && IsInt(y) {
      SumsGive(x, y);
      QuotientsGive(x, y);
    } else if o != Eq {
      OthersTrap(o, x, y);
    }
  }

  lemma NotStep(p: Program, s: State, rd: nat, rs: nat, rt: nat)
    requires StandsAt(p, s, DType(I_LNOT, rd, rs, rt))
    requires var n := |s.frames[0].regs|; rd < n && rs < n && rt < n
    ensures var x := s.frames[0].regs[rs];
            if IsInt(x) then Gives(p, s, rd, FromInt(if ToInt(x) == 0 then 1 else 0)) else Traps(p, s)
  {
    hide FromInt, ToInt, IsInt, ExecOp, ExecNot, Gives, Traps, Codes.Step, Codes.Put, Compute, Execute;
    OperatorPut(s.frames[0].regs, rd, rs, rt);
    ComparisonsGive(s.frames[0].regs[rs], 1);
    ExecuteIsCompute(p, s.memory, s.frames[0].regs, DType(I_LNOT, rd, rs, rt));
    ComputeStep(p, s, DType(I_LNOT, rd, rs, rt), ExecNot(s.frames[0].regs[rs]));
  }

  // ----- control -----

  /** The machine goes on at this place in the same function. */
  ghost predicate GoesTo(p: Program, s: State, pc: int) {
    && s.Running? && s.frames != []
    && Step(p, s) == if pc < 0 then Stopped(BadAccess)
                     else Running(s.memory, [Frame(s.frames[0].callee, pc, s.frames[0].regs)] + s.frames[1..])
  }

  /** A jump goes to its operand; a branch is relative to the next instruction, and
      taken for undefined, null and the number 0. */
  lemma JumpSteps(p: Program, s: State, rd: nat, imm: int)
    ensures StandsAt(p, s, IType(I_J, rd, imm)) ==> GoesTo(p, s, imm)
    ensures StandsAt(p, s, IType(I_BNR, rd, imm)) && rd < |s.frames[0].regs| ==>
              var w := s.frames[0].regs[rd];
              GoesTo(p, s, if w % 4 == 3 || w == 0 || w == 1 then s.frames[0].pc + 1 + imm else s.frames[0].pc + 1)
  {
    hide Execute, Call;
    if StandsAt(p, s, IType(I_BNR, rd, imm)) && rd < |s.frames[0].regs| {
      FalseWords(s.frames[0].regs[rd]);
    }
  }

  lemma FalseWords(w: Word)
    ensures Machines.IsFalse(w) <==> w % 4 == 3 || w == 0 || w == 1
  {
  }

  /** A return ends the run of the last frame; otherwise the frame below goes on, with
      the value in the register named by the call in front of it. */
  lemma ReturnSteps(p: Program, s: State, rd: nat, rs: nat, rt: nat)
    requires s.Running? && s.frames != []
    ensures StandsAt(p, s, DType(I_HALT, rd, rs, rt)) ==> Step(p, s) == Finished(s.memory, 3)
    ensures StandsAt(p, s, DType(I_RET, rd, rs, rt)) && rd < |s.frames[0].regs| ==>
              var value := s.frames[0].regs[rd];
              if |s.frames| == 1 then Step(p, s) == Finished(s.memory, value)
              else
                var caller := s.frames[1];
                FrameOk(p, caller) && Waits(p, caller) ==>
                  var target := p.functions[caller.callee].code[caller.pc - 1].rd;
                  if target < |caller.regs| then
                    Step(p, s) == Running(s.memory,
                      [Frame(caller.callee, caller.pc, Wrote(caller.regs, target, value))] + s.frames[2..])
                  else Step(p, s) == Stopped(BadAccess)
  {
    hide Execute, Call;
    if |s.frames| > 1 {
      assert s.frames[1..][1..] == s.frames[2..];
    }
  }
}
