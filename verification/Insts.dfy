/** VM instructions: src/inst.h.  The two operand layouts of the C union are two constructors. */
module Insts {

  datatype Op =
    | I_UNKNOWN | I_HALT | I_LI
    | I_ADD | I_SUB | I_MUL | I_DIV | I_MOD
    | I_SEQ | I_SLT | I_SLE
    | I_LNOT | I_MOV | I_BNR | I_J | I_LSTR
    | I_NEW_OBJ | I_NEW_ARR | I_SET_OBJ | I_GET_OBJ
    | I_CALL | I_RET | I_NEW_CLS | I_UNDEFINED | I_NULL

  datatype Inst =
    | DType(op: Op, rd: nat, rs: nat, rt: nat)
    | IType(op: Op, rd: nat, imm: int)

  predicate IsJump(inst: Inst) {
    inst.op == I_J || inst.op == I_BNR
  }

  /** What ir_builder emits for a missing successor. */
  const RETURN_UNDEFINED: seq<Inst> := [DType(I_UNDEFINED, 1, 0, 0), DType(I_RET, 1, 0, 0)]
}
