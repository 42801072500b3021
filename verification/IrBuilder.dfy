/** The block graph under construction and its layout: src/ir_builder.c. */
module IrBuilder {
  import opened Values
  import opened Insts
  import opened Layout
  import opened Backpatch
  import opened BasicBlocks
  import opened Tables
  import opened Arithmetic
  import opened Codes

  /** The position of a successor in the block list. */
  ghost function Position(blocks: seq<BasicBlock>, b: BasicBlock?): (to: Option<nat>)
    ensures b in blocks ==> to.Some? && to.value < |blocks| && blocks[to.value] == b
    ensures b !in blocks ==> to == None
  {
    if b in blocks then
      var i: nat :| i < |blocks| && blocks[i] == b;
      Some(i)
    else None
  }

  ghost predicate Distinct(blocks: seq<BasicBlock>) {
    forall i, j :: 0 <= i < j < |blocks| ==> blocks[i] != blocks[j]
  }

  ghost predicate Within(blocks: seq<BasicBlock>, b: BasicBlock?) {
    b == null || b in blocks
  }

  /** A block as the layout sees it. */
  ghost function BlockOf(blocks: seq<BasicBlock>, b: BasicBlock): Block
    reads b`instList, b`brReg, b`thenBb, b`elseBb
  {
    Block(b.instList, b.brReg, Position(blocks, b.thenBb), Position(blocks, b.elseBb))
  }

  /** The graph a block list stands for: successors by position. */
  ghost predicate Represents(blocks: seq<BasicBlock>, g: Graph)
    reads blocks`instList, blocks`brReg, blocks`thenBb, blocks`elseBb
  {
    && |g| == |blocks|
    && forall i: nat :: i < |blocks| ==>
      && g[i] == BlockOf(blocks, blocks[i])
      && Within(blocks, blocks[i].thenBb) && Within(blocks, blocks[i].elseBb)
  }

  lemma RepresentsSize(blocks: seq<BasicBlock>, g: Graph)
    requires Represents(blocks, g)
    ensures |g| == |blocks|
  {
  }

  lemma RepresentsBlock(blocks: seq<BasicBlock>, g: Graph, i: nat)
    requires Represents(blocks, g) && i < |blocks|
    ensures |g| == |blocks| && g[i] == BlockOf(blocks, blocks[i])
    ensures Within(blocks, blocks[i].thenBb) && Within(blocks, blocks[i].elseBb)
  {
  }

  ghost function EntryPoints(blocks: seq<BasicBlock>): (heads: seq<Word>)
    reads blocks`entryPoint
    ensures |heads| == |blocks|
    ensures forall t :: 0 <= t < |blocks| ==> heads[t] == blocks[t].entryPoint
  {
    if blocks == [] then [] else EntryPoints(blocks[..|blocks| - 1]) + [blocks[|blocks| - 1].entryPoint]
  }

  /** _ir_builder_bnr_else */
  method BnrElse(insts: seq<Inst>, brReg: nat, dst: BasicBlock,
                 ghost blocks: seq<BasicBlock>, ghost g: Graph, ghost items: seq<Item>, ghost k: nat, ghost t: nat)
    returns (ret: seq<Inst>)
    requires Distinct(blocks) && |blocks| == |g| && t < |blocks| && blocks[t] == dst
    requires Progress(g, items, insts, EntryPoints(blocks), k) && |items| + 1 < INT_LIMIT && Entry(g, |g|) < INT_LIMIT
    modifies dst`entryPoint
    ensures Progress(g, items + [Branch(brReg, t)], ret, EntryPoints(blocks), k)
  {
    hide Entry, Progress, Wrap, EntryPoints;
    var bnrIndex := |insts|;
    ghost var item := Branch(brReg, t);
    ghost var heads := EntryPoints(blocks);
    ProgressSize(g, items, insts, heads, k);
    if t >= k {
      OpenKeeps(g, items, insts, heads, k, item, t);
    } else {
      ClosedKeeps(g, items, insts, heads, k, item, t);
    }
    if IsPtr(dst.entryPoint) {
      ret := insts + [IType(I_BNR, brReg, Signed(ToPtr(dst.entryPoint)))];
      dst.entryPoint := FromPtr(Wrap(bnrIndex * 4));
      assert EntryPoints(blocks) == heads[t := LinkWord(|items|)];
    } else {
      ret := insts + [IType(I_BNR, brReg, ToInt(dst.entryPoint) - bnrIndex - 1)];
    }
  }

  lemma ProgressSize(g: Graph, items: seq<Item>, code: seq<Inst>, heads: seq<Word>, k: nat)
    requires Progress(g, items, code, heads, k)
    ensures |items| == |code| && k <= |g|
  {
  }

  /** _ir_builder_jump_to, from the block in front of position k of the list. */
  method JumpTo(insts: seq<Inst>, blocks: seq<BasicBlock>, dst: BasicBlock?, next: nat,
                ghost g: Graph, ghost items: seq<Item>)
    returns (ret: seq<Inst>)
    requires Distinct(blocks) && |blocks| == |g| && 0 < next <= |blocks| && Within(blocks, dst)
    requires Progress(g, items, insts, EntryPoints(blocks), next)
    requires |items| + 2 < INT_LIMIT && Entry(g, |g|) < INT_LIMIT
    modifies blocks`entryPoint
    ensures Progress(g, items + Leave(next - 1, Position(blocks, dst)), ret, EntryPoints(blocks), next)
  {
    hide Entry, Progress, Wrap, EntryPoints;
    ghost var heads := EntryPoints(blocks);
    ProgressSize(g, items, insts, heads, next);
    if dst == null {
      ret := insts + [DType(I_UNDEFINED, 1, 0, 0)];
      PlainKeeps(g, items, insts, heads, next, RETURN_UNDEFINED[0]);
      PlainKeeps(g, items + [Plain(RETURN_UNDEFINED[0])], ret, heads, next, RETURN_UNDEFINED[1]);
      ret := ret + [DType(I_RET, 1, 0, 0)];
      assert items + [Plain(RETURN_UNDEFINED[0])] + [Plain(RETURN_UNDEFINED[1])] == items + Leave(next - 1, None);
      return;
    }
    ghost var t := Position(blocks, dst).value;
    ghost var item := Jump(t);
    if next == |blocks| || dst != blocks[next] {
      assert t != next;
      if t >= next {
        OpenKeeps(g, items, insts, heads, next, item, t);
      } else {
        ClosedKeeps(g, items, insts, heads, next, item, t);
      }
      if IsPtr(dst.entryPoint) {
        var jIndex := |insts|;
        ret := insts + [IType(I_J, 0, Signed(ToPtr(dst.entryPoint)))];
        dst.entryPoint := FromPtr(Wrap(jIndex * 4));
        assert EntryPoints(blocks) == heads[t := LinkWord(|items|)];
      } else {
        ret := insts + [IType(I_J, 0, ToInt(dst.entryPoint))];
      }
    } else {
      assert t == next;
      ret := insts;
      assert items + [] == items;
    }
  }

  /** The fill loop of ir_builder_destroy: walks the chain of block k from its
      last branch to its first and resolves each. */
  method FillChain(insts: seq<Inst>, entry: Word, ghost g: Graph, ghost items: seq<Item>, ghost k: nat)
    returns (ret: seq<Inst>)
    requires k < |g| && Patched(g, items, insts, k) && items == Items(g, k) && |items| < INT_LIMIT
    requires entry == LinkWord(Prev(items, k))
    ensures Patched(g, items, ret, k + 1)
  {
    ret := insts;
    var entryPoint := |insts|;
    LinkRoundTrip(Prev(items, k));
    FillStart(g, items, insts, k);
    hide Patched, Filling, Items;
    if IsPtr(entry) {
      var instToFill := LinkOf(entry);
      while instToFill >= 0
        invariant -1 <= instToFill < |items| == |ret|
        invariant Filling(g, items, ret, k, instToFill)
        invariant instToFill >= 0 ==> TargetOf(items[instToFill]) == Some(k)
        decreases instToFill
      {
        FillStep(g, items, ret, k, instToFill);
        var index := instToFill;
        var inst := ret[index];
        instToFill := inst.imm / 4;
        if inst.op == I_J {
          ret := ret[index := inst.(imm := entryPoint)];
        } else {
          ret := ret[index := inst.(imm := entryPoint - index - 1)];
        }
      }
    }
    FillEnd(g, items, ret, k);
  }

  /** The loop that copies the instructions of one block. */
  method PushBody(insts: seq<Inst>, body: seq<Inst>, ghost g: Graph, ghost items: seq<Item>,
          ghost heads: seq<Word>, ghost k: nat)
    returns (ret: seq<Inst>)
    requires Progress(g, items, insts, heads, k) && |items| + |body| + 1 < INT_LIMIT
    ensures Progress(g, items + Body(body), ret, heads, k)
  {
    hide Progress;
    ret := insts;
    var j := 0;
    assert items + Body(body[..0]) == items;
    while j < |body|
      invariant j <= |body|
      invariant Progress(g, items + Body(body[..j]), ret, heads, k)
    {
      PlainKeeps(g, items + Body(body[..j]), ret, heads, k, body[j]);
      assert items + Body(body[..j]) + [Plain(body[j])] == items + Body(body[..j + 1]);
      ret := ret + [body[j]];
      j := j + 1;
    }
    assert body[..|body|] == body;
  }

  class IRBuilder {
    var registerNr: nat
    var basicBlocks: seq<BasicBlock>

    /** ir_builder_new: the list starts with the entry block. */
    constructor (reservedRegister: nat)
      ensures registerNr == reservedRegister && |basicBlocks| == 1 && fresh(basicBlocks[0])
      ensures basicBlocks[0].Dominated() && basicBlocks[0].Open()
      ensures basicBlocks[0].entryPoint == NO_ENTRY && basicBlocks[0].thenBb == null
      ensures basicBlocks[0].Chain() == [basicBlocks[0]]
      ensures CodeOf(basicBlocks[0]) == NewCode(reservedRegister)
    {
      registerNr := reservedRegister;
      var bb := new BasicBlock(null);
      basicBlocks := [bb];
      new;
      FirstTables(bb);
    }

    /** ir_builder_new_basic_block */
    method NewBasicBlock(dominator: BasicBlock?) returns (bb: BasicBlock)
      requires Distinct(basicBlocks)
      requires dominator != null ==> dominator.Dominated()
      modifies this`basicBlocks
      ensures fresh(bb) && basicBlocks == old(basicBlocks) + [bb] && Distinct(basicBlocks)
      ensures bb.dominator == dominator && bb.Dominated() && bb.Open()
      ensures bb.Chain() == [bb] + if dominator == null then [] else dominator.Chain()
      ensures bb.instList == [] && bb.entryPoint == NO_ENTRY && bb.thenBb == null
      ensures bb.constantTable == map[FromInt(0) := 0] && bb.numericValue == map[0 := FromInt(0)]
      ensures dominator != null ==> CodeOf(bb) == Below(CodeOf(dominator))
      ensures dominator != null ==> bb.Upper() == Above(CodeOf(dominator), dominator.Upper())
    {
      hide BasicBlock.Constants, BasicBlock.Numbers, BasicBlock.Upper, LinkAt, FromInt;
      bb := new BasicBlock(dominator);
      basicBlocks := basicBlocks + [bb];
      if dominator != null {
        TablesBelow(bb, dominator);
      }
    }

    /** What is known at the end of a block: its own tables and those of its dominators. */
    ghost function CodeOf(bb: BasicBlock): Code
      reads this`registerNr, bb`instList, bb.Chain()`constantTable, bb.Chain()`numericValue
    {
      Code(bb.instList, registerNr, bb.Constants(), bb.Numbers())
    }

    /** ir_builder_allocate_register */
    method AllocateRegister() returns (reg: nat)
      modifies this`registerNr
      ensures reg == registerNr == old(registerNr) + 1
    {
      registerNr := registerNr + 1;
      reg := registerNr;
    }

    /** ir_builder_li */
    method Li(bb: BasicBlock, imm: int) returns (ret: nat)
      requires bb.Dominated() && bb.Open()
      modifies this`registerNr, bb`instList, bb.Chain()`constantTable, bb`numericValue
      ensures Compiled(CodeOf(bb), ret) == Codes.Li(old(CodeOf(bb)), imm)
      ensures bb.Upper() == old(bb.Upper())
    {
      hide BasicBlock.Constants, BasicBlock.Numbers, FromInt, Field, BasicBlock.Dominated, BasicBlock.Upper;
      var constant := bb.FindInConstantTable(FromInt(imm));
      if constant.Some? {
        return constant.value;
      }
      ret := NewConstant(bb, imm);
    }

    /** The instruction that loads a constant, and what it makes known. */
    method NewConstant(bb: BasicBlock, imm: int) returns (ret: nat)
      requires bb.Dominated() && bb.Open()
      modifies this`registerNr, bb`instList, bb`constantTable, bb`numericValue
      ensures ret == registerNr == old(registerNr) + 1
      ensures bb.instList == old(bb.instList) + [IType(I_LI, Field(ret), imm)]
      ensures bb.Constants() == old(bb.Constants())[FromInt(imm) := ret]
      ensures bb.Numbers() == old(bb.Numbers())[ret := FromInt(imm)]
      ensures bb.Upper() == old(bb.Upper())
    {
      hide BasicBlock.Constants, BasicBlock.Numbers, BasicBlock.Upper, FromInt, Field, BasicBlock.Dominated;
      ghost var constants, numbers, upper := bb.Constants(), bb.Numbers(), bb.Upper();
      ghost var chain := bb.Chain();
      ret := AllocateRegister();
      bb.instList := bb.instList + [IType(I_LI, Field(ret), imm)];
      assert bb.Constants() == constants && bb.Numbers() == numbers && bb.Upper() == upper;
      bb.Record(FromInt(imm), ret);
    }

    /** The part the arithmetic members, lnot, mov and undefined share. */
    method Push(bb: BasicBlock, op: Op, rs: nat, rt: nat) returns (ret: nat)
      requires bb.Open()
      modifies this`registerNr, bb`instList
      ensures Compiled(CodeOf(bb), ret) == Emit(old(CodeOf(bb)), op, rs, rt)
    {
      hide BasicBlock.Constants, BasicBlock.Numbers, Field;
      ghost var chain := bb.Chain();
      ret := AllocateRegister();
      bb.instList := bb.instList + [DType(op, Field(ret), Field(rs), Field(rt))];
    }

    /** ir_builder_add, sub, mul, div, mod, seq, slt and sle: _ir_fold_constant,
        then the instruction.  None is the trap of a division by zero while folding. */
    method Arith(bb: BasicBlock, op: BinOp, rs: nat, rt: nat) returns (ret: Option<nat>)
      requires bb.Dominated() && bb.Open()
      modifies this`registerNr, bb`instList, bb.Chain()`constantTable, bb.Chain()`numericValue
      ensures match Codes.Arith(old(CodeOf(bb)), op, rs, rt)
              case None => ret == None
              case Some(e) => ret == Some(e.reg) && CodeOf(bb) == e.code
      ensures bb.Upper() == old(bb.Upper())
    {
      hide BasicBlock.Constants, BasicBlock.Numbers, Codes.Li, Emit, FoldOp, BasicBlock.Dominated;
      hide BasicBlock.Upper, FromInt, Field;
      ghost var c := CodeOf(bb);
      var constL := bb.FindInNumericTable(rs);
      var constR := bb.FindInNumericTable(rt);
      assert CodeOf(bb) == c;
      if constL.Some? && constR.Some? && IsInt(constL.value) && IsInt(constR.value) {
        var imm := FoldOp(op, constL.value, constR.value);
        if imm == None {
          return None;
        }
        var reg := Li(bb, imm.value);
        ret := Some(reg);
      } else {
        var reg := Push(bb, OpCode(op), rs, rt);
        ret := Some(reg);
      }
    }

    /** ir_builder_lnot */
    method Lnot(bb: BasicBlock, rs: nat) returns (ret: nat)
      requires bb.Open()
      modifies this`registerNr, bb`instList
      ensures Compiled(CodeOf(bb), ret) == Codes.Lnot(old(CodeOf(bb)), rs)
    {
      hide BasicBlock.Constants, BasicBlock.Numbers, Emit;
      ret := Push(bb, I_LNOT, rs, 0);
    }

    /** ir_builder_undefined */
    method Undefined(bb: BasicBlock) returns (ret: nat)
      requires bb.Open()
      modifies this`registerNr, bb`instList
      ensures Compiled(CodeOf(bb), ret) == Undef(old(CodeOf(bb)))
    {
      hide BasicBlock.Constants, BasicBlock.Numbers, Emit;
      ret := Push(bb, I_UNDEFINED, 0, 0);
    }

    /** ir_builder_mov_upper */
    method MovUpper(bb: BasicBlock, rd: nat, rs: nat)
      requires bb.Dominated() && bb.Open()
      modifies bb`instList, bb.Chain()`numericValue
      ensures CodeOf(bb) == Codes.MovUpper(old(CodeOf(bb)), rd, rs)
      ensures bb.instList == old(bb.instList) + [DType(I_MOV, Field(rd), Field(rs), 0)]
      ensures bb.Upper() == old(bb.Upper())
    {
      hide BasicBlock.Constants, BasicBlock.Numbers, BasicBlock.Dominated, BasicBlock.Upper;
      bb.instList := bb.instList + [DType(I_MOV, Field(rd), Field(rs), 0)];
      var constant := bb.FindInNumericTable(rs);
      if constant.Some? && IsInt(constant.value) {
        bb.SetNumeric(rd, constant.value);
      }
    }

    /** ir_builder_mov */
    method Mov(bb: BasicBlock, rs: nat) returns (ret: nat)
      requires bb.Dominated() && bb.Open()
      modifies this`registerNr, bb`instList, bb.Chain()`numericValue
      ensures Compiled(CodeOf(bb), ret) == Codes.Mov(old(CodeOf(bb)), rs)
      ensures bb.Upper() == old(bb.Upper())
    {
      hide BasicBlock.Constants, BasicBlock.Numbers, BasicBlock.Dominated, BasicBlock.Upper;
      ret := Push(bb, I_MOV, rs, 0);
      var constant := bb.FindInNumericTable(rs);
      if constant.Some? && IsInt(constant.value) {
        bb.SetNumeric(ret, constant.value);
      }
    }

    /** ir_builder_destroy: one pass over the blocks, filling in the branches to
        a block when it is placed, gives the same code as the two-pass layout. */
    method Destroy(ghost g: Graph) returns (ret: seq<Inst>)
      requires Distinct(basicBlocks) && Represents(basicBlocks, g) && WellLinked(g)
      requires forall i :: 0 <= i < |basicBlocks| ==> basicBlocks[i].entryPoint == NO_ENTRY
      requires Entry(g, |g|) + 2 < INT_LIMIT
      modifies this`basicBlocks, basicBlocks`entryPoint
      ensures ret == Flatten(g) && basicBlocks == []
    {
      hide WellLinked, Progress, Items, Represents, EntryPoints;
      var blocks := basicBlocks;
      ret := [];
      assert |blocks| == |g| by { RepresentsSize(blocks, g); }
      ProgressStart(g, EntryPoints(blocks));
      ItemsZero(g);
      var i := 0;
      while i < |blocks|
        invariant i <= |blocks| && basicBlocks == blocks && Represents(blocks, g)
        invariant Progress(g, Items(g, i), ret, EntryPoints(blocks), i)
        modifies blocks`entryPoint
      {
        ret := PlaceBlock(ret, blocks, i, g);
        ret := EndBlock(ret, blocks, i, g);
        i := i + 1;
      }
      ProgressEnd(g, ret, EntryPoints(blocks));
      basicBlocks := [];
    }
  }

  /** The first half of a turn of the layout loop: fill in the branches to block
      i, note its place, copy its body. */
  method PlaceBlock(insts: seq<Inst>, blocks: seq<BasicBlock>, i: nat, ghost g: Graph) returns (ret: seq<Inst>)
    requires Distinct(blocks) && Represents(blocks, g) && i < |blocks| && Entry(g, |g|) + 2 < INT_LIMIT
    requires Progress(g, Items(g, i), insts, EntryPoints(blocks), i)
    modifies blocks`entryPoint
    ensures Progress(g, Items(g, i) + Body(g[i].body), ret, EntryPoints(blocks), i + 1)
  {
    hide Progress, Items, Tail, Patched, Represents, EntryPoints;
    RepresentsBlock(blocks, g, i);
    var bb := blocks[i];
    ghost var items, heads := Items(g, i), EntryPoints(blocks);
    BlockSizes(g, i);
    ProgressChain(g, items, insts, heads, i);
    var entryPoint := |insts|;
    ret := FillChain(insts, bb.entryPoint, g, items, i);
    bb.entryPoint := FromInt(entryPoint);
    assert EntryPoints(blocks) == heads[i := FromInt(|items|)];
    PlacedKeeps(g, items, insts, ret, heads, i);
    ret := PushBody(ret, bb.instList, g, items, EntryPoints(blocks), i + 1);
  }

  /** The second half: the branches that leave block i. */
  method EndBlock(insts: seq<Inst>, blocks: seq<BasicBlock>, i: nat, ghost g: Graph) returns (ret: seq<Inst>)
    requires Distinct(blocks) && Represents(blocks, g) && WellLinked(g) && i < |blocks| && Entry(g, |g|) + 2 < INT_LIMIT
    requires Progress(g, Items(g, i) + Body(g[i].body), insts, EntryPoints(blocks), i + 1)
    modifies blocks`entryPoint
    ensures Progress(g, Items(g, i + 1), ret, EntryPoints(blocks), i + 1)
  {
    hide WellLinked, Progress, Items, Tail, Represents, EntryPoints, Leave;
    RepresentsBlock(blocks, g, i);
    WellLinkedBlock(g, i);
    BlockSizes(g, i);
    EndSizes(g, i);
    var bb := blocks[i];
    ghost var items := Items(g, i) + Body(g[i].body);
    if bb.brReg != 0 {
      ghost var t := Position(blocks, bb.elseBb).value;
      ret := BnrElse(insts, bb.brReg, bb.elseBb, blocks, g, items, i + 1, t);
      items := items + [Branch(bb.brReg, t)];
      ret := JumpTo(ret, blocks, bb.thenBb, i + 1, g, items);
      BlockItemsAre(g, i, items + Leave(i, g[i].thenTo));
    } else {
      ret := JumpTo(insts, blocks, bb.elseBb, i + 1, g, items);
      BlockItemsAre(g, i, items + Leave(i, g[i].elseTo));
    }
  }

  /** What a block sees on top of what the blocks above it see. */
  ghost function Above(c: Code, upper: (seq<map<Word, nat>>, seq<map<nat, Word>>))
    : (seq<map<Word, nat>>, seq<map<nat, Word>>)
  {
    ([c.constants] + upper.0, [c.numbers] + upper.1)
  }

  /** The tables of a new block. */
  lemma TablesBelow(bb: BasicBlock, dominator: BasicBlock)
    requires bb.Chain() == [bb] + dominator.Chain()
    ensures bb.Constants() == dominator.Constants() + bb.constantTable
    ensures bb.Numbers() == dominator.Numbers() + bb.numericValue
    ensures bb.Upper().0 == [dominator.Constants()] + dominator.Upper().0
    ensures bb.Upper().1 == [dominator.Numbers()] + dominator.Upper().1
  {
    hide Views, ConstantTables, NumericTables;
    assert ConstantTables(bb.Chain()) == [bb.constantTable] + ConstantTables(dominator.Chain());
    assert NumericTables(bb.Chain()) == [bb.numericValue] + NumericTables(dominator.Chain());
    ViewsStep(ConstantTables(dominator.Chain()));
    ViewsStep(NumericTables(dominator.Chain()));
  }

  /** The tables of a block without dominator. */
  lemma FirstTables(bb: BasicBlock)
    requires bb.dominator == null && bb.Dominated()
    ensures bb.Constants() == bb.constantTable
    ensures bb.Numbers() == bb.numericValue
  {
    assert LinkAt(bb.Chain(), 0);
    assert bb.Chain() == [bb];
    assert ConstantTables(bb.Chain())[1..] == [] && NumericTables(bb.Chain())[1..] == [];
    assert View(ConstantTables(bb.Chain())[1..]) == map[];
    assert View(NumericTables(bb.Chain())[1..]) == map[];
  }

  lemma ItemsZero(g: Graph)
    ensures Items(g, 0) == []
  {
  }

  lemma BlockSizes(g: Graph, i: nat)
    requires i < |g|
    ensures |Items(g, i)| + |g[i].body| + |Tail(g[i], i)| == |Items(g, i + 1)| <= Entry(g, |g|)
    ensures |Tail(g[i], i)| >= if g[i].brReg != 0 && g[i].elseTo.Some? then 1 else 0
  {
    EntryMonotone(g, i + 1, |g|);
  }

  lemma EndSizes(g: Graph, i: nat)
    requires i < |g|
    ensures |Items(g, i)| + |Body(g[i].body)| + 1 <= Entry(g, |g|) + 1
    ensures g[i].brReg != 0 && g[i].elseTo.Some? ==> |Items(g, i)| + |Body(g[i].body)| + 1 <= Entry(g, |g|)
  {
    BlockSizes(g, i);
    hide Items, Tail;
  }

  lemma ProgressChain(g: Graph, items: seq<Item>, code: seq<Inst>, heads: seq<Word>, k: nat)
    requires Progress(g, items, code, heads, k) && k < |g|
    ensures Patched(g, items, code, k) && |items| == |code| && |items| < INT_LIMIT
    ensures heads[k] == LinkWord(Prev(items, k))
  {
  }

  lemma BlockItemsAre(g: Graph, i: nat, items: seq<Item>)
    requires i < |g|
    requires items == if g[i].brReg != 0 && g[i].elseTo.Some?
                      then Items(g, i) + Body(g[i].body) + [Branch(g[i].brReg, g[i].elseTo.value)] + Leave(i, g[i].thenTo)
                      else Items(g, i) + Body(g[i].body) + Leave(i, g[i].elseTo)
    ensures items == Items(g, i + 1)
  {
    hide Leave, Body;
  }

  lemma ProgressEnd(g: Graph, code: seq<Inst>, heads: seq<Word>)
    requires WellLinked(g) && Progress(g, Items(g, |g|), code, heads, |g|)
    ensures code == Flatten(g)
  {
    hide Patched, WellLinked;
    AllPatched(g, code);
  }
}
