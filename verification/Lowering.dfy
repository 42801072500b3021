/** _parse_logic_and_expr and _parse_logic_or_expr of src/parse.c: one pass over
  the tokens builds the blocks of a chain and compiles its operands into them. */
module Lowering {
  import opened Values
  import opened Insts
  import opened Layout
  import opened Scopes
  import opened Codes
  import opened Tables
  import opened BasicBlocks
  import opened IrBuilder
  import opened Programs
  import opened Grammar
  import opened Parsers
  import opened ShortCircuit
  import opened Logic

  // ----- what reading a chain has to leave -----

  function Connective(isAnd: bool): Token {
    if isAnd then AndAnd else OrOr
  }

  /** A chain of `&&` inside one of `||`. */
  predicate Mixed(isAnd: bool, ts: seq<Token>) {
    !isAnd && Starts(ts, AndAnd)
  }

  /** Comparisons with one connective between them. */
  function ParseOperands(isAnd: bool, ts: seq<Token>): (r: Parsed<seq<Expr>>)
    ensures r.Some? ==> r.value.0 != [] && |r.value.1| < |ts|
    decreases |ts|
  {
    match ParseLevel(0, ts)
    case None => None
    case Some(p) =>
      if Starts(p.1, Connective(isAnd)) then
        match ParseOperands(isAnd, p.1[1..])
        case None => None
        case Some(q) => Some(([p.0] + q.0, q.1))
      else if Mixed(isAnd, p.1) then None
      else Some(([p.0], p.1))
  }

  /** One comparison, or a chain. */
  datatype Value = Single(c: Compiled) | Joined(chain: Chain)

  function CompileValueOf(es: seq<Expr>, st: CompileState): Option<Value>
    requires es != []
  {
    if |es| == 1 then
      match Compile(es[0], st.code, st.scopes)
      case None => None
      case Some(c) => Some(Single(c))
    else
      match CompileLogic(es, st.code, st.scopes)
      case None => None
      case Some(chain) => Some(Joined(chain))
  }

  function LogicOutcome(isAnd: bool, ts: seq<Token>, st: CompileState): Option<(Value, seq<Token>)> {
    match ParseOperands(isAnd, ts)
    case None => None
    case Some(p) =>
      match CompileValueOf(p.0, st)
      case None => None
      case Some(v) => Some((v, p.1))
  }

  /** A chain written down. */
  function RenderOperands(isAnd: bool, es: seq<Expr>): seq<Token>
    requires es != []
  {
    if |es| == 1 then Render(0, es[0])
    else Render(0, es[0]) + [Connective(isAnd)] + RenderOperands(isAnd, es[1..])
  }

  /** Compiling the text of a chain is compiling its operands. */
  lemma {:induction false} LogicText(isAnd: bool, es: seq<Expr>, rest: seq<Token>, st: CompileState)
    requires es != [] && Grammar.Ends(0, rest) && !Starts(rest, Connective(isAnd)) && !Mixed(isAnd, rest)
    ensures LogicOutcome(isAnd, RenderOperands(isAnd, es) + rest, st) ==
            match CompileValueOf(es, st) case None => None case Some(v) => Some((v, rest))
  {
    ReadOperands(isAnd, es, rest);
  }

  lemma {:induction false} ReadOperands(isAnd: bool, es: seq<Expr>, rest: seq<Token>)
    requires es != [] && Grammar.Ends(0, rest) && !Starts(rest, Connective(isAnd)) && !Mixed(isAnd, rest)
    ensures ParseOperands(isAnd, RenderOperands(isAnd, es) + rest) == Some((es, rest))
    decreases |es|
  {
    hide ParseLevel, Render, Level;
    if |es| == 1 {
      ReadOperand(0, es[0], rest);
      assert [es[0]] == es;
    } else {
      var more := RenderOperands(isAnd, es[1..]) + rest;
      var after := [Connective(isAnd)] + more;
      ReadOperands(isAnd, es[1..], rest);
      ReadOperand(0, es[0], after);
      assert RenderOperands(isAnd, es) + rest == Render(0, es[0]) + after;
      assert after[1..] == more;
      assert [es[0]] + es[1..] == es;
    }
  }

  // ----- the same, one token at a time -----

  /** Behind an operand that left its value in `reg`: the blocks from its own on,
      the registers used, the tokens left. */
  function RestOutcome(isAnd: bool, temp: nat, c: Code, reg: nat, ts: seq<Token>, scopes: seq<Scope>)
    : Option<(seq<Operand>, nat, seq<Token>)>
    decreases |ts|
  {
    if Starts(ts, Connective(isAnd)) then
      match LevelOutcome(0, ts[1..], CompileState(Below(MovUpper(c, temp, reg)), scopes))
      case None => None
      case Some(q) =>
        match RestOutcome(isAnd, temp, q.0.code, q.0.reg, q.1, scopes)
        case None => None
        case Some(o) => Some(([Operand(c.insts, reg)] + o.0, o.1, o.2))
    else if Mixed(isAnd, ts) then None
    else Some(([Operand(c.insts, reg)], c.registerNr, ts))
  }

  /** Reading and compiling operand by operand is compiling what was read. */
  lemma {:induction false} RestIs(isAnd: bool, temp: nat, c: Code, reg: nat, ts: seq<Token>, scopes: seq<Scope>)
    requires Starts(ts, Connective(isAnd))
    ensures RestOutcome(isAnd, temp, c, reg, ts, scopes) ==
            match ParseOperands(isAnd, ts[1..])
            case None => None
            case Some(p) =>
              match CompileOperands(temp, c, reg, p.0, scopes)
              case None => None
              case Some(q) => Some((q.0, q.1, p.1))
    decreases |ts|
  {
    hide ParseLevel, Compile, MovUpper, Below;
    var p := ParseLevel(0, ts[1..]);
    var next := Below(MovUpper(c, temp, reg));
    if p.Some? && Compile(p.value.0, next, scopes).Some? {
      var e := Compile(p.value.0, next, scopes).value;
      if Starts(p.value.1, Connective(isAnd)) {
        RestIs(isAnd, temp, e.code, e.reg, p.value.1, scopes);
        var more := ParseOperands(isAnd, p.value.1[1..]);
        if more.Some? {
          assert ([p.value.0] + more.value.0)[1..] == more.value.0;
        }
      } else {
        assert [p.value.0][1..] == [];
        assert CompileOperands(temp, e.code, e.reg, [], scopes)
            == Some(([Operand(e.code.insts, e.reg)], e.code.registerNr));
      }
    }
  }

  /** The chain behind its first operand. */
  function ChainOutcome(isAnd: bool, first: Compiled, ts: seq<Token>, scopes: seq<Scope>): Option<(Value, seq<Token>)> {
    var temp := first.code.registerNr + 1;
    var c := first.code.(registerNr := temp);
    match RestOutcome(isAnd, temp, c, first.reg, ts, scopes)
    case None => None
    case Some(o) => Some((Joined(Chain(temp, o.0, Below(MovUpper(c, temp, first.reg)).(registerNr := o.1))), o.2))
  }

  lemma LogicStep(isAnd: bool, ts: seq<Token>, st: CompileState)
    ensures LogicOutcome(isAnd, ts, st) ==
            match LevelOutcome(0, ts, st)
            case None => None
            case Some(q) =>
              if Starts(q.1, Connective(isAnd)) then ChainOutcome(isAnd, q.0, q.1, st.scopes)
              else if Mixed(isAnd, q.1) then None
              else Some((Single(q.0), q.1))
  {
    hide ParseLevel, Compile, MovUpper, Below, CompileOperands;
    var p := ParseLevel(0, ts);
    if p.Some? && Starts(p.value.1, Connective(isAnd)) {
      var more := ParseOperands(isAnd, p.value.1[1..]);
      if more.Some? {
        assert ([p.value.0] + more.value.0)[1..] == more.value.0;
      }
      if Compile(p.value.0, st.code, st.scopes).Some? {
        var first := Compile(p.value.0, st.code, st.scopes).value;
        var temp := first.code.registerNr + 1;
        RestIs(isAnd, temp, first.code.(registerNr := temp), first.reg, p.value.1, st.scopes);
      }
    }
  }

  // ----- the blocks -----

  /** A block that goes to the end if its operand decides, and else to the next one. */
  ghost predicate Links(b: BasicBlock, isAnd: bool, temp: nat, op: Operand, end: BasicBlock, next: BasicBlock)
    reads b`instList, b`brReg, b`thenBb, b`elseBb
  {
    && b.instList == op.code + [MovInst(temp, op.reg)] && b.brReg == temp
    && b.thenBb == (if isAnd then next else end) && b.elseBb == (if isAnd then end else next)
  }

  /** The block of the last operand. */
  ghost predicate Ends(b: BasicBlock, temp: nat, op: Operand, end: BasicBlock)
    reads b`instList, b`brReg, b`thenBb, b`elseBb
  {
    b.instList == op.code + [MovInst(temp, op.reg)] && b.brReg == 0 && b.thenBb == null && b.elseBb == end
  }

  lemma PositionIs(blocks: seq<BasicBlock>, i: nat)
    requires Distinct(blocks) && i < |blocks|
    ensures Position(blocks, blocks[i]) == Some(i)
  {
  }

  /** The blocks are those of the chain whose meaning is proved. */
  lemma LinkIsChain(blocks: seq<BasicBlock>, b: BasicBlock, isAnd: bool, temp: nat, ops: seq<Operand>, n: nat, i: nat)
    requires Distinct(blocks) && i < |ops| && n + |ops| <= |blocks|
    requires if i + 1 == |ops| then Ends(b, temp, ops[i], blocks[n])
             else Links(b, isAnd, temp, ops[i], blocks[n], blocks[n + i + 1])
    ensures BlockOf(blocks, b) == ChainBlock(isAnd, temp, ops, n, i)
  {
    PositionIs(blocks, n);
    if i + 1 < |ops| {
      PositionIs(blocks, n + i + 1);
    } else {
      assert b.thenBb !in blocks;
    }
  }

  lemma PositionsApart(blocks: seq<BasicBlock>, current: nat, n: nat, i: nat)
    requires Distinct(blocks) && current < n && |blocks| == n + 1 + i
    ensures blocks[n] != blocks[Pos(current, n, i)]
    ensures forall j: nat :: j < i ==> blocks[Pos(current, n, j)] != blocks[Pos(current, n, i)]
  {
  }

  /** Keep the value, branch on it, and start the next operand's block. */
  method LinkOperand(builder: IRBuilder, isAnd: bool, temp: nat, reg: nat, bb: BasicBlock, end: BasicBlock)
    returns (next: BasicBlock)
    requires Distinct(builder.basicBlocks) && bb.Dominated() && bb.Open()
    modifies builder`basicBlocks, bb`instList, bb`brReg, bb`thenBb, bb`elseBb, bb.Chain()`numericValue
    ensures fresh(next) && builder.basicBlocks == old(builder.basicBlocks) + [next] && Distinct(builder.basicBlocks)
    ensures next.Dominated() && next.Open() && next.thenBb == null && next.Chain() == [next] + bb.Chain()
    ensures Links(bb, isAnd, temp, Operand(old(bb.instList), reg), end, next)
    ensures builder.CodeOf(next) == Below(MovUpper(old(builder.CodeOf(bb)), temp, reg))
    ensures next.Upper() == Above(MovUpper(old(builder.CodeOf(bb)), temp, reg), old(bb.Upper()))
  {
    hide BasicBlock.Dominated, BasicBlock.Upper, IRBuilder.CodeOf, Codes.MovUpper, Below, Distinct;
    builder.MovUpper(bb, temp, reg);
    next := builder.NewBasicBlock(bb);
    if isAnd {
      bb.Br(temp, next, end);
    } else {
      bb.Br(temp, end, next);
    }
  }

  method EndOperand(builder: IRBuilder, temp: nat, reg: nat, bb: BasicBlock, end: BasicBlock)
    requires bb.Dominated() && bb.Open() && bb.thenBb == null
    modifies bb`instList, bb`brReg, bb`elseBb, bb.Chain()`numericValue
    ensures Ends(bb, temp, Operand(old(bb.instList), reg), end)
    ensures bb.Upper() == old(bb.Upper())
  {
    hide BasicBlock.Dominated, IRBuilder.CodeOf;
    builder.MovUpper(bb, temp, reg);
    bb.J(end);
  }

  /** One turn of the loop: keep the value, branch on it, and compile the next
      operand in a block of its own, dominated by the one before. */
  method NextOperand(state: ParseState, isAnd: bool, temp: nat, reg: nat, end: BasicBlock) returns (ret: Option<nat>)
    requires state.Valid() && Distinct(state.builder.basicBlocks) && Starts(state.tokens, Connective(isAnd))
    modifies state`tokens, state`currentBb, state.builder`registerNr, state.builder`basicBlocks
    modifies state.currentBb`instList, state.currentBb`brReg, state.currentBb`thenBb, state.currentBb`elseBb
    modifies state.currentBb.Chain()`constantTable, state.currentBb.Chain()`numericValue
    ensures state.Valid() && fresh(state.currentBb) && state.currentBb.thenBb == null
    ensures state.builder.basicBlocks == old(state.builder.basicBlocks) + [state.currentBb]
    ensures Distinct(state.builder.basicBlocks)
    ensures state.currentBb.Chain() == [state.currentBb] + old(state.currentBb).Chain()
    ensures Links(old(state.currentBb), isAnd, temp, Operand(old(state.currentBb.instList), reg), end, state.currentBb)
    ensures var next := MovUpper(old(state.Now()).code, temp, reg);
            && state.currentBb.Upper() == Above(next, old(state.currentBb.Upper()))
            && state.Gave(ret, LevelOutcome(0, old(state.tokens)[1..], CompileState(Below(next), state.scopes)))
    ensures ret.Some? ==> |state.tokens| < old(|state.tokens|)
  {
    hide BasicBlock.Dominated, BasicBlock.Upper, IRBuilder.CodeOf, MovUpper, Below, Distinct, LevelOutcome, Links;
    LevelShrinks(0, state.tokens[1..],
                 CompileState(Below(MovUpper(state.Now().code, temp, reg)), state.scopes));
    state.Next();
    state.currentBb := LinkOperand(state.builder, isAnd, temp, reg, state.currentBb, end);
    ret := state.ParseLevelExpr(0);
  }

  /** What the first block of a chain sees stands at the end of what the blocks
      above the current one see. */
  lemma FirstSeen(bb: BasicBlock, news: seq<BasicBlock>, first: BasicBlock)
    requires news != [] && bb.Chain() == news + first.Chain()
    ensures |news| <= |bb.above|
    ensures bb.Upper().0[|news| - 1] == first.Constants() && bb.Upper().1[|news| - 1] == first.Numbers()
  {
    hide View;
    var n := |news|;
    assert ConstantTables(bb.Chain())[1..][n - 1..] == ConstantTables(first.Chain());
    assert NumericTables(bb.Chain())[1..][n - 1..] == NumericTables(first.Chain());
  }

  /** Operands in front of those that reading the rest yields. */
  function Behind(done: seq<Operand>, rest: Option<(seq<Operand>, nat, seq<Token>)>): Option<(seq<Operand>,
        nat, seq<Token>)> {
    match rest
    case None => None
    case Some(o) => Some((done + o.0, o.1, o.2))
  }

  lemma BehindStep(isAnd: bool, temp: nat, c: Code, reg: nat, ts: seq<Token>, scopes: seq<Scope>, done: seq<Operand>)
    ensures Starts(ts, Connective(isAnd)) ==>
              Behind(done, RestOutcome(isAnd, temp, c, reg, ts, scopes)) ==
              match LevelOutcome(0, ts[1..], CompileState(Below(MovUpper(c, temp, reg)), scopes))
              case None => None
              case Some(q) =>
                Behind(done + [Operand(c.insts, reg)], RestOutcome(isAnd, temp, q.0.code, q.0.reg, q.1, scopes))
    ensures !Starts(ts, Connective(isAnd)) ==>
              Behind(done, RestOutcome(isAnd, temp, c, reg, ts, scopes)) ==
              if Mixed(isAnd, ts) then None else Some((done + [Operand(c.insts, reg)], c.registerNr, ts))
  {
    hide LevelOutcome, MovUpper, Below;
    if Starts(ts, Connective(isAnd)) {
      var q := LevelOutcome(0, ts[1..], CompileState(Below(MovUpper(c, temp, reg)), scopes));
      if q.Some? {
        var o := RestOutcome(isAnd, temp, q.value.0.code, q.value.0.reg, q.value.1, scopes);
        if o.Some? {
          assert done + ([Operand(c.insts, reg)] + o.value.0) == done + [Operand(c.insts, reg)] + o.value.0;
        }
      }
    }
  }

  /** Some operands of a chain are in place, and the current block is that of the
      next one; once there are two blocks, the first knows `c`. */
  ghost predicate Linked(state: ParseState, isAnd: bool, temp: nat, c: Code, done: seq<Operand>, current: nat, n: nat,
          first: BasicBlock)
    reads state, state.builder`basicBlocks, state.currentBb`thenBb
    reads state.builder.basicBlocks`instList, state.builder.basicBlocks`brReg
    reads state.builder.basicBlocks`thenBb, state.builder.basicBlocks`elseBb
    reads state.currentBb.Chain()`constantTable, state.currentBb.Chain()`numericValue
  {
    var blocks, bb := state.builder.basicBlocks, state.currentBb;
    && Distinct(blocks) && current < n && |blocks| == n + 1 + |done| && bb == blocks[Pos(current, n, |done|)]
    && |bb.Chain()| == |done| + |first.Chain()| && bb.Chain()[|done|..] == first.Chain()
    && (forall j: nat :: j < |done| ==>
          Links(blocks[Pos(current, n, j)], isAnd, temp, done[j], blocks[n], blocks[n + j + 1]))
    && if done == [] then bb == first
       else bb.thenBb == null && bb.Upper().0[|done| - 1] == c.constants && bb.Upper().1[|done| - 1] == c.numbers
  }

  lemma LinkedDone(state: ParseState, isAnd: bool, temp: nat, c: Code, done: seq<Operand>, current: nat,
        n: nat, first: BasicBlock)
    requires Linked(state, isAnd, temp, c, done, current, n, first) && done != []
    ensures var blocks, bb := state.builder.basicBlocks, state.currentBb;
            && Distinct(blocks) && current < n && |blocks| == n + 1 + |done| && bb == blocks[Pos(current, n, |done|)]
            && bb.thenBb == null && bb.Chain()[|done|..] == first.Chain()
            && forall j: nat :: j < |done| ==>
                 Links(blocks[Pos(current, n, j)], isAnd, temp, done[j], blocks[n], blocks[n + j + 1])
  {
  }

  lemma CodeIs(state: ParseState)
    ensures state.Now().code.insts == state.currentBb.instList
    ensures state.Now().code.registerNr == state.builder.registerNr
    ensures state.Now().code.constants == state.currentBb.Constants()
    ensures state.Now().code.numbers == state.currentBb.Numbers()
  {
  }

  /** One more operand. */
  method Turn(state: ParseState, isAnd: bool, temp: nat, reg: nat, end: BasicBlock, ghost c: Code,
          ghost done: seq<Operand>, ghost current: nat, ghost n: nat, ghost first: BasicBlock)
    returns (ret: Option<nat>)
    requires state.Valid() && Starts(state.tokens, Connective(isAnd))
    requires Linked(state, isAnd, temp, c, done, current, n, first) && end == state.builder.basicBlocks[n]
    requires done == [] ==> c == MovUpper(state.Now().code, temp, reg)
    modifies state`tokens, state`currentBb, state.builder`registerNr, state.builder`basicBlocks
    modifies state.currentBb`instList, state.currentBb`brReg, state.currentBb`thenBb, state.currentBb`elseBb
    modifies state.currentBb.Chain()`constantTable, state.currentBb.Chain()`numericValue
    ensures state.Valid() && fresh(state.currentBb) && old(state.builder.basicBlocks) <= state.builder.basicBlocks
    ensures state.currentBb.Chain() == [state.currentBb] + old(state.currentBb).Chain()
    ensures Linked(state, isAnd, temp, c, done + [Operand(old(state.currentBb.instList), reg)], current, n, first)
    ensures ret.Some? ==> |state.tokens| < old(|state.tokens|)
    ensures var all := Behind(done, RestOutcome(isAnd, temp, old(state.Now()).code, reg, old(state.tokens), state.scopes));
            all == if ret == None then None
                   else Behind(done + [Operand(old(state.currentBb.instList), reg)],
                               RestOutcome(isAnd, temp, state.Now().code, ret.value, state.tokens, state.scopes))
  {
    hide BasicBlock.Dominated, BasicBlock.Upper, IRBuilder.CodeOf, MovUpper, Below, Distinct, LevelOutcome, Links;
    hide BasicBlock.Open, Behind, RestOutcome, Starts, ParseState.Valid, Mixed;
    PositionsApart(state.builder.basicBlocks, current, n, |done|);
    CodeIs(state);
    BehindStep(isAnd, temp, state.Now().code, reg, state.tokens, state.scopes, done);
    ret := NextOperand(state, isAnd, temp, reg, end);
  }

  lemma BehindNothing(all: Option<(seq<Operand>, nat, seq<Token>)>)
    ensures Behind([], all) == all && forall done :: Behind(done, all) == None <==> all == None
  {
    if all.Some? {
      assert [] + all.value.0 == all.value.0;
    }
  }

  lemma LinkedStart(state: ParseState, isAnd: bool, temp: nat, c: Code, current: nat, n: nat)
    requires Distinct(state.builder.basicBlocks) && current < n && |state.builder.basicBlocks| == n + 1
    requires state.builder.basicBlocks[current] == state.currentBb
    ensures Linked(state, isAnd, temp, c, [], current, n, state.currentBb)
  {
  }

  /** The loop over the operands, from the first connective on. */
  method ParseTurns(state: ParseState, isAnd: bool, temp: nat, reg: nat, end: BasicBlock, ghost current: nat,
        ghost n: nat)
    returns (ret: Option<nat>, ghost done: seq<Operand>, ghost news: seq<BasicBlock>)
    requires state.Valid() && Distinct(state.builder.basicBlocks) && Starts(state.tokens, Connective(isAnd))
    requires current < n && |state.builder.basicBlocks| == n + 1
    requires state.builder.basicBlocks[current] == state.currentBb && state.builder.basicBlocks[n] == end
    modifies state`tokens, state`currentBb, state.builder`registerNr, state.builder`basicBlocks
    modifies state.currentBb`instList, state.currentBb`brReg, state.currentBb`thenBb, state.currentBb`elseBb
    modifies state.currentBb.Chain()`constantTable, state.currentBb.Chain()`numericValue
    ensures var rest := RestOutcome(isAnd, temp, old(state.Now()).code, reg, old(state.tokens), state.scopes);
            match ret
            case None => rest == None
            case Some(r) =>
              && state.Valid() && old(state.builder.basicBlocks) <= state.builder.basicBlocks
              && done != [] && fresh(state.currentBb) && !Starts(state.tokens, Connective(isAnd))
              && Linked(state, isAnd, temp, MovUpper(old(state.Now()).code, temp, reg), done, current, n,
                        old(state.currentBb))
              && fresh(news) && |news| == |done| && state.currentBb.Chain() == news + old(state.currentBb).Chain()
              && rest == Behind(done, RestOutcome(isAnd, temp, state.Now().code, r, state.tokens, state.scopes))
  {
    hide BasicBlock.Dominated, BasicBlock.Upper, IRBuilder.CodeOf, MovUpper, Below, Distinct, LevelOutcome, Linked;
    hide RestOutcome, Behind, BasicBlock.Open, ParseState.Valid, ParseState.Now, Starts;
    ghost var first, before, c := state.currentBb, state.builder.basicBlocks, MovUpper(state.Now().code, temp, reg);
    ghost var all := RestOutcome(isAnd, temp, state.Now().code, reg, state.tokens, state.scopes);
    BehindNothing(all);
    LinkedStart(state, isAnd, temp, c, current, n);
    ret, done, news := Some(reg), [], [];
    while Starts(state.tokens, Connective(isAnd))
      invariant ret.Some? && state.Valid() && before <= state.builder.basicBlocks
      invariant Linked(state, isAnd, temp, c, done, current, n, first)
      invariant fresh(news) && |news| == |done| && state.currentBb.Chain() == news + first.Chain()
      invariant if done == []
                then c == MovUpper(state.Now().code, temp, ret.value) && Starts(state.tokens, Connective(isAnd))
                else fresh(state.currentBb)
      invariant state.currentBb == first || fresh(state.currentBb)
      invariant all == Behind(done, RestOutcome(isAnd, temp, state.Now().code, ret.value, state.tokens, state.scopes))
      decreases |state.tokens|
    {
      ghost var op := Operand(state.currentBb.instList, ret.value);
      ret := Turn(state, isAnd, temp, ret.value, end, c, done, current, n, first);
      if ret == None {
        return;
      }
      done, news := done + [op], [state.currentBb] + news;
    }
  }

  lemma ChainDone(blocks: seq<BasicBlock>, isAnd: bool, temp: nat, ops: seq<Operand>, current: nat, n: nat)
    requires Distinct(blocks) && ops != [] && current < n && n + |ops| <= |blocks|
    requires forall j: nat :: j + 1 < |ops| ==>
               Links(blocks[Pos(current, n, j)], isAnd, temp, ops[j], blocks[n], blocks[n + j + 1])
    requires Ends(blocks[Pos(current, n, |ops| - 1)], temp, ops[|ops| - 1], blocks[n])
    ensures forall i: nat :: i < |ops| ==>
              BlockOf(blocks, blocks[Pos(current, n, i)]) == ChainBlock(isAnd, temp, ops, n, i)
  {
    hide BlockOf, ChainBlock, Links, Ends, Distinct;
    forall j: nat | j < |ops|
      ensures BlockOf(blocks, blocks[Pos(current, n, j)]) == ChainBlock(isAnd, temp, ops, n, j)
    {
      LinkIsChain(blocks, blocks[Pos(current, n, j)], isAnd, temp, ops, n, j);
    }
  }

  lemma LinkedSeen(state: ParseState, isAnd: bool, temp: nat, c: Code, done: seq<Operand>, current: nat, n: nat,
          first: BasicBlock, news: seq<BasicBlock>)
    requires Linked(state, isAnd, temp, c, done, current, n, first) && done != [] && |news| == |done|
    requires state.currentBb.Chain() == news + first.Chain()
    ensures first.Constants() == c.constants && first.Numbers() == c.numbers
  {
    hide BasicBlock.Upper, BasicBlock.Constants, BasicBlock.Numbers, Links, Distinct;
    FirstSeen(state.currentBb, news, first);
  }

  /** All of a chain behind its first operand; the end block is there already. */
  method ParseRest(state: ParseState, isAnd: bool, temp: nat, reg: nat, end: BasicBlock, ghost current: nat,
        ghost n: nat)
    returns (ok: bool, ghost ops: seq<Operand>)
    requires state.Valid() && Distinct(state.builder.basicBlocks) && Starts(state.tokens, Connective(isAnd))
    requires current < n && |state.builder.basicBlocks| == n + 1
    requires state.builder.basicBlocks[current] == state.currentBb && state.builder.basicBlocks[n] == end
    modifies state`tokens, state`currentBb, state.builder`registerNr, state.builder`basicBlocks
    modifies state.currentBb`instList, state.currentBb`brReg, state.currentBb`thenBb, state.currentBb`elseBb
    modifies state.currentBb.Chain()`constantTable, state.currentBb.Chain()`numericValue
    ensures RestOutcome(isAnd, temp, old(state.Now()).code, reg, old(state.tokens), state.scopes)
            == if ok then Some((ops, state.builder.registerNr, state.tokens)) else None
    ensures ok ==>
      && old(state.builder.basicBlocks) <= state.builder.basicBlocks && Distinct(state.builder.basicBlocks)
      && |ops| > 1 && |state.builder.basicBlocks| == n + |ops|
      && (forall i: nat :: i < |ops| ==>
            BlockOf(state.builder.basicBlocks, state.builder.basicBlocks[Pos(current, n, i)])
            == ChainBlock(isAnd, temp, ops, n, i))
      && var c := MovUpper(old(state.Now()).code, temp, reg);
         old(state.currentBb).Constants() == c.constants && old(state.currentBb).Numbers() == c.numbers
  {
    hide BasicBlock.Dominated, BasicBlock.Upper, IRBuilder.CodeOf, MovUpper, Below, Distinct, LevelOutcome, Linked;
    hide RestOutcome, Behind, BasicBlock.Open, BlockOf, ChainBlock, Links, Ends, BasicBlock.Constants;
    hide BasicBlock.Numbers;
    ghost var first, c := state.currentBb, MovUpper(state.Now().code, temp, reg);
    ghost var done, news;
    var ret;
    ret, done, news := ParseTurns(state, isAnd, temp, reg, end, current, n);
    ops := [];
    ok := ret.Some? && !Mixed(isAnd, state.tokens);
    if ret.Some? {
      BehindStep(isAnd, temp, state.Now().code, ret.value, state.tokens, state.scopes, done);
    }
    if !ok {
      return;
    }
    CodeIs(state);
    ops := done + [Operand(state.currentBb.instList, ret.value)];
    LinkedDone(state, isAnd, temp, c, done, current, n, first);
    LinkedSeen(state, isAnd, temp, c, done, current, n, first, news);
    PositionsApart(state.builder.basicBlocks, current, n, |done|);
    FirstSeen(state.currentBb, news, first);
    EndOperand(state.builder, temp, ret.value, state.currentBb, end);
    FirstSeen(state.currentBb, news, first);
    ChainDone(state.builder.basicBlocks, isAnd, temp, ops, current, n);
  }

  /** What reading one comparison or a chain has to leave; the chain's blocks
      start at the current one and continue behind the first n. */
  ghost predicate Parsed(state: ParseState, ret: Option<nat>, isAnd: bool, o: Option<(Value, seq<Token>)>,
          before: seq<BasicBlock>, current: nat)
    reads state, state.builder, state.builder.basicBlocks, state.currentBb`instList
    reads state.currentBb.Chain()`constantTable, state.currentBb.Chain()`numericValue
  {
    var blocks, n := state.builder.basicBlocks, |before|;
    match o
    case None => ret == None
    case Some((Single(c), rest)) =>
      && state.Gave(ret, Some((c, rest))) && blocks == before
      && current < n && state.currentBb == blocks[current]
    case Some((Joined(chain), rest)) =>
      && state.Gave(ret, Some((Compiled(chain.atEnd, chain.temp), rest)))
      && before <= blocks && Distinct(blocks) && current < n && |blocks| == n + |chain.ops| && |chain.ops| > 1
      && state.currentBb == blocks[n]
      && forall i: nat :: i < |chain.ops| ==>
           BlockOf(blocks, blocks[Pos(current, n, i)]) == ChainBlock(isAnd, chain.temp, chain.ops, n, i)
  }

  /** _parse_logic_and_expr and _parse_logic_or_expr: reading a chain compiles it,
      whatever its operands are. */
  method ParseLogicExpr(state: ParseState, isAnd: bool, ghost current: nat) returns (ret: Option<nat>)
    requires state.Valid() && Distinct(state.builder.basicBlocks)
    requires current < |state.builder.basicBlocks| && state.builder.basicBlocks[current] == state.currentBb
    modifies state`tokens, state`currentBb, state.builder
    modifies state.currentBb`instList, state.currentBb`brReg, state.currentBb`thenBb, state.currentBb`elseBb
    modifies state.currentBb.Chain()`constantTable, state.currentBb.Chain()`numericValue
    ensures ret.Some? ==> state.Valid()
    ensures Parsed(state, ret, isAnd, LogicOutcome(isAnd, old(state.tokens), old(state.Now())),
                   old(state.builder.basicBlocks), current)
  {
    hide BasicBlock.Dominated, BasicBlock.Upper, IRBuilder.CodeOf, MovUpper, Below, Distinct, LevelOutcome;
    hide RestOutcome, LogicOutcome, BasicBlock.Open, BlockOf, ChainBlock, BasicBlock.Constants, BasicBlock.Numbers;
    LogicStep(isAnd, state.tokens, state.Now());
    ret := state.ParseLevelExpr(0);
    if ret == None {
      return;
    }
    if Starts(state.tokens, Connective(isAnd)) {
      ret := ParseChain(state, isAnd, ret.value, current);
    } else if Mixed(isAnd, state.tokens) {
      ret := None;
    }
  }

  lemma EndKnows(c: Code, end: Code)
    requires end.insts == [] && end.constants == c.constants + map[FromInt(0) := 0]
    requires end.numbers == c.numbers + map[0 := FromInt(0)]
    ensures end == Below(c).(registerNr := end.registerNr)
  {
    hide FromInt;
  }

  /** The temporary register and the end block. */
  method StartChain(state: ParseState) returns (temp: nat, end: BasicBlock)
    requires state.Valid() && Distinct(state.builder.basicBlocks)
    modifies state.builder
    ensures temp == old(state.Now()).code.registerNr + 1
    ensures state.Now().code == old(state.Now()).code.(registerNr := temp)
    ensures fresh(end) && state.builder.basicBlocks == old(state.builder.basicBlocks) + [end]
    ensures Distinct(state.builder.basicBlocks) && end.Dominated() && end.Open() && end.instList == []
    ensures end.Chain() == [end] + state.currentBb.Chain()
    ensures end.constantTable == map[FromInt(0) := 0] && end.numericValue == map[0 := FromInt(0)]
  {
    hide BasicBlock.Dominated, BasicBlock.Upper, IRBuilder.CodeOf, Below, Distinct, BasicBlock.Open;
    hide BasicBlock.Constants, BasicBlock.Numbers, FromInt;
    CodeIs(state);
    ghost var chain, c := state.currentBb.Chain(), state.Now().code;
    temp := state.builder.AllocateRegister();
    end := state.builder.NewBasicBlock(state.currentBb);
    CodeIs(state);
    assert state.Now().code == c.(registerNr := temp);
  }

  /** From the first connective on. */
  method ParseChain(state: ParseState, isAnd: bool, reg: nat, ghost current: nat) returns (ret: Option<nat>)
    requires state.Valid() && Distinct(state.builder.basicBlocks) && Starts(state.tokens, Connective(isAnd))
    requires current < |state.builder.basicBlocks| && state.builder.basicBlocks[current] == state.currentBb
    modifies state`tokens, state`currentBb, state.builder
    modifies state.currentBb`instList, state.currentBb`brReg, state.currentBb`thenBb, state.currentBb`elseBb
    modifies state.currentBb.Chain()`constantTable, state.currentBb.Chain()`numericValue
    ensures ret.Some? ==> state.Valid()
    ensures Parsed(state, ret, isAnd, ChainOutcome(isAnd, Compiled(old(state.Now()).code, reg), old(state.tokens), state.scopes),
                   old(state.builder.basicBlocks), current)
  {
    hide BasicBlock.Dominated, BasicBlock.Upper, IRBuilder.CodeOf, MovUpper, Below, Distinct, FromInt;
    hide RestOutcome, BasicBlock.Open, BlockOf, ChainBlock, BasicBlock.Constants, BasicBlock.Numbers, Starts;
    ghost var first, c := state.currentBb, state.Now().code;
    var temp, end := StartChain(state);
    var ok;
    ghost var ops;
    ok, ops := ParseRest(state, isAnd, temp, reg, end, current, |state.builder.basicBlocks| - 1);
    if !ok {
      return None;
    }
    state.currentBb := end;
    ret := Some(temp);
    TablesBelow(end, first);
    CodeIs(state);
    EndKnows(MovUpper(c.(registerNr := temp), temp, reg), state.Now().code);
  }

  /** The graph of a block list that holds such a chain has the chain. */
  lemma ChainInGraph(blocks: seq<BasicBlock>, g: Graph, isAnd: bool, temp: nat, ops: seq<Operand>, current: nat, n: nat)
    requires Represents(blocks, g) && current < n && n + |ops| <= |blocks|
    requires forall i: nat :: i < |ops| ==>
               BlockOf(blocks, blocks[Pos(current, n, i)]) == ChainBlock(isAnd, temp, ops, n, i)
    ensures HasChain(g, isAnd, temp, ops, current, n)
  {
    hide Represents, BlockOf, ChainBlock;
    RepresentsSize(blocks, g);
    forall i: nat | i < |ops| ensures g[Pos(current, n, i)] == ChainBlock(isAnd, temp, ops, n, i) {
      RepresentsBlock(blocks, g, Pos(current, n, i));
    }
  }
}
