/** What ir_builder_destroy of src/ir_builder.c has to produce: a graph of basic
  blocks written out as one instruction list with every branch resolved. */
module Layout {
  import opened Values
  import opened Insts

  /** A block as the layout sees it; successors are positions in the block list. */
  datatype Block = Block(body: seq<Inst>, brReg: nat, thenTo: Option<nat>, elseTo: Option<nat>)

  type Graph = seq<Block>

  predicate InRange(to: Option<nat>, n: nat) {
    to.Some? ==> to.value < n
  }

  /** Bodies hold no jumps, successors are blocks of the list, and a conditional
      block has an else successor. */
  ghost predicate WellLinked(g: Graph) {
    forall i :: 0 <= i < |g| ==>
      && InRange(g[i].thenTo, |g|) && InRange(g[i].elseTo, |g|)
      && (g[i].brReg != 0 ==> g[i].elseTo.Some?)
      && (forall inst :: inst in g[i].body ==> !IsJump(inst))
  }

  lemma WellLinkedBlock(g: Graph, i: nat)
    requires WellLinked(g) && i < |g|
    ensures InRange(g[i].thenTo, |g|) && InRange(g[i].elseTo, |g|) && (g[i].brReg != 0 ==> g[i].elseTo.Some?)
    ensures forall inst :: inst in g[i].body ==> !IsJump(inst)
  {
  }

  /** An instruction whose branch target is still symbolic. */
  datatype Item = Plain(inst: Inst) | Branch(rd: nat, to: nat) | Jump(to: nat)

  function Body(body: seq<Inst>): (items: seq<Item>)
    ensures |items| == |body|
  {
    seq(|body|, p requires 0 <= p < |body| => Plain(body[p]))
  }

  /** The jump that ends block i; none when the target is the next block. */
  function Leave(i: nat, to: Option<nat>): seq<Item> {
    match to
    case None => Body(RETURN_UNDEFINED)
    case Some(t) => if t == i + 1 then [] else [Jump(t)]
  }

  function Tail(b: Block, i: nat): seq<Item> {
    if b.brReg != 0 && b.elseTo.Some? then [Branch(b.brReg, b.elseTo.value)] + Leave(i, b.thenTo)
    else Leave(i, b.elseTo)
  }

  function BlockItems(b: Block, i: nat): seq<Item> {
    Body(b.body) + Tail(b, i)
  }

  /** The symbolic code of the first n blocks. */
  function Items(g: Graph, n: nat): seq<Item>
    requires n <= |g|
  {
    if n == 0 then [] else Items(g, n - 1) + BlockItems(g[n - 1], n - 1)
  }

  /** Where a block starts. */
  function Entry(g: Graph, i: nat): nat
    requires i <= |g|
  {
    |Items(g, i)|
  }

  /** The instruction at position p once every entry is known: jumps are
      absolute, conditional branches count from the following instruction. */
  function Resolve(g: Graph, item: Item, p: nat): Inst {
    match item
    case Plain(inst) => inst
    case Branch(rd, to) => IType(I_BNR, rd, (if to < |g| then Entry(g, to) else 0) - p - 1)
    case Jump(to) => IType(I_J, 0, if to < |g| then Entry(g, to) else 0)
  }

  /** The two-pass layout: all entries first, then the code. */
  function Flatten(g: Graph): (code: seq<Inst>)
    ensures |code| == Entry(g, |g|)
  {
    var items := Items(g, |g|);
    seq(|items|, p requires 0 <= p < |items| => Resolve(g, items[p], p))
  }

  /** The code has these items, resolved, from position pc on. */
  ghost predicate Holds(g: Graph, code: seq<Inst>, pc: nat, items: seq<Item>) {
    && pc + |items| <= |code|
    && forall p: nat :: pc <= p < pc + |items| ==> code[p] == Resolve(g, items[p - pc], p)
  }

  lemma HoldsSplit(g: Graph, code: seq<Inst>, pc: nat, a: seq<Item>, b: seq<Item>)
    requires Holds(g, code, pc, a + b)
    ensures Holds(g, code, pc, a) && Holds(g, code, pc + |a|, b)
  {
    hide Resolve;
    forall p: nat | pc <= p < pc + |a| ensures code[p] == Resolve(g, a[p - pc], p) {
      assert (a + b)[p - pc] == a[p - pc];
    }
    forall p: nat | pc + |a| <= p < pc + |a| + |b| ensures code[p] == Resolve(g, b[p - (pc + |a|)], p) {
      assert (a + b)[p - pc] == b[p - (pc + |a|)];
    }
  }

  /** What a block takes in the code: its instructions, one for a branch, and behind
      it nothing if the next block follows, one jump if another block does, and two
      instructions if none does. */
  lemma BlockSize(g: Graph, i: nat)
    requires i < |g| && (g[i].brReg != 0 ==> g[i].elseTo.Some?)
    ensures var b := g[i];
            var last := if b.brReg != 0 then b.thenTo else b.elseTo;
            Entry(g, i + 1) == Entry(g, i) + |b.body| + (if b.brReg != 0 then 1 else 0)
                               + (if last == Some(i + 1) then 0 else if last.Some? then 1 else 2)
  {
    hide Body;
    assert Items(g, i + 1) == Items(g, i) + BlockItems(g[i], i);
  }

  /** The code starts with the layout of the graph; more may follow it. */
  ghost predicate HasCode(g: Graph, code: seq<Inst>) {
    Flatten(g) <= code
  }

  lemma HasCodeHolds(g: Graph, code: seq<Inst>)
    requires HasCode(g, code)
    ensures Holds(g, code, 0, Items(g, |g|))
  {
    hide Resolve, Items;
  }

  /** The code of block i, in place. */
  lemma {:induction false} BlockHolds(g: Graph, code: seq<Inst>, n: nat, i: nat)
    requires i < n <= |g| && Holds(g, code, 0, Items(g, n))
    ensures Holds(g, code, Entry(g, i), BlockItems(g[i], i))
    decreases n
  {
    hide Holds, Resolve, BlockItems;
    var a, b := Items(g, n - 1), BlockItems(g[n - 1], n - 1);
    assert Items(g, n) == a + b;
    hide Items;
    HoldsSplit(g, code, 0, a, b);
    if i < n - 1 {
      BlockHolds(g, code, n - 1, i);
    }
  }

  // ----- machines -----

  datatype Outcome<S, R> = Next(s: S) | Exit(r: R)

  /** What the instructions other than jumps do, and what a branch tests. */
  datatype Machine<!S, !R> = Machine(
    exec: (S, Inst) -> Outcome<S, R>,
    falsy: (S, nat) -> bool,
    undefined: S -> R)

  /** Register 0 always tests false, and the return sequence returns undefined. */
  ghost predicate IsVm<S(!new), R(!new)>(m: Machine<S, R>) {
    && (forall s :: m.falsy(s, 0))
    && (forall s :: RunBody(m, RETURN_UNDEFINED, s) == Exit(m.undefined(s)))
  }

  function RunBody<S, R>(m: Machine<S, R>, body: seq<Inst>, s: S): Outcome<S, R> {
    if body == [] then Next(s)
    else match m.exec(s, body[0]) {
      case Exit(r) => Exit(r)
      case Next(s') => RunBody(m, body[1..], s')
    }
  }

  datatype Config<S, R> = At(pc: int, s: S) | Done(r: R) | Stuck

  /** Where a block goes on after its body. */
  function Successor<S, R>(m: Machine<S, R>, b: Block, s: S): Option<nat> {
    if m.falsy(s, b.brReg) then b.elseTo else b.thenTo
  }

  /** The meaning of the graph: run the body, test the branch register, go on. */
  function GraphStep<S, R>(m: Machine<S, R>, g: Graph, c: Config<S, R>): Config<S, R> {
    if !c.At? then c
    else if !(0 <= c.pc < |g|) then Stuck
    else
      var b := g[c.pc];
      match RunBody(m, b.body, c.s)
      case Exit(r) => Done(r)
      case Next(s) =>
        match Successor(m, b, s)
        case None => Done(m.undefined(s))
        case Some(to) => At(to, s)
  }

  function GraphRun<S, R>(m: Machine<S, R>, g: Graph, c: Config<S, R>, n: nat): (last: Config<S, R>)
    ensures n == 0 ==> last == c
    decreases n
  {
    if n == 0 then c else GraphRun(m, g, GraphStep(m, g, c), n - 1)
  }

  /** One turn of the loop of cvm_state_run. */
  function FlatStep<S, R>(m: Machine<S, R>, code: seq<Inst>, c: Config<S, R>): Config<S, R> {
    if !c.At? then c
    else if !(0 <= c.pc < |code|) then Stuck
    else
      var inst := code[c.pc];
      if inst.op == I_J && inst.IType? then At(inst.imm, c.s)
      else if inst.op == I_BNR && inst.IType? then
        At(if m.falsy(c.s, inst.rd) then c.pc + 1 + inst.imm else c.pc + 1, c.s)
      else
        match m.exec(c.s, inst)
        case Exit(r) => Done(r)
        case Next(s) => At(c.pc + 1, s)
  }

  function FlatRun<S, R>(m: Machine<S, R>, code: seq<Inst>, c: Config<S, R>, n: nat): (last: Config<S, R>)
    ensures n == 0 ==> last == c
    decreases n
  {
    if n == 0 then c else FlatRun(m, code, FlatStep(m, code, c), n - 1)
  }

  lemma FlatRunOne<S, R>(m: Machine<S, R>, code: seq<Inst>, c: Config<S, R>)
    ensures FlatRun(m, code, c, 1) == FlatStep(m, code, c)
  {
    assert FlatRun(m, code, c, 1) == FlatRun(m, code, FlatStep(m, code, c), 0);
  }

  lemma {:induction false} FlatRunAdd<S, R>(m: Machine<S, R>, code: seq<Inst>, c: Config<S, R>, a: nat, b: nat)
    ensures FlatRun(m, code, c, a + b) == FlatRun(m, code, FlatRun(m, code, c, a), b)
    decreases a
  {
    if a > 0 {
      FlatRunAdd(m, code, FlatStep(m, code, c), a - 1, b);
    }
  }

  lemma {:induction false} FlatRunRests<S, R>(m: Machine<S, R>, code: seq<Inst>, c: Config<S, R>, n: nat)
    requires !c.At?
    ensures FlatRun(m, code, c, n) == c
  {
    if n > 0 {
      FlatRunRests(m, code, c, n - 1);
    }
  }

  // ----- one block -----

  /** Straight-line code in place runs as it would on its own. */
  lemma {:induction false} BodyRuns<S, R>(m: Machine<S, R>, code: seq<Inst>, pc: nat, body: seq<Inst>, s: S)
    returns (n: nat)
    requires pc + |body| <= |code| && code[pc..pc + |body|] == body
    requires forall inst :: inst in body ==> !IsJump(inst)
    ensures match RunBody(m, body, s)
            case Exit(r) => n > 0 && FlatRun(m, code, At(pc, s), n) == Done(r)
            case Next(s') => n == |body| && FlatRun(m, code, At(pc, s), n) == At(pc + |body|, s')
    decreases |body|
  {
    if body == [] {
      n := 0;
    } else {
      assert code[pc] == body[0] && body[0] in body;
      var c := FlatStep(m, code, At(pc, s));
      match m.exec(s, body[0])
      case Exit(r) =>
        n := 1;
        FlatRunRests(m, code, c, 0);
      case Next(s') =>
        assert code[pc + 1..pc + 1 + |body[1..]|] == body[1..];
        var k := BodyRuns(m, code, pc + 1, body[1..], s');
        n := k + 1;
    }
  }

  /** Arriving where a successor says: at the entry of its block, or at a return of undefined. */
  function Arrive<S, R>(m: Machine<S, R>, g: Graph, to: Option<nat>, s: S): Config<S, R>
    requires InRange(to, |g|)
  {
    match to
    case None => Done(m.undefined(s))
    case Some(t) => At(Entry(g, t), s)
  }

  lemma SliceIs(code: seq<Inst>, pc: nat, body: seq<Inst>)
    requires pc + |body| <= |code|
    requires forall p: nat :: pc <= p < pc + |body| ==> code[p] == body[p - pc]
    ensures code[pc..pc + |body|] == body
  {
  }

  lemma BodyHolds(g: Graph, code: seq<Inst>, pc: nat, body: seq<Inst>)
    requires Holds(g, code, pc, Body(body))
    ensures pc + |body| <= |code| && code[pc..pc + |body|] == body
  {
    hide Entry;
    forall p: nat | pc <= p < pc + |body| ensures code[p] == body[p - pc] {
      assert Body(body)[p - pc] == Plain(body[p - pc]);
    }
    hide Holds, Body, Resolve;
    SliceIs(code, pc, body);
  }

  /** The body and the end of block i, in place. */
  lemma BlockInPlace(g: Graph, code: seq<Inst>, i: nat)
    requires HasCode(g, code) && i < |g|
    ensures Entry(g, i) + |g[i].body| <= |code|
    ensures code[Entry(g, i)..Entry(g, i) + |g[i].body|] == g[i].body
    ensures Holds(g, code, Entry(g, i) + |g[i].body|, Tail(g[i], i))
    ensures Entry(g, i) + |g[i].body| + |Tail(g[i], i)| == Entry(g, i + 1)
  {
    hide Holds, HasCode, Resolve, Tail, Body, Leave;
    var pc, body := Entry(g, i), g[i].body;
    HasCodeHolds(g, code);
    BlockHolds(g, code, |g|, i);
    assert Entry(g, i + 1) == pc + |Body(body)| + |Tail(g[i], i)|;
    hide Entry;
    HoldsSplit(g, code, pc, Body(body), Tail(g[i], i));
    BodyHolds(g, code, pc, body);
  }

  /** The jump at the end of a block goes where it should. */
  lemma LeaveRuns<S(!new), R(!new)>(m: Machine<S, R>, g: Graph, code: seq<Inst>, i: nat, pc: nat, to: Option<nat>, s: S)
    returns (n: nat)
    requires IsVm(m) && i < |g| && InRange(to, |g|)
    requires Holds(g, code, pc, Leave(i, to))
    requires pc + |Leave(i, to)| == Entry(g, i + 1)
    ensures FlatRun(m, code, At(pc, s), n) == Arrive(m, g, to, s)
    ensures n == 0 ==> to == Some(i + 1)
  {
    match to
    case None =>
      assert RunBody(m, RETURN_UNDEFINED, s) == Exit(m.undefined(s));
      hide IsVm, RunBody, Entry;
      BodyHolds(g, code, pc, RETURN_UNDEFINED);
      n := BodyRuns(m, code, pc, RETURN_UNDEFINED, s);
    case Some(t) =>
      hide IsVm, RunBody, Items;
      if t == i + 1 {
        n := 0;
      } else {
        n := 1;
        assert code[pc] == Resolve(g, Leave(i, to)[pc - pc], pc);
        FlatRunOne(m, code, At(pc, s));
      }
  }

  /** The conditional branch: to the else block, or on. */
  lemma BranchRuns<S, R>(m: Machine<S, R>, g: Graph, code: seq<Inst>, pc: nat, rd: nat, to: nat, s: S)
    requires to < |g| && Holds(g, code, pc, [Branch(rd, to)])
    ensures FlatRun(m, code, At(pc, s), 1) == At(if m.falsy(s, rd) then Entry(g, to) else pc + 1, s)
  {
    hide Entry;
    assert code[pc] == Resolve(g, [Branch(rd, to)][pc - pc], pc);
    FlatRunOne(m, code, At(pc, s));
  }

  /** The test and the jumps after a body. */
  lemma TailRuns<S(!new), R(!new)>(m: Machine<S, R>, g: Graph, code: seq<Inst>, i: nat, pc: nat, s: S) returns (n: nat)
    requires IsVm(m) && i < |g| && Holds(g, code, pc, Tail(g[i], i)) && pc + |Tail(g[i], i)| == Entry(g, i + 1)
    requires InRange(g[i].thenTo, |g|) && InRange(g[i].elseTo, |g|) && (g[i].brReg != 0 ==> g[i].elseTo.Some?)
    ensures InRange(Successor(m, g[i], s), |g|)
    ensures FlatRun(m, code, At(pc, s), n) == Arrive(m, g, Successor(m, g[i], s), s)
    ensures n == 0 ==> Successor(m, g[i], s) == Some(i + 1)
  {
    hide Holds, Entry, FlatRun, Leave, RunBody;
    var b := g[i];
    assert m.falsy(s, 0);
    hide IsVm;
    if b.brReg == 0 {
      n := LeaveRuns(m, g, code, i, pc, b.elseTo, s);
    } else {
      HoldsSplit(g, code, pc, [Branch(b.brReg, b.elseTo.value)], Leave(i, b.thenTo));
      BranchRuns(m, g, code, pc, b.brReg, b.elseTo.value, s);
      if m.falsy(s, b.brReg) {
        n := 1;
      } else {
        var k := LeaveRuns(m, g, code, i, pc + 1, b.thenTo, s);
        FlatRunAdd(m, code, At(pc, s), 1, k);
        n := 1 + k;
      }
    }
  }

  /** The configuration of the flat code that stands at a block's entry. */
  ghost function Flat<S, R>(g: Graph, c: Config<S, R>): Config<S, R> {
    if c.At? && 0 <= c.pc < |g| then At(Entry(g, c.pc), c.s) else c
  }

  ghost predicate InGraph<S, R>(g: Graph, c: Config<S, R>) {
    c != Stuck && (c.At? ==> 0 <= c.pc < |g|)
  }

  /** One block: some number of flat steps do what one graph step does.  Only a
      fall-through to the next block can take no step at all. */
  lemma BlockRuns<S(!new), R(!new)>(m: Machine<S, R>, g: Graph, code: seq<Inst>, i: nat, s: S) returns (n: nat)
    requires IsVm(m) && WellLinked(g) && HasCode(g, code) && i < |g|
    ensures InGraph(g, GraphStep(m, g, At(i, s)))
    ensures FlatRun(m, code, At(Entry(g, i), s), n) == Flat(g, GraphStep(m, g, At(i, s)))
    ensures n == 0 ==> GraphStep(m, g, At(i, s)).At? && GraphStep(m, g, At(i, s)).pc == i + 1
  {
    hide Holds, HasCode, WellLinked, Entry, IsVm, FlatRun, RunBody, Tail, Successor;
    var pc, body := Entry(g, i), g[i].body;
    BlockInPlace(g, code, i);
    WellLinkedBlock(g, i);
    n := BodyRuns(m, code, pc, body, s);
    if RunBody(m, body, s).Next? {
      var s' := RunBody(m, body, s).s;
      var k := TailRuns(m, g, code, i, pc + |body|, s');
      FlatRunAdd(m, code, At(pc, s), n, k);
      n := n + k;
    }
  }

  // ----- whole runs -----

  /** Any number of graph steps is matched by the flat code. */
  lemma {:induction false} GraphToFlat<S(!new), R(!new)>(m: Machine<S, R>, g: Graph, code: seq<Inst>, i: nat,
          s: S, n: nat)
    returns (k: nat)
    requires IsVm(m) && WellLinked(g) && HasCode(g, code) && i < |g|
    ensures FlatRun(m, code, At(Entry(g, i), s), k) == Flat(g, GraphRun(m, g, At(i, s), n))
    decreases n
  {
    hide WellLinked, HasCode, IsVm, Items, FlatRun, GraphStep;
    if n == 0 {
      k := 0;
    } else {
      var a := BlockRuns(m, g, code, i, s);
      var c := GraphStep(m, g, At(i, s));
      if c.At? {
        var b := GraphToFlat(m, g, code, c.pc, c.s, n - 1);
        FlatRunAdd(m, code, At(Entry(g, i), s), a, b);
        k := a + b;
      } else {
        GraphRunRests(m, g, c, n - 1);
        k := a;
      }
    }
  }

  lemma {:induction false} GraphRunRests<S, R>(m: Machine<S, R>, g: Graph, c: Config<S, R>, n: nat)
    requires !c.At?
    ensures GraphRun(m, g, c, n) == c
  {
    if n > 0 {
      GraphRunRests(m, g, c, n - 1);
    }
  }

  /** The flat code never leaves the instruction list, and when it finishes the
      graph finishes with the same result. */
  lemma {:induction false} FlatToGraph<S(!new), R(!new)>(m: Machine<S, R>, g: Graph, code: seq<Inst>, i: nat,
          s: S, k: nat)
    returns (n: nat)
    requires IsVm(m) && WellLinked(g) && HasCode(g, code) && i < |g|
    ensures FlatRun(m, code, At(Entry(g, i), s), k) != Stuck
    ensures FlatRun(m, code, At(Entry(g, i), s), k).Done? ==>
              GraphRun(m, g, At(i, s), n) == FlatRun(m, code, At(Entry(g, i), s), k)
    decreases k, |g| - i
  {
    hide WellLinked, HasCode, IsVm, Items, FlatRun, GraphStep;
    var start := At(Entry(g, i), s);
    var a := BlockRuns(m, g, code, i, s);
    var c := GraphStep(m, g, At(i, s));
    n := 1;
    assert GraphRun(m, g, At(i, s), 1) == GraphRun(m, g, c, 0);
    if a <= k {
      FlatRunAdd(m, code, start, a, k - a);
      if c.At? {
        var rest := FlatToGraph(m, g, code, c.pc, c.s, k - a);
        n := rest + 1;
      } else {
        FlatRunRests(m, code, c, k - a);
      }
    } else {
      FlatRunAdd(m, code, start, k, a - k);
      var mid := FlatRun(m, code, start, k);
      if !mid.At? {
        FlatRunRests(m, code, mid, a - k);
      }
    }
  }

  /** Layout preserves meaning: from any block, for any machine, the flat code
      finishes with a result exactly when the graph does. */
  lemma LayoutPreservesMeaning<S(!new), R(!new)>(m: Machine<S, R>, g: Graph, code: seq<Inst>, i: nat, s: S, r: R)
    requires IsVm(m) && WellLinked(g) && HasCode(g, code) && i < |g|
    ensures (exists n: nat :: GraphRun(m, g, At(i, s), n) == Done(r))
       <==> (exists k: nat :: FlatRun(m, code, At(Entry(g, i), s), k) == Done(r))
    ensures forall k: nat :: FlatRun(m, code, At(Entry(g, i), s), k) != Stuck
  {
    hide WellLinked, HasCode, IsVm, Items, FlatRun, GraphRun;
    if n: nat :| GraphRun(m, g, At(i, s), n) == Done(r) {
      var k := GraphToFlat(m, g, code, i, s, n);
      assert FlatRun(m, code, At(Entry(g, i), s), k) == Done(r);
    }
    forall k: nat
      ensures FlatRun(m, code, At(Entry(g, i), s), k) != Stuck
      ensures FlatRun(m, code, At(Entry(g, i), s), k) == Done(r) ==>
                exists n: nat :: GraphRun(m, g, At(i, s), n) == Done(r)
    {
      var n := FlatToGraph(m, g, code, i, s, k);
    }
  }
}
