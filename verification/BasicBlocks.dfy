/** Basic blocks of src/ir_builder.c and their tables of known constants. */
module BasicBlocks {
  import opened Values
  import opened Insts
  import opened Tables

  /** `value_from_ptr((void*)(0xFFFFFFFFu << 2))` */
  const NO_ENTRY: Word := 0xFFFF_FFFC

  class BasicBlock {
    const dominator: BasicBlock?
    ghost const above: seq<BasicBlock>
    var instList: seq<Inst>
    var entryPoint: Word
    var brReg: nat
    var thenBb: BasicBlock?
    var elseBb: BasicBlock?
    var constantTable: map<Word, nat>
    var numericValue: map<nat, Word>

    /** This block, its dominator, and so on. */
    ghost function Chain(): (chain: seq<BasicBlock>)
      ensures |chain| > 0 && chain[0] == this
    {
      [this] + above
    }

    /** The dominators form a list that ends. */
    ghost predicate Dominated() {
      forall i :: 0 <= i < |Chain()| ==> LinkAt(Chain(), i)
    }

    /** The registers that hold constants, as far as this block can see. */
    ghost function Constants(): map<Word, nat>
      reads Chain()`constantTable
    {
      View(ConstantTables(Chain()))
    }

    /** The registers whose number this block can see. */
    ghost function Numbers(): map<nat, Word>
      reads Chain()`numericValue
    {
      View(NumericTables(Chain()))
    }

    /** What the blocks above see. */
    ghost function Upper(): (seen: (seq<map<Word, nat>>, seq<map<nat, Word>>))
      reads Chain()`constantTable, Chain()`numericValue
      ensures |seen.0| == |seen.1| == |above|
    {
      (Views(ConstantTables(Chain())[1..]), Views(NumericTables(Chain())[1..]))
    }

    /** No terminator yet: assert_basic_block_not_end. */
    ghost predicate Open()
      reads this`brReg, this`elseBb
    {
      brReg == 0 && elseBb == null
    }

    /** _ir_builder_basic_block_new: register 0 holds the constant 0. */
    constructor (dominator: BasicBlock?)
      requires dominator != null ==> dominator.Dominated()
      ensures this.dominator == dominator && Dominated()
      ensures Chain() == [this] + if dominator == null then [] else dominator.Chain()
      ensures instList == [] && entryPoint == NO_ENTRY && brReg == 0 && thenBb == null && elseBb == null
      ensures constantTable == map[FromInt(0) := 0] && numericValue == map[0 := FromInt(0)]
    {
      this.dominator := dominator;
      above := if dominator == null then [] else dominator.Chain();
      instList, entryPoint, brReg, thenBb, elseBb := [], NO_ENTRY, 0, null, null;
      constantTable, numericValue := map[FromInt(0) := 0], map[0 := FromInt(0)];
      new;
      ghost var chain := Chain();
      forall i | 0 <= i < |chain| ensures LinkAt(chain, i) {
        if i > 0 {
          assert LinkAt(above, i - 1);
          assert chain[i + 1..] == above[i..];
        } else {
          assert chain[1..] == above;
        }
      }
    }

    /** ir_builder_br, on a block that has not ended yet. */
    method Br(rd: nat, thenBb: BasicBlock, elseBb: BasicBlock)
      requires Open()
      modifies this`brReg, this`thenBb, this`elseBb
      ensures brReg == rd && this.thenBb == thenBb && this.elseBb == elseBb
    {
      brReg := rd;
      this.thenBb := thenBb;
      this.elseBb := elseBb;
    }

    /** ir_builder_j */
    method J(successor: BasicBlock)
      requires Open()
      modifies this`brReg, this`elseBb
      ensures brReg == 0 && elseBb == successor
    {
      brReg := 0;
      elseBb := successor;
    }

    /** hash_set_and_update on the block's own constants. */
    method SetConstant(constant: Word, reg: nat)
      requires Dominated()
      modifies this`constantTable
      ensures Constants() == old(Constants())[constant := reg]
      ensures Upper() == old(Upper())
    {
      hide View, Views, ConstantTables, LinkAt;
      ghost var tables: seq<map<Word, nat>> := ConstantTables(Chain());
      HeadOnly(this);
      constantTable := constantTable[constant := reg];
      ViewPut(tables, constant, reg);
      assert ConstantTables(Chain()) == tables[0 := constantTable];
    }

    /** hash_set_and_update on the block's own known numbers. */
    method SetNumeric(reg: nat, value: Word)
      requires Dominated()
      modifies this`numericValue
      ensures Numbers() == old(Numbers())[reg := value]
      ensures Upper() == old(Upper())
    {
      hide View, Views, NumericTables, LinkAt;
      ghost var tables: seq<map<nat, Word>> := NumericTables(Chain());
      HeadOnly(this);
      numericValue := numericValue[reg := value];
      ViewPut(tables, reg, value);
      assert NumericTables(Chain()) == tables[0 := numericValue];
    }

    /** A constant has been loaded into a register. */
    method Record(constant: Word, reg: nat)
      requires Dominated()
      modifies this`constantTable, this`numericValue
      ensures Constants() == old(Constants())[constant := reg]
      ensures Numbers() == old(Numbers())[reg := constant]
      ensures Upper() == old(Upper())
    {
      hide Constants, Numbers, Upper, LinkAt, Dominated;
      ghost var chain := Chain();
      SetConstant(constant, reg);
      SetNumeric(reg, constant);
    }

    /** The second loop of _ir_builder_find_in_constant_table: what was found in the
        i-th block is copied to every table on the way, and no block sees a difference. */
    method CacheConstant(constant: Word, value: nat, ghost i: nat)
      requires Dominated() && i < |Chain()|
      requires constant in Chain()[i].constantTable && Chain()[i].constantTable[constant] == value
      requires forall j :: 0 <= j < i ==> constant !in Chain()[j].constantTable
      modifies Chain()`constantTable
      ensures Constants() == old(Constants())
      ensures Upper() == old(Upper())
    {
      hide View, Views, LinkAt, ConstantTables;
      ghost var chain, k := Chain(), 0;
      ghost var tables: seq<map<Word, nat>> := ConstantTables(chain);
      var begin: BasicBlock? := this;
      while begin != null && constant !in begin.constantTable
        invariant k <= i && begin == BlockAt(chain, k)
        invariant forall j :: 0 <= j < |chain| ==>
          chain[j].constantTable == if j < k then (tables[j][constant := value]) else tables[j]
        decreases i - k
      {
        NextBlock(chain, k);
        begin.constantTable := begin.constantTable[constant := value];
        begin := begin.dominator;
        k := k + 1;
      }
      assert Cached(tables, ConstantTables(chain), constant, value, k);
      CachingKeepsAll(tables, ConstantTables(chain), constant, i, k);
    }

    /** _ir_builder_find_in_constant_table: what is found further up is copied to
        every table on the way, and no block sees a difference. */
    method FindInConstantTable(constant: Word) returns (result: Option<nat>)
      requires Dominated()
      modifies Chain()`constantTable
      ensures result == EntryOf(old(Constants()), constant)
      ensures Constants() == old(Constants())
      ensures Upper() == old(Upper())
    {
      hide View, Views, LinkAt, ConstantTables;
      ghost var chain, i := Chain(), 0;
      ghost var tables: seq<map<Word, nat>> := ConstantTables(chain);
      var bb: BasicBlock? := this;
      while bb != null
        invariant i <= |chain| && bb == BlockAt(chain, i)
        invariant forall j :: 0 <= j < |chain| ==> chain[j].constantTable == tables[j]
        invariant forall j :: 0 <= j < i ==> constant !in tables[j]
        decreases |chain| - i
      {
        if constant in bb.constantTable {
          var value := bb.constantTable[constant];
          ViewAt(tables, constant, i);
          assert ConstantTables(chain) == tables;
          CacheConstant(constant, value, i);
          return Some(value);
        }
        NextBlock(chain, i);
        bb := bb.dominator;
        i := i + 1;
      }
      ViewNowhere(tables, constant);
      assert ConstantTables(chain) == tables;
      result := None;
    }

    /** The second loop of _ir_builder_find_in_numeric_table: what was found in the
        i-th block is copied to every table on the way, and no block sees a difference. */
    method CacheNumeric(reg: nat, value: Word, ghost i: nat)
      requires Dominated() && i < |Chain()|
      requires reg in Chain()[i].numericValue && Chain()[i].numericValue[reg] == value
      requires forall j :: 0 <= j < i ==> reg !in Chain()[j].numericValue
      modifies Chain()`numericValue
      ensures Numbers() == old(Numbers())
      ensures Upper() == old(Upper())
    {
      hide View, Views, LinkAt, NumericTables;
      ghost var chain, k := Chain(), 0;
      ghost var tables: seq<map<nat, Word>> := NumericTables(chain);
      var begin: BasicBlock? := this;
      while begin != null && reg !in begin.numericValue
        invariant k <= i && begin == BlockAt(chain, k)
        invariant forall j :: 0 <= j < |chain| ==>
          chain[j].numericValue == if j < k then (tables[j][reg := value]) else tables[j]
        decreases i - k
      {
        NextBlock(chain, k);
        begin.numericValue := begin.numericValue[reg := value];
        begin := begin.dominator;
        k := k + 1;
      }
      assert Cached(tables, NumericTables(chain), reg, value, k);
      CachingKeepsAll(tables, NumericTables(chain), reg, i, k);
    }

    /** _ir_builder_find_in_numeric_table */
    method FindInNumericTable(reg: nat) returns (result: Option<Word>)
      requires Dominated()
      modifies Chain()`numericValue
      ensures result == EntryOf(old(Numbers()), reg)
      ensures Numbers() == old(Numbers())
      ensures Upper() == old(Upper())
    {
      hide View, Views, LinkAt, NumericTables;
      ghost var chain, i := Chain(), 0;
      ghost var tables: seq<map<nat, Word>> := NumericTables(chain);
      var bb: BasicBlock? := this;
      while bb != null
        invariant i <= |chain| && bb == BlockAt(chain, i)
        invariant forall j :: 0 <= j < |chain| ==> chain[j].numericValue == tables[j]
        invariant forall j :: 0 <= j < i ==> reg !in tables[j]
        decreases |chain| - i
      {
        if reg in bb.numericValue {
          var value := bb.numericValue[reg];
          ViewAt(tables, reg, i);
          assert NumericTables(chain) == tables;
          CacheNumeric(reg, value, i);
          return Some(value);
        }
        NextBlock(chain, i);
        bb := bb.dominator;
        i := i + 1;
      }
      ViewNowhere(tables, reg);
      assert NumericTables(chain) == tables;
      result := None;
    }
  }

  /** Each block's dominator is the next block, and no block comes twice. */
  ghost predicate LinkAt(chain: seq<BasicBlock>, i: nat)
    requires i < |chain|
  {
    && chain[i].dominator == BlockAt(chain, i + 1)
    && chain[i].above == chain[i + 1..]
    && chain[i] !in chain[i + 1..]
  }

  ghost function BlockAt(chain: seq<BasicBlock>, i: nat): BasicBlock? {
    if i < |chain| then chain[i] else null
  }

  lemma NextBlock(chain: seq<BasicBlock>, i: nat)
    requires i < |chain| && forall j :: 0 <= j < |chain| ==> LinkAt(chain, j)
    ensures chain[i].dominator == BlockAt(chain, i + 1)
    ensures forall j :: 0 <= j < |chain| && j != i ==> chain[j] != chain[i]
  {
    assert LinkAt(chain, i);
    forall j | 0 <= j < |chain| && j != i ensures chain[j] != chain[i] {
      assert LinkAt(chain, j);
      if i < j {
        assert chain[j] == chain[i + 1..][j - i - 1];
      } else {
        assert chain[i] == chain[j + 1..][i - j - 1];
      }
    }
  }

  /** Writing to a block's tables leaves those of its dominators alone. */
  lemma HeadOnly(bb: BasicBlock)
    requires bb.Dominated()
    ensures forall j :: 0 < j < |bb.Chain()| ==> bb.Chain()[j] != bb
  {
    NextBlock(bb.Chain(), 0);
  }

  ghost function EntryOf<K, V>(m: map<K, V>, key: K): Option<V> {
    if key in m then Some(m[key]) else None
  }

  ghost function ConstantTables(chain: seq<BasicBlock>): (tables: seq<map<Word, nat>>)
    reads chain`constantTable
    ensures |tables| == |chain|
    ensures forall i :: 0 <= i < |chain| ==> tables[i] == chain[i].constantTable
  {
    if chain == [] then [] else ConstantTables(chain[..|chain| - 1]) + [chain[|chain| - 1].constantTable]
  }

  ghost function NumericTables(chain: seq<BasicBlock>): (tables: seq<map<nat, Word>>)
    reads chain`numericValue
    ensures |tables| == |chain|
    ensures forall i :: 0 <= i < |chain| ==> tables[i] == chain[i].numericValue
  {
    if chain == [] then [] else NumericTables(chain[..|chain| - 1]) + [chain[|chain| - 1].numericValue]
  }
}
