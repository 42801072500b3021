/** The state of a layout in progress: which branches are still open, and how
  they are chained through their own immediate fields. */
module Backpatch {
  import opened Values
  import opened Insts
  import opened Layout

  function TargetOf(item: Item): Option<nat> {
    match item
    case Plain(_) => None
    case Branch(_, to) => Some(to)
    case Jump(to) => Some(to)
  }

  /** The last item that branches to block t; -1 if there is none. */
  function Prev(items: seq<Item>, t: nat): (q: int)
    ensures -1 <= q < |items|
    ensures q >= 0 ==> TargetOf(items[q]) == Some(t)
    ensures forall p :: q < p < |items| ==> TargetOf(items[p]) != Some(t)
  {
    if items == [] then -1
    else if TargetOf(items[|items| - 1]) == Some(t) then |items| - 1
    else Prev(items[..|items| - 1], t)
  }

  /** A chain link as it is kept in an entry point: an index times four, tagged as a pointer. */
  function LinkWord(q: int): Word {
    FromPtr(Wrap(4 * q))
  }

  /** `(int)value_to_ptr(entry) >> 2` */
  function LinkOf(w: Word): int
    requires IsPtr(w)
  {
    Signed(ToPtr(w)) / 4
  }

  /** Decoding a link gives the index back as long as the code is shorter than 2^29;
      the initial entry point is the end of the chain. */
  lemma LinkRoundTrip(q: int)
    requires -1 <= q < INT_LIMIT
    ensures IsPtr(LinkWord(q)) && Signed(ToPtr(LinkWord(q))) == 4 * q && LinkOf(LinkWord(q)) == q
    ensures LinkWord(-1) == 0xFFFF_FFFC
  {
  }

  /** An open branch: its immediate links to the previous open branch to the same block. */
  function Pending(items: seq<Item>, p: nat): Inst
    requires p < |items|
  {
    match items[p]
    case Plain(inst) => inst
    case Branch(rd, to) => IType(I_BNR, rd, 4 * Prev(items[..p], to))
    case Jump(to) => IType(I_J, 0, 4 * Prev(items[..p], to))
  }

  /** The instruction at p while the branches to block k are being filled in
      from the end: those after q are done, those up to q are still open. */
  function Expected(g: Graph, items: seq<Item>, k: nat, q: int, p: nat): Inst
    requires p < |items|
  {
    var t := TargetOf(items[p]);
    if t.Some? && (t.value > k || (t.value == k && p <= q)) then Pending(items, p)
    else Resolve(g, items[p], p)
  }

  ghost predicate Filling(g: Graph, items: seq<Item>, code: seq<Inst>, k: nat, q: int) {
    && |code| == |items|
    && forall p: nat :: p < |items| ==> code[p] == Expected(g, items, k, q, p)
  }

  /** The branches to the first k blocks are resolved, all others are open. */
  ghost predicate Patched(g: Graph, items: seq<Item>, code: seq<Inst>, k: nat) {
    Filling(g, items, code, k, |items|)
  }

  lemma FillStart(g: Graph, items: seq<Item>, code: seq<Inst>, k: nat)
    requires Patched(g, items, code, k)
    ensures Filling(g, items, code, k, Prev(items, k))
  {
    hide Resolve, Pending, Prev;
    forall p: nat | p < |items| ensures Expected(g, items, k, |items|, p) == Expected(g, items, k, Prev(items, k), p) {
    }
  }

  /** One step of the fill loop: the link found at q is the next open branch to k. */
  lemma FillStep(g: Graph, items: seq<Item>, code: seq<Inst>, k: nat, q: nat)
    requires Filling(g, items, code, k, q) && q < |items| && TargetOf(items[q]) == Some(k)
    ensures code[q].IType? && code[q].imm / 4 == Prev(items[..q], k)
    ensures Filling(g, items, code[q := Resolve(g, items[q], q)], k, Prev(items[..q], k))
  {
    hide Resolve, Prev;
    assert code[q] == Expected(g, items, k, q, q) == Pending(items, q);
    var r, code' := Prev(items[..q], k), code[q := Resolve(g, items[q], q)];
    forall p: nat | p < |items| ensures code'[p] == Expected(g, items, k, r, p) {
      assert p != q ==> code[p] == Expected(g, items, k, q, p);
      if r < p < q {
        assert items[..q][p] == items[p];
      }
    }
  }

  lemma FillEnd(g: Graph, items: seq<Item>, code: seq<Inst>, k: nat)
    requires Filling(g, items, code, k, -1)
    ensures Patched(g, items, code, k + 1)
  {
    hide Resolve, Pending;
    forall p: nat | p < |items| ensures Expected(g, items, k, -1, p) == Expected(g, items, k + 1, |items|, p) {
      assert TargetOf(items[p]).Some? && TargetOf(items[p]).value > k ==> TargetOf(items[p]).value >= k + 1;
    }
  }

  lemma PrevPush(items: seq<Item>, item: Item, t: nat)
    ensures Prev(items + [item], t) == if TargetOf(item) == Some(t) then |items| else Prev(items, t)
  {
    assert (items + [item])[..|items|] == items;
  }

  lemma PendingPush(items: seq<Item>, item: Item, p: nat)
    requires p < |items|
    ensures Pending(items + [item], p) == Pending(items, p)
  {
    assert (items + [item])[..p] == items[..p];
  }

  /** Emitting one more instruction, resolved or linked to the head of its chain. */
  lemma PushKeeps(g: Graph, items: seq<Item>, code: seq<Inst>, k: nat, item: Item, inst: Inst)
    requires Patched(g, items, code, k)
    requires var t := TargetOf(item);
      inst == if t.Some? && t.value >= k then Pending(items + [item], |items|) else Resolve(g, item, |items|)
    ensures Patched(g, items + [item], code + [inst], k)
  {
    hide Resolve, Prev;
    var items', code' := items + [item], code + [inst];
    forall p: nat | p < |items'| ensures code'[p] == Expected(g, items', k, |items'|, p) {
      if p < |items| {
        PendingPush(items, item, p);
        hide Pending;
        assert code[p] == Expected(g, items, k, |items|, p);
        assert items'[p] == items[p];
      }
    }
  }

  lemma BlockTargets(b: Block, i: nat, p: nat, n: nat)
    requires InRange(b.thenTo, n) && InRange(b.elseTo, n) && p < |BlockItems(b, i)|
    ensures InRange(TargetOf(BlockItems(b, i)[p]), n)
  {
  }

  lemma {:induction false} TargetsInRange(g: Graph, n: nat, p: nat)
    requires WellLinked(g) && n <= |g| && p < |Items(g, n)|
    ensures InRange(TargetOf(Items(g, n)[p]), |g|)
    decreases n
  {
    hide WellLinked, BlockItems, InRange, TargetOf;
    var a, b := Items(g, n - 1), BlockItems(g[n - 1], n - 1);
    assert Items(g, n) == a + b;
    hide Items;
    if p < |a| {
      TargetsInRange(g, n - 1, p);
    } else {
      WellLinkedBlock(g, n - 1);
      BlockTargets(g[n - 1], n - 1, p - |a|, |g|);
    }
  }

  lemma PatchedAt(g: Graph, items: seq<Item>, code: seq<Inst>, k: nat, p: nat)
    requires Patched(g, items, code, k) && p < |items| && InRange(TargetOf(items[p]), k)
    ensures code[p] == Resolve(g, items[p], p)
  {
    hide Resolve, Pending;
    assert code[p] == Expected(g, items, k, |items|, p);
  }

  /** When every target is placed no open branch remains. */
  lemma AllPatched(g: Graph, code: seq<Inst>)
    requires WellLinked(g) && Patched(g, Items(g, |g|), code, |g|)
    ensures code == Flatten(g)
  {
    var items := Items(g, |g|);
    hide Resolve, Items, WellLinked, TargetOf;
    forall p: nat | p < |items| ensures code[p] == Resolve(g, items[p], p) {
      TargetsInRange(g, |g|, p);
      PatchedAt(g, items, code, |g|, p);
    }
    assert |code| == |items|;
  }

  // ----- entry points -----

  /** The entry point of block t when the items are emitted and the first k
      blocks placed: its place, or the head of the chain of its open branches. */
  function Head(g: Graph, items: seq<Item>, k: nat, t: nat): Word
    requires k <= |g|
  {
    if t < k then FromInt(Entry(g, t)) else LinkWord(Prev(items, t))
  }

  /** A layout in progress: the code and the entry points of all blocks. */
  ghost predicate Progress(g: Graph, items: seq<Item>, code: seq<Inst>, heads: seq<Word>, k: nat) {
    && k <= |g| == |heads|
    && |items| < INT_LIMIT
    && Patched(g, items, code, k)
    && forall t: nat :: t < |g| ==> heads[t] == Head(g, items, k, t)
  }

  /** Nothing is placed and no branch emitted: every chain is empty. */
  lemma ProgressStart(g: Graph, heads: seq<Word>)
    requires |heads| == |g| && forall t :: 0 <= t < |heads| ==> heads[t] == 0xFFFF_FFFC
    ensures Progress(g, [], [], heads, 0)
  {
    LinkRoundTrip(-1);
  }

  lemma PlainKeeps(g: Graph, items: seq<Item>, code: seq<Inst>, heads: seq<Word>, k: nat, inst: Inst)
    requires Progress(g, items, code, heads, k) && |items| + 1 < INT_LIMIT
    ensures Progress(g, items + [Plain(inst)], code + [inst], heads, k)
  {
    hide Entry, LinkWord;
    PushKeeps(g, items, code, k, Plain(inst), inst);
    hide Patched;
    forall t: nat | t < |g| ensures heads[t] == Head(g, items + [Plain(inst)], k, t) {
      PrevPush(items, Plain(inst), t);
    }
  }

  /** A branch to a block that is not placed yet joins the chain of that block. */
  lemma OpenKeeps(g: Graph, items: seq<Item>, code: seq<Inst>, heads: seq<Word>, k: nat, item: Item, t: nat)
    requires Progress(g, items, code, heads, k) && |items| + 1 < INT_LIMIT && Entry(g, |g|) < INT_LIMIT
    requires k <= t < |g| && TargetOf(item) == Some(t)
    ensures IsPtr(heads[t])
    ensures var link := Signed(ToPtr(heads[t]));
            var inst := if item.Branch? then IType(I_BNR, item.rd, link) else IType(I_J, 0, link);
      Progress(g, items + [item], code + [inst], heads[t := LinkWord(|items|)], k)
  {
    hide Entry;
    LinkRoundTrip(Prev(items, t));
    hide LinkWord;
    var link := Signed(ToPtr(heads[t]));
    var inst := if item.Branch? then IType(I_BNR, item.rd, link) else IType(I_J, 0, link);
    assert (items + [item])[..|items|] == items;
    PushKeeps(g, items, code, k, item, inst);
    hide Patched;
    forall u: nat | u < |g| ensures heads[t := LinkWord(|items|)][u] == Head(g, items + [item], k, u) {
      PrevPush(items, item, u);
    }
  }

  /** A branch to a block that is already placed is emitted resolved. */
  lemma ClosedKeeps(g: Graph, items: seq<Item>, code: seq<Inst>, heads: seq<Word>, k: nat, item: Item, t: nat)
    requires Progress(g, items, code, heads, k) && |items| + 1 < INT_LIMIT && Entry(g, |g|) < INT_LIMIT
    requires t < k && TargetOf(item) == Some(t)
    ensures IsInt(heads[t]) && ToInt(heads[t]) == Entry(g, t)
    ensures Progress(g, items + [item], code + [Resolve(g, item, |items|)], heads, k)
  {
    EntryMonotone(g, t, |g|);
    hide Entry, Resolve;
    FromIntRoundTrip(Entry(g, t));
    PushKeeps(g, items, code, k, item, Resolve(g, item, |items|));
    hide Patched;
    forall u: nat | u < |g| ensures heads[u] == Head(g, items + [item], k, u) {
      PrevPush(items, item, u);
    }
  }

  lemma {:induction false} EntryMonotone(g: Graph, i: nat, n: nat)
    requires i <= n <= |g|
    ensures Entry(g, i) <= Entry(g, n)
    decreases n
  {
    if i < n {
      EntryMonotone(g, i, n - 1);
    }
  }

  /** Placing block k: its chain is filled in and its entry point becomes its place. */
  lemma PlacedKeeps(g: Graph, items: seq<Item>, code: seq<Inst>, code': seq<Inst>, heads: seq<Word>, k: nat)
    requires Progress(g, items, code, heads, k) && k < |g| && items == Items(g, k)
    requires Patched(g, items, code', k + 1)
    ensures Progress(g, items, code', heads[k := FromInt(|items|)], k + 1)
  {
    hide Patched, LinkWord;
  }
}
