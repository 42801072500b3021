/** Redirect headers: an object that outgrew its table is reached through a
  chain of headers. */
module Redirects {
  import opened Values
  import opened HashTables
  import opened Heaps

  /** Follow at most n redirect headers. */
  ghost function Chase(h: Heap, a: Word, n: nat): Option<Word>
    decreases n
  {
    if a !in h then None
    else if !h[a].Redirect? then Some(a)
    else if n == 0 then None
    else Chase(h, h[a].to, n - 1)
  }

  /** The chain from this address ends. */
  ghost predicate Resolves(h: Heap, a: Word) {
    a in h && exists n: nat :: Chase(h, a, n).Some?
  }

  /** The object at the end of the chain. */
  ghost function RootOf(h: Heap, a: Word): Word
    requires Resolves(h, a)
  {
    var n: nat :| Chase(h, a, n).Some?;
    Chase(h, a, n).value
  }

  lemma {:induction false} ChaseUnique(h: Heap, a: Word, n: nat, m: nat)
    requires Chase(h, a, n).Some? && Chase(h, a, m).Some?
    ensures Chase(h, a, n) == Chase(h, a, m)
    decreases n
  {
    if h[a].Redirect? {
      ChaseUnique(h, h[a].to, n - 1, m - 1);
    }
  }

  lemma RootIs(h: Heap, a: Word, n: nat)
    requires Chase(h, a, n).Some?
    ensures Resolves(h, a) && RootOf(h, a) == Chase(h, a, n).value
  {
    var m: nat :| Chase(h, a, m).Some? && RootOf(h, a) == Chase(h, a, m).value;
    ChaseUnique(h, a, n, m);
  }

  lemma {:induction false} ChaseEnd(h: Heap, a: Word, n: nat)
    requires Chase(h, a, n).Some?
    ensures Chase(h, a, n).value in h && !h[Chase(h, a, n).value].Redirect?
    decreases n
  {
    if h[a].Redirect? {
      ChaseEnd(h, h[a].to, n - 1);
    }
  }

  /** A root is an object proper and resolves to itself. */
  lemma RootIsObject(h: Heap, a: Word)
    requires Resolves(h, a)
    ensures RootOf(h, a) in h && !h[RootOf(h, a)].Redirect?
    ensures Resolves(h, RootOf(h, a)) && RootOf(h, RootOf(h, a)) == RootOf(h, a)
  {
    var m: nat :| Chase(h, a, m).Some? && RootOf(h, a) == Chase(h, a, m).value;
    ChaseEnd(h, a, m);
    RootIs(h, RootOf(h, a), 0);
  }

  /** One step along a chain keeps its end. */
  lemma RootStep(h: Heap, a: Word)
    requires Resolves(h, a) && h[a].Redirect?
    ensures Resolves(h, h[a].to) && RootOf(h, h[a].to) == RootOf(h, a)
  {
    var m: nat :| Chase(h, a, m).Some? && RootOf(h, a) == Chase(h, a, m).value;
    RootIs(h, h[a].to, m - 1);
  }

  /** The number of headers on the chain. */
  ghost function Hops(h: Heap, a: Word): (n: nat)
    requires Resolves(h, a)
    ensures Chase(h, a, n).Some?
  {
    var n: nat :| Chase(h, a, n).Some?;
    FewestHops(h, a, n)
  }

  ghost function FewestHops(h: Heap, a: Word, n: nat): (m: nat)
    requires Chase(h, a, n).Some?
    ensures Chase(h, a, m).Some? && m <= n
    decreases n
  {
    if !h[a].Redirect? then 0 else 1 + FewestHops(h, h[a].to, n - 1)
  }

  lemma {:induction false} FewestHopsUnique(h: Heap, a: Word, n: nat, m: nat)
    requires Chase(h, a, n).Some? && Chase(h, a, m).Some?
    ensures FewestHops(h, a, n) == FewestHops(h, a, m)
    decreases n
  {
    if h[a].Redirect? {
      FewestHopsUnique(h, h[a].to, n - 1, m - 1);
    }
  }

  /** Every step of the redirect loop comes closer to the end. */
  lemma HopsStep(h: Heap, a: Word)
    requires Resolves(h, a) && h[a].Redirect?
    ensures Resolves(h, h[a].to) && Hops(h, h[a].to) < Hops(h, a)
  {
    RootStep(h, a);
    var n: nat :| Chase(h, a, n).Some? && Hops(h, a) == FewestHops(h, a, n);
    var m: nat :| Chase(h, h[a].to, m).Some? && Hops(h, h[a].to) == FewestHops(h, h[a].to, m);
    FewestHopsUnique(h, h[a].to, m, n - 1);
    assert FewestHops(h, a, n) == 1 + FewestHops(h, h[a].to, n - 1);
  }

  // ----- heaps whose pointers lead to objects -----

  /** The addresses from which a chain ends. */
  ghost function Led(h: Heap): set<Word> {
    set a | a in h && Resolves(h, a)
  }

  /** A heap between collections: tables are well formed, and every pointer in a
      field leads to an object, at once or through redirects. */
  ghost predicate HeapLeads(h: Heap) {
    forall a :: a in h ==> !h[a].GcLeft? && (h[a].Obj? ==> TableOk(h[a]) && PtrsIn(h[a], Led(h)))
  }

  /** Both lead to the same object. */
  ghost predicate SameRoot(h: Heap, a: Word, c: Word) {
    Resolves(h, a) && Resolves(h, c) && RootOf(h, a) == RootOf(h, c)
  }

  lemma ObjectResolves(h: Heap, a: Word)
    requires a in h && h[a].Obj?
    ensures Resolves(h, a) && RootOf(h, a) == a
  {
    RootIs(h, a, 0);
  }

  /** Where a chain of a heap without forwarding headers ends there is an object. */
  lemma LedToObject(h: Heap, a: Word)
    requires HeapLeads(h) && Resolves(h, a)
    ensures RootOf(h, a) in Objects(h) && a in h && (a in Objects(h) ==> RootOf(h, a) == a)
  {
    hide TableOk, PtrsIn, Led;
    RootIsObject(h, a);
    if h[a].Obj? {
      ObjectResolves(h, a);
    }
  }

  /** Fields that point at objects at once lead to them. */
  lemma FitLeads(h: Heap)
    requires HeapOk(h)
    ensures HeapLeads(h)
  {
    hide TableOk, Resolves, RootOf;
    forall a | a in h && h[a].Obj? ensures PtrsIn(h[a], Led(h)) {
      forall i: nat | i < |h[a].nodes| && HoldsPtr(h[a].nodes[i]) ensures h[a].nodes[i].value in Led(h) {
        ObjectResolves(h, h[a].nodes[i].value);
      }
    }
  }
}
