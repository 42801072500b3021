/** The order in which a collection meets pointers, as a property of the heap it
  starts from, and when that order is one the collector can cope with. */
module Orders {
  import opened Values
  import opened Probe
  import opened HashTables
  import opened HashRuns
  import opened Heaps
  import opened Redirects

  /** The table that a copy is scanned in: half the size when less than half is taken. */
  ghost function Shrunken(o: Obj): Obj
    requires TableOk(o)
  {
    if NeedShrink(o.size, |o.nodes|) then
      TableCapacity(o.nodes);
      Obj(o.kind, o.info, o.size, Halved(o.nodes))
    else o
  }

  /** The pointers in a table, slot by slot. */
  function PointersOf(nodes: seq<Node>): seq<Word> {
    if nodes == [] then []
    else
      var last := |nodes| - 1;
      PointersOf(nodes[..last]) + if HoldsPtr(nodes[last]) then [nodes[last].value] else []
  }

  /** The pointers that scanning the copy of an object meets. */
  ghost function Slots(o: Obj): seq<Word> {
    if TableOk(o) then PointersOf(Shrunken(o).nodes) else []
  }

  lemma OneFewerObject(h: Heap, m: set<Word>, v: Word)
    requires v in Objects(h) && v !in m
    ensures v in h && h[v].Obj? && |Objects(h) - (m + {v})| < |Objects(h) - m|
  {
    assert Objects(h) - m == (Objects(h) - (m + {v})) + {v};
  }

  /** The objects met, in depth-first order, by following the pointers on the
      stack and those in the fields of every object met for the first time, without looking
      through redirects; `m` has been met before. */
  ghost function Meets(h: Heap, m: set<Word>, stack: seq<Word>): (met: set<Word>)
    ensures m <= met
    ensures m <= Objects(h) ==> met <= Objects(h)
    decreases |Objects(h) - m|, |stack|
  {
    if stack == [] then m
    else
      var v, rest := stack[0], stack[1..];
      if v in m || v !in Objects(h) then Meets(h, m, rest)
      else
        OneFewerObject(h, m, v);
        Meets(h, m + {v}, Slots(h[v]) + rest)
  }

  /** On the way every redirect is met after the object behind it. */
  ghost predicate Ordered(h: Heap, m: set<Word>, stack: seq<Word>)
    decreases |Objects(h) - m|, |stack|
  {
    if stack == [] then true
    else
      var v, rest := stack[0], stack[1..];
      if v in Objects(h) then
        if v in m then Ordered(h, m, rest)
        else
          OneFewerObject(h, m, v);
          Ordered(h, m + {v}, Slots(h[v]) + rest)
      else (Resolves(h, v) ==> RootOf(h, v) in m) && Ordered(h, m, rest)
  }

  /** Going through one list of pointers and then another. */
  lemma {:induction false} Append(h: Heap, m: set<Word>, a: seq<Word>, b: seq<Word>)
    ensures Meets(h, m, a + b) == Meets(h, Meets(h, m, a), b)
    ensures Ordered(h, m, a + b) <==> Ordered(h, m, a) && Ordered(h, Meets(h, m, a), b)
    decreases |Objects(h) - m|, |a|
  {
    hide Slots, Objects, Resolves, RootOf;
    if a == [] {
      assert a + b == b;
    } else {
      var v, rest := a[0], a[1..];
      assert (a + b)[1..] == rest + b;
      if v in m || v !in Objects(h) {
        Append(h, m, rest, b);
      } else {
        OneFewerObject(h, m, v);
        assert Slots(h[v]) + (rest + b) == (Slots(h[v]) + rest) + b;
        Append(h, m + {v}, Slots(h[v]) + rest, b);
      }
    }
  }

  // ----- the same as a property of one line -----

  ghost function ToSet(line: seq<Word>): set<Word> {
    set v | v in line
  }

  /** All pointers met, redirects included, in the order in which they are met. */
  ghost function Line(h: Heap, met: seq<Word>, stack: seq<Word>): (line: seq<Word>)
    ensures met <= line
    decreases |Objects(h) - ToSet(met)|, |stack|
  {
    if stack == [] then met
    else
      var v, rest := stack[0], stack[1..];
      assert ToSet(met + [v]) == ToSet(met) + {v};
      if v in met || v !in Objects(h) then
        assert Objects(h) - ToSet(met + [v]) == Objects(h) - ToSet(met);
        Line(h, met + [v], rest)
      else
        OneFewerObject(h, ToSet(met), v);
        Line(h, met + [v], Slots(h[v]) + rest)
  }

  /** Every redirect stands behind the object that it leads to. */
  ghost predicate InLine(h: Heap, line: seq<Word>) {
    forall i :: 0 <= i < |line| && line[i] !in Objects(h) && Resolves(h, line[i]) ==> RootOf(h, line[i]) in line[..i]
  }

  lemma InLinePrefix(h: Heap, a: seq<Word>, b: seq<Word>)
    requires a <= b && InLine(h, b)
    ensures InLine(h, a)
  {
    hide Objects, Resolves, RootOf;
    forall i | 0 <= i < |a| && a[i] !in Objects(h) && Resolves(h, a[i]) ensures RootOf(h, a[i]) in a[..i] {
      assert b[i] == a[i] && b[..i] == a[..i];
    }
  }

  lemma InLineNext(h: Heap, line: seq<Word>, v: Word)
    requires InLine(h, line)
    ensures InLine(h, line + [v]) <==> (v !in Objects(h) && Resolves(h, v) ==> RootOf(h, v) in line)
  {
    hide Objects, Resolves, RootOf;
    var next := line + [v];
    forall i | 0 <= i < |line| ensures next[i] == line[i] && next[..i] == line[..i] {
    }
    assert next[..|line|] == line;
  }

  /** The order of the traversal is the order of that line. */
  lemma {:induction false} OrderedIff(h: Heap, met: seq<Word>, stack: seq<Word>)
    requires HeapLeads(h) && InLine(h, met)
    ensures Ordered(h, ToSet(met) * Objects(h), stack) <==> InLine(h, Line(h, met, stack))
    decreases |Objects(h) - ToSet(met)|, |stack|
  {
    hide Slots, Objects, Resolves, RootOf, InLine, HeapLeads;
    if stack != [] {
      var m, v, rest := ToSet(met) * Objects(h), stack[0], stack[1..];
      assert ToSet(met + [v]) == ToSet(met) + {v};
      InLineNext(h, met, v);
      if v in met && v in Objects(h) {
        assert ToSet(met + [v]) * Objects(h) == m;
        OrderedIff(h, met + [v], rest);
      } else if v in Objects(h) {
        OneFewerObject(h, ToSet(met), v);
        assert ToSet(met + [v]) * Objects(h) == m + {v};
        OrderedIff(h, met + [v], Slots(h[v]) + rest);
      } else {
        assert ToSet(met + [v]) * Objects(h) == m;
        assert Objects(h) - ToSet(met + [v]) == Objects(h) - ToSet(met);
        if Resolves(h, v) {
          LedToObject(h, v);
        }
        if InLine(h, met + [v]) {
          assert Ordered(h, m, stack) == Ordered(h, m, rest);
          OrderedIff(h, met + [v], rest);
        } else if InLine(h, Line(h, met, stack)) {
          InLinePrefix(h, met + [v], Line(h, met, stack));
        }
      }
    }
  }

  // ----- what marking some pointers comes to -----

  /** From the moved addresses m, marking what the stack points at moves exactly
      the objects met if they are met in order, and otherwise moves a redirect header. */
  ghost predicate Outcome(h: Heap, m: set<Word>, stack: seq<Word>, m': set<Word>) {
    && m <= m'
    && (m <= Objects(h) ==> if Ordered(h, m, stack) then m' == Meets(h, m, stack) else !(m' <= Objects(h)))
  }

  lemma OutcomeNothing(h: Heap, m: set<Word>)
    ensures Outcome(h, m, [], m)
  {
  }

  lemma OutcomeAppend(h: Heap, m: set<Word>, a: seq<Word>, m1: set<Word>, b: seq<Word>, m2: set<Word>)
    requires Outcome(h, m, a, m1) && Outcome(h, m1, b, m2)
    ensures Outcome(h, m, a + b, m2)
  {
    hide Meets, Ordered, Objects;
    Append(h, m, a, b);
  }

  /** A pointer at an object: nothing if it has been moved, otherwise the object and its fields. */
  lemma OutcomeObject(h: Heap, m: set<Word>, v: Word, m': set<Word>)
    requires v in Objects(h) && (if v in m then m' == m else Outcome(h, m + {v}, Slots(h[v]), m'))
    ensures Outcome(h, m, [v], m')
  {
    hide Slots, Objects;
    assert [v][1..] == [];
    assert Ordered(h, m, []) && Meets(h, m, []) == m;
    if v !in m {
      OneFewerObject(h, m, v);
      assert Slots(h[v]) + [] == Slots(h[v]);
    }
  }

  /** A pointer at a redirect: nothing if the object behind it has been moved; otherwise the header. */
  lemma OutcomeRedirect(h: Heap, m: set<Word>, v: Word, m': set<Word>)
    requires HeapLeads(h) && Resolves(h, v) && v !in Objects(h) && m <= m'
    requires m <= Objects(h) ==> if RootOf(h, v) in m then m' == m else v in m'
    ensures Outcome(h, m, [v], m')
  {
    hide Slots, Objects, Resolves, RootOf, HeapLeads;
    assert [v][1..] == [];
    assert Ordered(h, m, []) && Meets(h, m, []) == m;
  }
}
