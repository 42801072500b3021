/** Tables along a chain of dominating blocks: a block sees its own entries and,
  behind them, those of the blocks that dominate it. */
module Tables {

  /** What the first table of the chain sees. */
  ghost function View<K, V>(tables: seq<map<K, V>>): map<K, V> {
    if tables == [] then map[] else View(tables[1..]) + tables[0]
  }

  /** What each table of the chain sees. */
  ghost function Views<K, V>(tables: seq<map<K, V>>): (seen: seq<map<K, V>>)
    ensures |seen| == |tables|
  {
    seq(|tables|, i requires 0 <= i < |tables| => View(tables[i..]))
  }

  lemma ViewsStep<K, V>(tables: seq<map<K, V>>)
    requires tables != []
    ensures Views(tables) == [View(tables)] + Views(tables[1..])
  {
    hide View;
    assert tables[0..] == tables;
    forall i | 1 <= i < |tables| ensures tables[i..] == tables[1..][i - 1..] {
    }
  }

  lemma {:induction false} ViewAt<K, V>(tables: seq<map<K, V>>, key: K, i: nat)
    requires i < |tables| && key in tables[i] && forall j :: 0 <= j < i ==> key !in tables[j]
    ensures key in View(tables) && View(tables)[key] == tables[i][key]
    decreases i
  {
    if i > 0 {
      ViewAt(tables[1..], key, i - 1);
    }
  }

  lemma {:induction false} ViewNowhere<K, V>(tables: seq<map<K, V>>, key: K)
    requires forall j :: 0 <= j < |tables| ==> key !in tables[j]
    ensures key !in View(tables)
  {
    if tables != [] {
      ViewNowhere(tables[1..], key);
    }
  }

  /** An entry in the block's own table. */
  lemma ViewPut<K, V>(tables: seq<map<K, V>>, key: K, value: V)
    requires tables != []
    ensures View(tables[0 := tables[0][key := value]]) == View(tables)[key := value]
  {
    assert tables[0 := tables[0][key := value]][1..] == tables[1..];
  }

  /** The chain after the entry found at place i has been copied to the first k places. */
  ghost predicate Cached<K, V>(tables: seq<map<K, V>>, tables': seq<map<K, V>>, key: K, value: V, k: nat) {
    && |tables'| == |tables|
    && forall j :: 0 <= j < |tables| ==> tables'[j] == if j < k then tables[j][key := value] else tables[j]
  }

  /** Copies of an entry change nothing that any block of the chain sees. */
  lemma {:induction false} CachingKeepsViews<K, V>(tables: seq<map<K, V>>, tables': seq<map<K, V>>, key: K,
          i: nat, k: nat, from: nat)
    requires i < |tables| && key in tables[i] && forall j :: 0 <= j < i ==> key !in tables[j]
    requires k <= i && Cached(tables, tables', key, tables[i][key], k) && from <= |tables|
    ensures View(tables'[from..]) == View(tables[from..])
    decreases |tables| - from
  {
    if from < |tables| {
      CachingKeepsViews(tables, tables', key, i, k, from + 1);
      assert tables[from..][1..] == tables[from + 1..] && tables'[from..][1..] == tables'[from + 1..];
      if from < k {
        var rest := tables[from + 1..];
        ViewAt(rest, key, i - from - 1);
        assert tables'[from] == tables[from][key := tables[i][key]];
      }
    }
  }

  lemma CachingKeepsAll<K, V>(tables: seq<map<K, V>>, tables': seq<map<K, V>>, key: K, i: nat, k: nat)
    requires i < |tables| && key in tables[i] && forall j :: 0 <= j < i ==> key !in tables[j]
    requires k <= i && Cached(tables, tables', key, tables[i][key], k)
    ensures View(tables') == View(tables) && Views(tables'[1..]) == Views(tables[1..])
  {
    hide View, Cached;
    CachedSize(tables, tables', key, tables[i][key], k);
    CachingKeepsViews(tables, tables', key, i, k, 0);
    assert tables[0..] == tables && tables'[0..] == tables';
    forall j | 0 <= j < |tables| - 1 ensures View(tables'[1..][j..]) == View(tables[1..][j..]) {
      CachingKeepsViews(tables, tables', key, i, k, j + 1);
      assert tables'[1..][j..] == tables'[j + 1..] && tables[1..][j..] == tables[j + 1..];
    }
  }

  lemma CachedSize<K, V>(tables: seq<map<K, V>>, tables': seq<map<K, V>>, key: K, value: V, k: nat)
    requires Cached(tables, tables', key, value, k)
    ensures |tables'| == |tables|
  {
  }
}
