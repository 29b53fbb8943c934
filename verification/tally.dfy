/** Counting into a dictionary, as the dashboard's `dealsByStage` and the
    reports' `sourceCounts` do with `reduce`: `acc[k] = (acc[k] || 0) + 1` for
    each key, then `Object.entries(acc)`. The dictionary is a list of
    (key, count) entries in insertion order, which is the order
    `Object.entries` gives for string keys. */
module Tally {
  import opened Wrappers

  /** The keys of the entries, in order. */
  function KeysOf<K>(entries: seq<(K, nat)>): (ks: seq<K>)
    ensures |ks| == |entries|
    ensures forall i :: 0 <= i < |entries| ==> ks[i] == entries[i].0
  {
    seq(|entries|, i requires 0 <= i < |entries| => entries[i].0)
  }

  function SumCounts<K>(entries: seq<(K, nat)>): nat
  {
    if |entries| == 0 then 0 else SumCounts(entries[..|entries| - 1]) + entries[|entries| - 1].1
  }

  /** The distinct keys, in order of first occurrence. */
  function Distinct<K(==)>(keys: seq<K>): seq<K>
  {
    if |keys| == 0 then []
    else
      var d := Distinct(keys[..|keys| - 1]);
      if keys[|keys| - 1] in d then d else d + [keys[|keys| - 1]]
  }

  /** The distinct keys are exactly the keys, each once. */
  lemma {:induction false} DistinctKeys<K>(keys: seq<K>)
    ensures forall k :: k in Distinct(keys) <==> k in keys
    ensures forall i, j :: 0 <= i < j < |Distinct(keys)| ==> Distinct(keys)[i] != Distinct(keys)[j]
  {
    if |keys| > 0 {
      var init := keys[..|keys| - 1];
      DistinctKeys(init);
      assert keys == init + [keys[|keys| - 1]];
    }
  }

  /** Where key `k` sits among the entries, if it does. */
  function IndexOfKey<K(==)>(entries: seq<(K, nat)>, k: K): (r: Option<nat>)
    ensures r.Some? ==> r.value < |entries| && entries[r.value].0 == k
    ensures r.None? ==> forall i :: 0 <= i < |entries| ==> entries[i].0 != k
  {
    if |entries| == 0 then None
    else if entries[|entries| - 1].0 == k then Some(|entries| - 1)
    else IndexOfKey(entries[..|entries| - 1], k)
  }

  lemma {:induction false} SumCountsAppend<K>(entries: seq<(K, nat)>, e: (K, nat))
    ensures SumCounts(entries + [e]) == SumCounts(entries) + e.1
  {
    assert (entries + [e])[..|entries|] == entries;
  }

  lemma {:induction false} SumCountsBump<K>(entries: seq<(K, nat)>, j: nat)
    requires j < |entries|
    ensures SumCounts(entries[j := (entries[j].0, entries[j].1 + 1)]) == SumCounts(entries) + 1
  {
    var bumped := entries[j := (entries[j].0, entries[j].1 + 1)];
    var n := |entries|;
    if j == n - 1 {
      assert bumped[..n - 1] == entries[..n - 1];
    } else {
      SumCountsBump(entries[..n - 1], j);
      assert bumped[..n - 1] == entries[..n - 1][j := (entries[j].0, entries[j].1 + 1)];
    }
  }

  /** What the entries say after the first `i` keys: the keys in order of
      first occurrence, each with its number of occurrences so far. */
  predicate Counted<K(==)>(entries: seq<(K, nat)>, keys: seq<K>, i: nat)
    requires i <= |keys|
  {
    KeysOf(entries) == Distinct(keys[..i]) &&
    (forall j :: 0 <= j < |entries| ==> entries[j].1 == multiset(keys[..i])[entries[j].0]) &&
    SumCounts(entries) == i
  }

  /** One key more: its occurrences grow by one, and it joins the distinct
      keys unless it is already among them. */
  lemma PrefixGrows<K>(keys: seq<K>, i: nat)
    requires i < |keys|
    ensures multiset(keys[..i + 1]) == multiset(keys[..i]) + multiset{keys[i]}
    ensures Distinct(keys[..i + 1]) ==
      if keys[i] in Distinct(keys[..i]) then Distinct(keys[..i]) else Distinct(keys[..i]) + [keys[i]]
  {
    assert keys[..i + 1] == keys[..i] + [keys[i]];
    assert keys[..i + 1][..i] == keys[..i];
  }

  /** `acc[k] = acc[k] + 1` for a key already counted keeps the entries
      counting one key more. */
  lemma TallyFound<K>(keys: seq<K>, i: nat, entries: seq<(K, nat)>, j: nat)
    requires i < |keys| && Counted(entries, keys, i)
    requires j < |entries| && entries[j].0 == keys[i]
    ensures Counted(entries[j := (keys[i], entries[j].1 + 1)], keys, i + 1)
  {
    var k := keys[i];
    var next := entries[j := (k, entries[j].1 + 1)];
    PrefixGrows(keys, i);
    SumCountsBump(entries, j);
    assert KeysOf(entries)[j] == k;
    assert KeysOf(next) == KeysOf(entries);
    DistinctKeys(keys[..i]);
    forall m | 0 <= m < |next|
      ensures next[m].1 == multiset(keys[..i + 1])[next[m].0]
    {
      if m != j {
        assert KeysOf(entries)[m] != KeysOf(entries)[j];
      }
    }
  }

  /** `acc[k] = 0 + 1` for a key not yet counted keeps the entries counting
      one key more. */
  lemma TallyNew<K>(keys: seq<K>, i: nat, entries: seq<(K, nat)>)
    requires i < |keys| && Counted(entries, keys, i)
    requires forall m :: 0 <= m < |entries| ==> entries[m].0 != keys[i]
    ensures Counted(entries + [(keys[i], 1)], keys, i + 1)
  {
    var k := keys[i];
    PrefixGrows(keys, i);
    DistinctKeys(keys[..i]);
    assert k !in Distinct(keys[..i]) by {
      assert forall m :: 0 <= m < |entries| ==> KeysOf(entries)[m] != k;
    }
    SumCountsAppend(entries, (k, 1));
    assert KeysOf(entries + [(k, 1)]) == KeysOf(entries) + [k];
  }

  /** The `reduce`: one entry per distinct key, in order of first
      occurrence, counting that key's occurrences; the counts add up to the
      number of keys. */
  method Tally<K(==)>(keys: seq<K>) returns (entries: seq<(K, nat)>)
    ensures KeysOf(entries) == Distinct(keys)
    ensures forall j :: 0 <= j < |entries| ==> entries[j].1 == multiset(keys)[entries[j].0] && entries[j].1 >= 1
    ensures SumCounts(entries) == |keys|
  {
    entries := [];
    for i := 0 to |keys|
      invariant Counted(entries, keys, i)
    {
      var k := keys[i];
      var index := IndexOfKey(entries, k);
      if index.Some? {
        var j := index.value;
        TallyFound(keys, i, entries, j);
        entries := entries[j := (k, entries[j].1 + 1)];
      } else {
        TallyNew(keys, i, entries);
        entries := entries + [(k, 1)];
      }
    }
    assert keys[..|keys|] == keys;
    DistinctKeys(keys);
    forall j | 0 <= j < |entries|
      ensures entries[j].1 >= 1
    {
      assert entries[j].0 == Distinct(keys)[j];
      assert entries[j].0 in keys;
    }
  }
}
