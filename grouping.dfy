/** The functional meaning of the reducers' loop: fold every maximal run of
    equal adjacent keys into one (key, total) pair, runs kept in input order.
    Nothing here knows about lines or text. */
module Grouping {

  /** The left fold the scripts perform with `+=`: ((v0 + v1) + v2) + ... */
  function Fold<V>(add: (V, V) -> V, vs: seq<V>): V
    requires |vs| > 0
  {
    if |vs| == 1 then vs[0] else add(Fold(add, vs[..|vs| - 1]), vs[|vs| - 1])
  }

  function Keys<V>(ps: seq<(string, V)>): (ks: seq<string>)
    ensures |ks| == |ps|
    ensures forall i :: 0 <= i < |ps| ==> ks[i] == ps[i].0
  {
    seq(|ps|, i requires 0 <= i < |ps| => ps[i].0)
  }

  function Values<V>(ps: seq<(string, V)>): (vs: seq<V>)
    ensures |vs| == |ps|
    ensures forall i :: 0 <= i < |ps| ==> vs[i] == ps[i].1
  {
    seq(|ps|, i requires 0 <= i < |ps| => ps[i].1)
  }

  /** Length of the maximal prefix of `ps` whose keys all equal the first key. */
  function LeadRun<V>(ps: seq<(string, V)>): (n: nat)
    requires |ps| > 0
    ensures 1 <= n <= |ps|
    ensures n < |ps| ==> ps[n].0 != ps[0].0
  {
    if |ps| == 1 || ps[1].0 != ps[0].0 then 1 else 1 + LeadRun(ps[1..])
  }

  /** One (key, folded values) pair per maximal run of equal adjacent keys. */
  function Aggregate<V>(add: (V, V) -> V, ps: seq<(string, V)>): (r: seq<(string, V)>)
    ensures |r| <= |ps|
    ensures r == [] <==> ps == []
    ensures r != [] ==> r[0].0 == ps[0].0
    decreases |ps|
  {
    if ps == [] then []
    else
      var n := LeadRun(ps);
      [(ps[0].0, Fold(add, Values(ps[..n])))] + Aggregate(add, ps[n..])
  }

  /** Neighbouring entries of `r` have different keys. */
  predicate KeyChangesEverywhere<V>(r: seq<(string, V)>)
  {
    forall i :: 0 < i < |r| ==> r[i - 1].0 != r[i].0
  }

  /** The run structure is maximal: neighbouring aggregates have different keys. */
  lemma {:induction false} AdjacentKeysDiffer<V>(add: (V, V) -> V, ps: seq<(string, V)>)
    ensures KeyChangesEverywhere(Aggregate(add, ps))
    decreases |ps|
  {
    if ps != [] {
      var n := LeadRun(ps);
      var rest := Aggregate(add, ps[n..]);
      var r := Aggregate(add, ps);
      assert r == [(ps[0].0, Fold(add, Values(ps[..n])))] + rest;
      AdjacentKeysDiffer(add, ps[n..]);
      assert r[0].0 == ps[0].0;
      forall i | 0 < i < |r|
        ensures r[i - 1].0 != r[i].0
      {
        assert rest != [] && n < |ps|;
        if i == 1 {
          assert r[1] == rest[0] && rest[0].0 == ps[n..][0].0 == ps[n].0;
        } else {
          assert r[i - 1] == rest[i - 2] && r[i] == rest[i - 1];
        }
      }
    }
  }

  lemma {:induction false} LeadRunAppend<V>(ps: seq<(string, V)>, p: (string, V))
    requires |ps| > 0
    ensures LeadRun(ps + [p]) ==
      if LeadRun(ps) < |ps| || p.0 != ps[0].0 then LeadRun(ps) else |ps| + 1
  {
    var q := ps + [p];
    if |ps| == 1 {
      assert q[1..] == [p];
    } else if ps[1].0 != ps[0].0 {
      assert q[1] == ps[1];
    } else {
      assert q[1..] == ps[1..] + [p];
      LeadRunAppend(ps[1..], p);
    }
  }

  lemma FoldAppend<V>(add: (V, V) -> V, vs: seq<V>, v: V)
    requires |vs| > 0
    ensures Fold(add, vs + [v]) == add(Fold(add, vs), v)
  {
    assert (vs + [v])[..|vs|] == vs;
  }

  lemma ValuesAppend<V>(ps: seq<(string, V)>, p: (string, V))
    ensures Values(ps + [p]) == Values(ps) + [p.1]
  {
  }

  lemma AggregateSingle<V>(add: (V, V) -> V, k: string, v: V)
    ensures Aggregate(add, [(k, v)]) == [(k, v)]
  {
    var q := [(k, v)];
    assert LeadRun(q) == 1;
    assert q[..1] == q && q[1..] == [];
    assert Values(q) == [v];
  }

  /** One more pair added to a list of runs: it extends the last run if it
      has the same key, and opens a new run seeded with its own value
      otherwise. */
  function Extend<V>(add: (V, V) -> V, r: seq<(string, V)>, k: string, v: V): seq<(string, V)>
  {
    if r != [] && r[|r| - 1].0 == k then r[..|r| - 1] + [(k, add(r[|r| - 1].1, v))]
    else r + [(k, v)]
  }

  lemma ExtendPrepend<V>(add: (V, V) -> V, h: (string, V), r: seq<(string, V)>, k: string, v: V)
    requires r != []
    ensures Extend(add, [h] + r, k, v) == [h] + Extend(add, r, k, v)
  {
    var hr := [h] + r;
    assert hr[|hr| - 1] == r[|r| - 1];
    assert hr[..|hr| - 1] == [h] + r[..|r| - 1];
  }

  /** Aggregating one more pair is one `Extend` step: this is the step the
      reducer's loop takes for each accepted line. */
  lemma {:induction false} AggregateAppend<V>(add: (V, V) -> V, ps: seq<(string, V)>, k: string, v: V)
    ensures Aggregate(add, ps + [(k, v)]) == Extend(add, Aggregate(add, ps), k, v)
    decreases |ps|
  {
    if ps == [] {
      AggregateSingle(add, k, v);
      assert ps + [(k, v)] == [(k, v)];
    } else {
      var n := LeadRun(ps);
      if n < |ps| {
        AppendAfterFirstRun(add, ps, k, v);
        AggregateAppend(add, ps[n..], k, v);
        ExtendPrepend(add, Aggregate(add, ps)[0], Aggregate(add, ps[n..]), k, v);
      } else if k == ps[0].0 {
        AppendToOnlyRun(add, ps, k, v);
      } else {
        AppendAfterOnlyRun(add, ps, k, v);
      }
    }
  }

  /** Slicing a concatenation inside its first part. */
  lemma SliceAppend<T>(s: seq<T>, t: seq<T>, n: nat)
    requires n <= |s|
    ensures (s + t)[..n] == s[..n]
    ensures (s + t)[n..] == s[n..] + t
  {
  }

  /** A pair added behind the first run leaves the first run alone. */
  lemma AppendAfterFirstRun<V>(add: (V, V) -> V, ps: seq<(string, V)>, k: string, v: V)
    requires ps != [] && LeadRun(ps) < |ps|
    ensures var n := LeadRun(ps); var h := Aggregate(add, ps)[0];
      && Aggregate(add, ps) == [h] + Aggregate(add, ps[n..])
      && Aggregate(add, ps + [(k, v)]) == [h] + Aggregate(add, ps[n..] + [(k, v)])
      && Aggregate(add, ps[n..]) != []
  {
    var q := ps + [(k, v)];
    var n := LeadRun(ps);
    LeadRunAppend(ps, (k, v));
    assert q[0] == ps[0];
    SliceAppend(ps, [(k, v)], n);
  }

  /** A list that is one run aggregates to one pair. */
  lemma OneRun<V>(add: (V, V) -> V, ps: seq<(string, V)>)
    requires ps != [] && LeadRun(ps) == |ps|
    ensures Aggregate(add, ps) == [(ps[0].0, Fold(add, Values(ps)))]
  {
    assert ps[..|ps|] == ps;
    assert ps[|ps|..] == [];
  }

  /** A pair with the key of the only run extends that run. */
  lemma AppendToOnlyRun<V>(add: (V, V) -> V, ps: seq<(string, V)>, k: string, v: V)
    requires ps != [] && LeadRun(ps) == |ps| && k == ps[0].0
    ensures Aggregate(add, ps + [(k, v)]) == Extend(add, Aggregate(add, ps), k, v)
  {
    var q := ps + [(k, v)];
    LeadRunAppend(ps, (k, v));
    assert q[0] == ps[0];
    OneRun(add, ps);
    OneRun(add, q);
    ValuesAppend(ps, (k, v));
    FoldAppend(add, Values(ps), v);
  }

  /** A pair with another key than the only run opens a second run. */
  lemma AppendAfterOnlyRun<V>(add: (V, V) -> V, ps: seq<(string, V)>, k: string, v: V)
    requires ps != [] && LeadRun(ps) == |ps| && k != ps[0].0
    ensures Aggregate(add, ps + [(k, v)]) == Extend(add, Aggregate(add, ps), k, v)
  {
    var q := ps + [(k, v)];
    var n := |ps|;
    LeadRunAppend(ps, (k, v));
    assert q[0] == ps[0];
    assert LeadRun(q) == n;
    SliceAppend(ps, [(k, v)], n);
    assert ps[..n] == ps && ps[n..] == [];
    AggregateSingle(add, k, v);
    var h := (ps[0].0, Fold(add, Values(ps)));
    assert Aggregate(add, ps) == [h];
    assert Aggregate(add, q) == [h] + [(k, v)];
  }

  /** The last aggregate carries the key of the last pair. */
  lemma {:induction false} LastKey<V>(add: (V, V) -> V, ps: seq<(string, V)>)
    requires ps != []
    ensures var r := Aggregate(add, ps); r[|r| - 1].0 == ps[|ps| - 1].0
  {
    var init := ps[..|ps| - 1];
    assert ps == init + [ps[|ps| - 1]];
    AggregateAppend(add, init, ps[|ps| - 1].0, ps[|ps| - 1].1);
  }

  /** Every aggregate's key is the key of some pair. */
  lemma {:induction false} AggregateKeys<V>(add: (V, V) -> V, ps: seq<(string, V)>)
    ensures forall i :: 0 <= i < |Aggregate(add, ps)| ==> Aggregate(add, ps)[i].0 in Keys(ps)
  {
    if ps != [] {
      var init, last := ps[..|ps| - 1], ps[|ps| - 1];
      assert ps == init + [last];
      AggregateKeys(add, init);
      AggregateAppend(add, init, last.0, last.1);
      KeysAppend(init, last);
      var r := Aggregate(add, init);
      forall i | 0 <= i < |Aggregate(add, ps)|
        ensures Aggregate(add, ps)[i].0 in Keys(ps)
      {
        ExtendKeyAt(add, r, last.0, last.1, i);
      }
    }
  }

  /** Each key after an `Extend` is the added key or the key already there. */
  lemma ExtendKeyAt<V>(add: (V, V) -> V, r: seq<(string, V)>, k: string, v: V, i: nat)
    requires i < |Extend(add, r, k, v)|
    ensures Extend(add, r, k, v)[i].0 == k || (i < |r| && Extend(add, r, k, v)[i].0 == r[i].0)
  {
  }

  /** Pairs whose neighbours already differ in key are their own aggregate. */
  lemma {:induction false} AggregateOfChanging<V>(add: (V, V) -> V, r: seq<(string, V)>)
    requires KeyChangesEverywhere(r)
    ensures Aggregate(add, r) == r
  {
    if r != [] {
      var init, last := r[..|r| - 1], r[|r| - 1];
      assert r == init + [last];
      AggregateOfChanging(add, init);
      AggregateAppend(add, init, last.0, last.1);
      if init != [] {
        assert init[|init| - 1].0 == r[|r| - 2].0;
      }
    }
  }

  /** Number of maximal runs of equal adjacent keys, counted key change by key change. */
  function RunCount<V>(ps: seq<(string, V)>): nat
  {
    if ps == [] then 0
    else RunCount(ps[..|ps| - 1]) + (if |ps| == 1 || ps[|ps| - 2].0 != ps[|ps| - 1].0 then 1 else 0)
  }

  /** One aggregate per maximal run. */
  lemma {:induction false} AggregateLength<V>(add: (V, V) -> V, ps: seq<(string, V)>)
    ensures |Aggregate(add, ps)| == RunCount(ps)
  {
    if ps != [] {
      var init := ps[..|ps| - 1];
      assert ps == init + [ps[|ps| - 1]];
      AggregateLength(add, init);
      AggregateAppend(add, init, ps[|ps| - 1].0, ps[|ps| - 1].1);
      if |ps| > 1 {
        LastKey(add, init);
      }
    }
  }

  /** The precondition the external shuffle establishes: the pairs of every
      key stand next to each other. */
  predicate Contiguous<V>(ps: seq<(string, V)>)
  {
    forall i, j, l :: 0 <= i < j < l < |ps| && ps[i].0 == ps[l].0 ==> ps[j].0 == ps[i].0
  }

  /** The keys of `ps`, each once, in order of first appearance. */
  function DistinctKeys<V>(ps: seq<(string, V)>): (ks: seq<string>)
    ensures forall i, j :: 0 <= i < j < |ks| ==> ks[i] != ks[j]
    ensures forall k :: k in ks <==> k in Keys(ps)
  {
    if ps == [] then []
    else
      var init := ps[..|ps| - 1];
      var ks := DistinctKeys(init);
      assert Keys(ps) == Keys(init) + [ps[|ps| - 1].0];
      if ps[|ps| - 1].0 in ks then ks else ks + [ps[|ps| - 1].0]
  }

  /** The values of the pairs with key `k`, in input order. */
  function ValuesOf<V>(ps: seq<(string, V)>, k: string): (vs: seq<V>)
    ensures vs == [] <==> k !in Keys(ps)
  {
    if ps == [] then []
    else
      var init := ps[..|ps| - 1];
      assert Keys(ps) == Keys(init) + [ps[|ps| - 1].0];
      ValuesOf(init, k) + (if ps[|ps| - 1].0 == k then [ps[|ps| - 1].1] else [])
  }

  lemma DistinctKeysAppend<V>(ps: seq<(string, V)>, p: (string, V))
    ensures DistinctKeys(ps + [p]) ==
      if p.0 in DistinctKeys(ps) then DistinctKeys(ps) else DistinctKeys(ps) + [p.0]
  {
    assert (ps + [p])[..|ps|] == ps;
  }

  lemma ValuesOfAppend<V>(ps: seq<(string, V)>, p: (string, V), k: string)
    ensures ValuesOf(ps + [p], k) == ValuesOf(ps, k) + (if p.0 == k then [p.1] else [])
  {
    assert (ps + [p])[..|ps|] == ps;
  }

  lemma KeysAppend<V>(ps: seq<(string, V)>, p: (string, V))
    ensures Keys(ps + [p]) == Keys(ps) + [p.0]
  {
  }

  /** `r` lists, for every distinct key of `ps` in first-seen order, the fold
      of all the values of that key. */
  ghost predicate GroupedBy<V>(add: (V, V) -> V, ps: seq<(string, V)>, r: seq<(string, V)>)
  {
    && Keys(r) == DistinctKeys(ps)
    && forall i :: 0 <= i < |r| ==>
         ValuesOf(ps, r[i].0) != [] && r[i].1 == Fold(add, ValuesOf(ps, r[i].0))
  }

  lemma ExtendSameKey<V>(add: (V, V) -> V, ps: seq<(string, V)>, r: seq<(string, V)>, k: string, v: V)
    requires GroupedBy(add, ps, r) && r != [] && r[|r| - 1].0 == k
    ensures GroupedBy(add, ps + [(k, v)], Extend(add, r, k, v))
  {
    var q := ps + [(k, v)];
    var m := |r| - 1;
    var r' := r[..m] + [(k, add(r[m].1, v))];
    assert Extend(add, r, k, v) == r';
    SameKeyKeys(add, ps, r, k, v);
    forall i | 0 <= i < |r'|
      ensures ValuesOf(q, r'[i].0) != [] && r'[i].1 == Fold(add, ValuesOf(q, r'[i].0))
    {
      SameKeyAt(add, ps, r, k, v, i);
    }
  }

  lemma SameKeyKeys<V>(add: (V, V) -> V, ps: seq<(string, V)>, r: seq<(string, V)>, k: string, v: V)
    requires GroupedBy(add, ps, r) && r != [] && r[|r| - 1].0 == k
    ensures var m := |r| - 1;
      Keys(r[..m] + [(k, add(r[m].1, v))]) == DistinctKeys(ps + [(k, v)])
  {
    GroupedAt(add, ps, r, |r| - 1);
    DistinctKeysAppend(ps, (k, v));
    KeysReplaceLast(r, add(r[|r| - 1].1, v));
  }

  /** Replacing the value of the last pair keeps the keys. */
  lemma KeysReplaceLast<V>(r: seq<(string, V)>, x: V)
    requires r != []
    ensures Keys(r[..|r| - 1] + [(r[|r| - 1].0, x)]) == Keys(r)
  {
    var r' := r[..|r| - 1] + [(r[|r| - 1].0, x)];
    assert forall i :: 0 <= i < |r| ==> r'[i].0 == r[i].0;
  }

  lemma SameKeyAt<V>(add: (V, V) -> V, ps: seq<(string, V)>, r: seq<(string, V)>, k: string, v: V, i: nat)
    requires GroupedBy(add, ps, r) && r != [] && r[|r| - 1].0 == k && i < |r|
    ensures var q, m := ps + [(k, v)], |r| - 1;
      var r' := r[..m] + [(k, add(r[m].1, v))];
      ValuesOf(q, r'[i].0) != [] && r'[i].1 == Fold(add, ValuesOf(q, r'[i].0))
  {
    var q := ps + [(k, v)];
    var m := |r| - 1;
    var r' := r[..m] + [(k, add(r[m].1, v))];
    GroupedAt(add, ps, r, m);
    if i < m {
      assert r'[i] == r[i];
      assert r[i].0 != k;
      GroupedAt(add, ps, r, i);
      ValuesOfAppend(ps, (k, v), r[i].0);
      assert ValuesOf(q, r[i].0) == ValuesOf(ps, r[i].0);
    } else {
      assert r'[i] == (k, add(r[m].1, v));
      ValuesOfAppend(ps, (k, v), k);
      FoldAppend(add, ValuesOf(ps, k), v);
    }
  }

  lemma GroupedAt<V>(add: (V, V) -> V, ps: seq<(string, V)>, r: seq<(string, V)>, i: nat)
    requires GroupedBy(add, ps, r) && i < |r|
    ensures r[i].0 in Keys(ps) && r[i].0 == DistinctKeys(ps)[i]
    ensures forall j :: 0 <= j < i ==> r[j].0 != r[i].0
    ensures ValuesOf(ps, r[i].0) != [] && r[i].1 == Fold(add, ValuesOf(ps, r[i].0))
  {
    assert Keys(r)[i] == r[i].0;
    forall j | 0 <= j < i
      ensures r[j].0 != r[i].0
    {
      assert Keys(r)[j] == r[j].0;
    }
  }

  lemma ExtendNewKey<V>(add: (V, V) -> V, ps: seq<(string, V)>, r: seq<(string, V)>, k: string, v: V)
    requires GroupedBy(add, ps, r) && k !in Keys(ps)
    ensures GroupedBy(add, ps + [(k, v)], Extend(add, r, k, v))
  {
    var q := ps + [(k, v)];
    var r' := r + [(k, v)];
    assert Extend(add, r, k, v) == r' by {
      if r != [] {
        GroupedAt(add, ps, r, |r| - 1);
      }
    }
    assert Keys(r') == DistinctKeys(q) by {
      assert k !in DistinctKeys(ps);
      DistinctKeysAppend(ps, (k, v));
      KeysAppend(r, (k, v));
    }
    forall i | 0 <= i < |r'|
      ensures ValuesOf(q, r'[i].0) != [] && r'[i].1 == Fold(add, ValuesOf(q, r'[i].0))
    {
      if i < |r| {
        assert r'[i] == r[i];
        assert ValuesOf(q, r[i].0) == ValuesOf(ps, r[i].0) by {
          GroupedAt(add, ps, r, i);
          ValuesOfAppend(ps, (k, v), r[i].0);
        }
        GroupedAt(add, ps, r, i);
      } else {
        assert r'[i] == (k, v);
        assert ValuesOf(q, k) == [v] by {
          ValuesOfAppend(ps, (k, v), k);
        }
        assert Fold(add, [v]) == v;
      }
    }
  }

  /** In contiguous input, a pair whose key differs from its predecessor's
      carries a key not seen before. */
  lemma ContiguousFreshKey<V>(ps: seq<(string, V)>, p: (string, V))
    requires Contiguous(ps + [p])
    requires ps != [] && ps[|ps| - 1].0 != p.0
    ensures p.0 !in Keys(ps)
  {
    var q := ps + [p];
    forall i | 0 <= i < |ps|
      ensures ps[i].0 != p.0
    {
      if i < |ps| - 1 {
        var a, b, c := q[i].0, q[|ps| - 1].0, q[|ps|].0;
        assert a == ps[i].0 && b == ps[|ps| - 1].0 && c == p.0;
        assert a == c ==> b == a;
      }
    }
  }

  /** Grouping correctness: on contiguous input there is exactly one aggregate
      per distinct key, in first-seen order, and each carries the fold of all
      the values of its key. */
  lemma {:induction false} ContiguousGrouping<V>(add: (V, V) -> V, ps: seq<(string, V)>)
    requires Contiguous(ps)
    ensures GroupedBy(add, ps, Aggregate(add, ps))
  {
    if ps != [] {
      var init := ps[..|ps| - 1];
      var k, v := ps[|ps| - 1].0, ps[|ps| - 1].1;
      assert ps == init + [(k, v)];
      assert Contiguous(init);
      ContiguousGrouping(add, init);
      AggregateAppend(add, init, k, v);
      var r := Aggregate(add, init);
      if r != [] && r[|r| - 1].0 == k {
        ExtendSameKey(add, init, r, k, v);
      } else {
        if init != [] {
          LastKey(add, init);
          ContiguousFreshKey(init, (k, v));
        }
        ExtendNewKey(add, init, r, k, v);
      }
    }
  }

  /** All of `vs` added up from `zero`, left to right. */
  function Total<V>(add: (V, V) -> V, zero: V, vs: seq<V>): V
  {
    if vs == [] then zero else add(Total(add, zero, vs[..|vs| - 1]), vs[|vs| - 1])
  }

  ghost predicate Monoid<V(!new)>(add: (V, V) -> V, zero: V)
  {
    && (forall a, b, c :: add(add(a, b), c) == add(a, add(b, c)))
    && (forall a :: add(zero, a) == a)
  }

  lemma TotalAppend<V>(add: (V, V) -> V, zero: V, vs: seq<V>, v: V)
    ensures Total(add, zero, vs + [v]) == add(Total(add, zero, vs), v)
  {
    assert (vs + [v])[..|vs|] == vs;
  }

  /** One `Extend` step adds the new value to the grand total. */
  lemma TotalExtend<V(!new)>(add: (V, V) -> V, zero: V, r: seq<(string, V)>, k: string, v: V)
    requires Monoid(add, zero)
    ensures Total(add, zero, Values(Extend(add, r, k, v))) == add(Total(add, zero, Values(r)), v)
  {
    if r != [] && r[|r| - 1].0 == k {
      var front, t := r[..|r| - 1], r[|r| - 1];
      assert r == front + [t];
      ValuesAppend(front, t);
      ValuesAppend(front, (k, add(t.1, v)));
      TotalAppend(add, zero, Values(front), t.1);
      TotalAppend(add, zero, Values(front), add(t.1, v));
    } else {
      ValuesAppend(r, (k, v));
      TotalAppend(add, zero, Values(r), v);
    }
  }

  /** Aggregating loses nothing: when addition is associative with a zero,
      the aggregates add up to the same grand total as the pairs. */
  lemma {:induction false} AggregateKeepsTotal<V(!new)>(add: (V, V) -> V, zero: V, ps: seq<(string, V)>)
    requires Monoid(add, zero)
    ensures Total(add, zero, Values(Aggregate(add, ps))) == Total(add, zero, Values(ps))
  {
    if ps != [] {
      var init, last := ps[..|ps| - 1], ps[|ps| - 1];
      assert ps == init + [last];
      AggregateKeepsTotal(add, zero, init);
      AggregateAppend(add, init, last.0, last.1);
      ValuesAppend(init, last);
      TotalAppend(add, zero, Values(init), last.1);
      TotalExtend(add, zero, Aggregate(add, init), last.0, last.1);
    }
  }

  /** With a zero, the scripts' fold (seeded with the first value) is the
      plain total. */
  lemma {:induction false} FoldIsTotal<V(!new)>(add: (V, V) -> V, zero: V, vs: seq<V>)
    requires Monoid(add, zero) && |vs| > 0
    ensures Fold(add, vs) == Total(add, zero, vs)
  {
    if |vs| > 1 {
      FoldIsTotal(add, zero, vs[..|vs| - 1]);
    } else {
      assert vs[..0] == [];
    }
  }

  /** `ok` holds of the sum of any two values it holds of. */
  ghost predicate ClosedUnder<V(!new)>(add: (V, V) -> V, ok: V -> bool)
  {
    forall a, b :: ok(a) && ok(b) ==> ok(add(a, b))
  }

  /** Folding values that all satisfy a property closed under the
      addition gives a value that satisfies it. */
  lemma {:induction false} FoldWithin<V(!new)>(add: (V, V) -> V, ok: V -> bool, vs: seq<V>)
    requires |vs| > 0 && ClosedUnder(add, ok)
    requires forall i :: 0 <= i < |vs| ==> ok(vs[i])
    ensures ok(Fold(add, vs))
  {
    if |vs| > 1 {
      FoldWithin(add, ok, vs[..|vs| - 1]);
    }
  }

  /** Every aggregated total satisfies a property closed under the
      addition when every value does. */
  lemma {:induction false} AggregateWithin<V(!new)>(add: (V, V) -> V, ok: V -> bool, ps: seq<(string, V)>)
    requires ClosedUnder(add, ok)
    requires forall i :: 0 <= i < |ps| ==> ok(ps[i].1)
    ensures forall i :: 0 <= i < |Aggregate(add, ps)| ==> ok(Aggregate(add, ps)[i].1)
    decreases |ps|
  {
    if ps != [] {
      var n := LeadRun(ps);
      var vs := Values(ps[..n]);
      assert forall i :: 0 <= i < |vs| ==> vs[i] == ps[i].1;
      FoldWithin(add, ok, vs);
      var rest := ps[n..];
      assert forall i :: 0 <= i < |rest| ==> rest[i] == ps[n + i];
      AggregateWithin(add, ok, rest);
      var r := Aggregate(add, ps);
      assert r == [(ps[0].0, Fold(add, vs))] + Aggregate(add, rest);
    }
  }
}
