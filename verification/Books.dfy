/**
  The books of one counter map: what is live, what a poller has printed, and what was never
  counted because the map was full. Counting adds one to the balance; a full drain moves the
  live counts to the printed ones and leaves the balance alone.
 */
module Books {
  import opened Bpf
  import opened Walks

  datatype Book<!K> = Book(live: map<K, u64>, printed: nat, dropped: nat)

  function Counted<K>(b: Book<K>, cap: nat, k: K): Book<K> {
    var kept := k in b.live || |b.live| < cap;
    Book(Bump(b.live, cap, k, 1), b.printed, if kept then b.dropped else b.dropped + 1)
  }

  /** A drain that prints `amount` and empties the map. */
  function Drained<K>(b: Book<K>, amount: nat): Book<K> {
    Book(map[], b.printed + amount, b.dropped)
  }

  ghost function Balance<K>(b: Book<K>): nat {
    b.printed + Total(b.live) + b.dropped
  }

  /** No count is above the sum of all. */
  lemma ValueAtMostTotal<K>(m: map<K, u64>, k: K)
    requires k in m
    ensures m[k] <= Total(m)
  {
    TotalRemove(m, k);
  }

  lemma CountBalance<K>(b: Book<K>, cap: nat, k: K)
    requires Balance(b) + 1 < U64
    ensures Balance(Counted(b, cap, k)) == Balance(b) + 1
  {
    if k in b.live {
      ValueAtMostTotal(b.live, k);
    }
    BumpTotal(b.live, cap, k, 1);
  }

  lemma DrainBalance<K>(b: Book<K>, amount: nat)
    requires amount == Total(b.live)
    ensures Balance(Drained(b, amount)) == Balance(b) && Total(Drained(b, amount).live) == 0
  {
  }

  // ---- What a listing adds up to ----

  function EntrySum<K>(es: seq<(K, nat)>): nat {
    if es == [] then 0 else EntrySum(es[..|es| - 1]) + es[|es| - 1].1
  }

  /** The printed counts of a full listing add up to the total of the map. */
  lemma {:induction false} ListingTotal<K(!new)>(es: seq<(K, u64)>, m: map<K, u64>)
    requires Lists(es, m)
    ensures EntrySum(es) == Total(m)
  {
    if es == [] {
      assert m == map[];
    } else {
      var n := |es| - 1;
      ListingRest(es, m);
      ListingTotal(es[..n], m - {es[n].0});
      TotalRemove(m, es[n].0);
    }
  }

  lemma ListingRest<K(!new), V>(es: seq<(K, V)>, m: map<K, V>)
    requires Lists(es, m) && es != []
    ensures Lists(es[..|es| - 1], m - {es[|es| - 1].0})
  {
    var n := |es| - 1;
    forall k | k in m && k != es[n].0 ensures exists i :: 0 <= i < n && es[..n][i].0 == k {
      var i :| 0 <= i < |es| && es[i].0 == k;
      assert es[..n][i].0 == k;
    }
  }

  lemma {:induction false} EntrySumConcat<K>(a: seq<(K, nat)>, b: seq<(K, nat)>)
    ensures EntrySum(a + b) == EntrySum(a) + EntrySum(b)
    decreases |b|
  {
    if b == [] {
      assert a + b == a;
    } else {
      var n := |b| - 1;
      assert (a + b)[..|a| + n] == a + b[..n];
      EntrySumConcat(a, b[..n]);
    }
  }

  /** Moving one entry to the end keeps the sum. */
  lemma EntrySumMove<K>(es: seq<(K, nat)>, i: nat)
    requires i < |es|
    ensures EntrySum(es) == EntrySum(es[..i] + es[i + 1..]) + es[i].1
  {
    assert es == es[..i] + ([es[i]] + es[i + 1..]);
    EntrySumConcat(es[..i], [es[i]] + es[i + 1..]);
    EntrySumConcat([es[i]], es[i + 1..]);
    EntrySumConcat(es[..i], es[i + 1..]);
    var one: seq<(K, nat)> := [es[i]];
    assert EntrySum(one) == EntrySum(one[..0]) + es[i].1;
  }

  lemma RemovalMultiset<T>(s: seq<T>, i: nat)
    requires i < |s|
    ensures multiset(s[..i] + s[i + 1..]) == multiset(s) - multiset{s[i]}
  {
    assert s == s[..i] + [s[i]] + s[i + 1..];
  }

  /** The sum does not depend on the order. */
  lemma {:induction false} EntrySumPermutation<K>(a: seq<(K, nat)>, b: seq<(K, nat)>)
    requires multiset(a) == multiset(b)
    ensures EntrySum(a) == EntrySum(b)
    decreases |a|
  {
    assert |a| == |multiset(a)| == |multiset(b)| == |b|;
    if a != [] {
      var n := |a| - 1;
      assert a[n] in multiset(b);
      var i :| 0 <= i < |b| && b[i] == a[n];
      RemovalMultiset(b, i);
      RemovalMultiset(a, n);
      assert a[..n] + a[n + 1..] == a[..n];
      EntrySumPermutation(a[..n], b[..i] + b[i + 1..]);
      EntrySumMove(b, i);
    }
  }

  /** The lines of a listing that a poller prints only when their count is positive. */
  function Positive<K>(es: seq<(K, u64)>): seq<(K, u64)> {
    if es == [] then [] else
      Positive(es[..|es| - 1]) + if es[|es| - 1].1 > 0 then [es[|es| - 1]] else []
  }

  lemma {:induction false} PositiveSum<K>(es: seq<(K, u64)>)
    ensures EntrySum(Positive(es)) == EntrySum(es)
  {
    if es != [] {
      var n := |es| - 1;
      PositiveSum(es[..n]);
      if es[n].1 > 0 {
        assert Positive(es)[..|Positive(es)| - 1] == Positive(es[..n]);
      } else {
        assert Positive(es) == Positive(es[..n]);
      }
    }
  }

  /** The printed lines are exactly the positive ones of the listing, each once. */
  lemma {:induction false} PositiveIsFilter<K>(es: seq<(K, u64)>, x: (K, u64))
    ensures x in Positive(es) <==> x in es && x.1 > 0
  {
    if es != [] {
      var n := |es| - 1;
      PositiveIsFilter(es[..n], x);
      assert es == es[..n] + [es[n]];
    }
  }

  lemma {:induction false} PositiveKeepsDistinct<K>(es: seq<(K, u64)>)
    requires DistinctKeys(es)
    ensures DistinctKeys(Positive(es))
  {
    if es != [] {
      var n := |es| - 1;
      PositiveKeepsDistinct(es[..n]);
      forall i | 0 <= i < |Positive(es[..n])| ensures Positive(es[..n])[i].0 != es[n].0 {
        PositiveIsFilter(es[..n], Positive(es[..n])[i]);
      }
    }
  }
}
