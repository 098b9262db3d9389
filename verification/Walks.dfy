/**
  User-space walks over an eBPF hash map: `get_next_key`, and the loops the pollers build on it.

  The map is quiescent during a walk and has some fixed iteration order; a table is the sequence
  of its entries in that order. `get_next_key` of a NULL or absent key is the first key; of a
  present key, its successor; of the last key, no more.
 */
module Walks {
  import opened Bpf

  ghost predicate DistinctKeys<K, V>(es: seq<(K, V)>) {
    forall i, j | 0 <= i < j < |es| :: es[i].0 != es[j].0
  }

  /** `es` lists every entry of `m` exactly once and nothing else: the abstract snapshot. */
  ghost predicate Lists<K(!new), V>(es: seq<(K, V)>, m: map<K, V>) {
    && DistinctKeys(es)
    && (forall i | 0 <= i < |es| :: es[i].0 in m && m[es[i].0] == es[i].1)
    && (forall k | k in m :: exists i :: 0 <= i < |es| && es[i].0 == k)
  }

  /** The position of key `k`, or the length when absent. */
  function Find<K(==), V>(es: seq<(K, V)>, k: K): (r: nat)
    ensures r <= |es|
    ensures r < |es| ==> es[r].0 == k
    ensures forall i | 0 <= i < r :: es[i].0 != k
  {
    if es == [] || es[0].0 == k then 0 else 1 + Find(es[1..], k)
  }

  /** The position where a walk standing at `cur` continues. */
  function Ahead<K(==), V>(es: seq<(K, V)>, cur: Option<K>): (r: nat)
    ensures r <= |es|
  {
    match cur
    case None => 0
    case Some(k) => var i := Find(es, k); if i == |es| then 0 else i + 1
  }

  function NextKey<K(==), V>(es: seq<(K, V)>, cur: Option<K>): Option<K> {
    var i := Ahead(es, cur);
    if i == |es| then None else Some(es[i].0)
  }

  function Remove<K(==), V>(es: seq<(K, V)>, k: K): seq<(K, V)> {
    var i := Find(es, k);
    if i == |es| then es else es[..i] + es[i + 1..]
  }

  /** The kernel map as user space sees it. */
  class Table<K(==), V> {
    var entries: seq<(K, V)>

    ghost predicate Valid()
      reads this
    {
      DistinctKeys(entries)
    }

    method GetNextKey(cur: Option<K>) returns (next: Option<K>)
      ensures next == NextKey(entries, cur)
    {
      next := NextKey(entries, cur);
    }

    method Lookup(k: K) returns (v: Option<V>)
      ensures v == var i := Find(entries, k); if i == |entries| then None else Some(entries[i].1)
    {
      var i := Find(entries, k);
      v := if i == |entries| then None else Some(entries[i].1);
    }

    method Delete(k: K)
      requires Valid()
      modifies this
      ensures Valid() && entries == Remove(old(entries), k)
    {
      entries := Remove(entries, k);
    }
  }

  lemma FindAt<K, V>(es: seq<(K, V)>, i: nat)
    requires DistinctKeys(es) && i < |es|
    ensures Find(es, es[i].0) == i
  {
    var r := Find(es, es[i].0);
    assert r <= i && es[r].0 == es[i].0;
  }

  lemma FindAbsent<K, V>(es: seq<(K, V)>, k: K)
    requires forall i | 0 <= i < |es| :: es[i].0 != k
    ensures Find(es, k) == |es|
  {
  }

  lemma AbsentAfterRemoval<K, V>(es: seq<(K, V)>, i: nat)
    requires DistinctKeys(es) && i < |es|
    ensures Find(es[..i] + es[i + 1..], es[i].0) == |es| - 1
  {
    var rest := es[..i] + es[i + 1..];
    forall j | 0 <= j < |rest| ensures rest[j].0 != es[i].0 {
      assert rest[j] == es[if j < i then j else j + 1];
    }
    FindAbsent(rest, es[i].0);
  }

  /** A present key is found at its position; once deleted, a walk standing at it starts over. */
  lemma RemoveAt<K, V>(es: seq<(K, V)>, i: nat)
    requires DistinctKeys(es) && i < |es|
    ensures Find(es, es[i].0) == i
    ensures Remove(es, es[i].0) == es[..i] + es[i + 1..]
    ensures Ahead(Remove(es, es[i].0), Some(es[i].0)) == 0
  {
    FindAt(es, i);
    var rest := es[..i] + es[i + 1..];
    assert Remove(es, es[i].0) == rest;
    AbsentAfterRemoval(es, i);
  }

  /** The body every drain shares: look the key up, then delete it. */
  method Take<K, V>(t: Table<K, V>, k: K, ghost i: nat) returns (v: Option<V>)
    requires t.Valid() && i < |t.entries| && t.entries[i].0 == k
    modifies t
    ensures t.Valid() && t.entries == old(t.entries)[..i] + old(t.entries)[i + 1..]
    ensures v == Some(old(t.entries)[i].1)
    ensures Ahead(t.entries, Some(k)) == 0
  {
    RemoveAt(t.entries, i);
    v := t.Lookup(k);
    if v.Some? {
      t.Delete(k);
    }
  }

  /** The order in which delete-and-restart visits: one entry, then always the first of the rest. */
  function RestartOrder<K(==), V>(es: seq<(K, V)>, from: Option<K>): seq<(K, V)> {
    var i := Ahead(es, from);
    if i == |es| then [] else [es[i]] + es[..i] + es[i + 1..]
  }

  lemma RestartIsNothingIff<K, V>(es: seq<(K, V)>, from: Option<K>)
    requires DistinctKeys(es)
    ensures Ahead(es, from) == |es| <==> es == [] || from == Some(es[|es| - 1].0)
  {
    if es != [] && from == Some(es[|es| - 1].0) {
      FindAt(es, |es| - 1);
    }
  }

  lemma RestartIsAll<K, V>(es: seq<(K, V)>, from: Option<K>)
    requires DistinctKeys(es) && Ahead(es, from) < |es|
    ensures multiset(RestartOrder(es, from)) == multiset(es)
    ensures DistinctKeys(RestartOrder(es, from))
  {
    var i := Ahead(es, from);
    var plan := [es[i]] + es[..i] + es[i + 1..];
    MoveToFront(es, i);
    assert RestartOrder(es, from) == plan;
  }

  lemma RestartOrderIsAllOrNothing<K, V>(es: seq<(K, V)>, from: Option<K>)
    requires DistinctKeys(es)
    ensures RestartOrder(es, from) == [] <==> es == [] || from == Some(es[|es| - 1].0)
    ensures RestartOrder(es, from) != [] ==>
              DistinctKeys(RestartOrder(es, from)) && multiset(RestartOrder(es, from)) == multiset(es)
  {
    RestartIsNothingIff(es, from);
    if Ahead(es, from) < |es| {
      RestartIsAll(es, from);
    }
  }

  lemma MoveToFront<K, V>(es: seq<(K, V)>, i: nat)
    requires DistinctKeys(es) && i < |es|
    ensures multiset([es[i]] + es[..i] + es[i + 1..]) == multiset(es)
    ensures DistinctKeys([es[i]] + es[..i] + es[i + 1..])
  {
    assert es == es[..i] + [es[i]] + es[i + 1..];
    var plan := [es[i]] + es[..i] + es[i + 1..];
    assert forall j | 0 <= j < |plan| :: plan[j] == es[if j == 0 then i else if j <= i then j - 1 else j];
  }

  /** The drain of `es` has read `out`, `now` is left, and the walk stands at `cur`. */
  ghost predicate Midway<K, V>(
    es: seq<(K, V)>, from: Option<K>, now: seq<(K, V)>, cur: Option<K>, out: seq<(K, V)>)
  {
    var plan := RestartOrder(es, from);
    && |out| <= |plan| && out == plan[..|out|]
    && (out == [] ==> now == es && cur == from)
    && (out != [] ==> now == plan[|out|..] && Ahead(now, cur) == 0)
  }

  lemma MidwayStep<K, V>(
    es: seq<(K, V)>, from: Option<K>, now: seq<(K, V)>, cur: Option<K>, out: seq<(K, V)>)
    requires Midway(es, from, now, cur, out) && Ahead(now, cur) < |now|
    ensures (var plan, n, i := RestartOrder(es, from), |out|, Ahead(now, cur);
      && n < |plan| && out + [now[i]] == plan[..n + 1]
      && now[..i] + now[i + 1..] == plan[n + 1..])
  {
    var plan, n, i := RestartOrder(es, from), |out|, Ahead(now, cur);
    if n == 0 {
      FirstOf(now, i);
    } else {
      FrontStep(plan, n);
    }
  }

  lemma FirstOf<T>(s: seq<T>, i: nat)
    requires i < |s|
    ensures (var plan := [s[i]] + s[..i] + s[i + 1..]; plan[..1] == [s[i]] && plan[1..] == s[..i] + s[i + 1..])
  {
  }

  lemma MidwayDone<K, V>(
    es: seq<(K, V)>, from: Option<K>, now: seq<(K, V)>, cur: Option<K>, out: seq<(K, V)>)
    requires Midway(es, from, now, cur, out) && Ahead(now, cur) == |now|
    ensures out == RestartOrder(es, from) && now == if out == [] then es else []
  {
  }

  /**
    Delete-and-restart: the per-PID loop of net_tcp_retransmit starts at key 0; its per-comm loop
    and the loop of irq_stat start at NULL. All or nothing: it reads and removes every entry
    exactly once, unless the starting key is the last of the order, when it removes nothing.
   */
  method DrainRestart<K, V>(t: Table<K, V>, from: Option<K>) returns (out: seq<(K, V)>)
    requires t.Valid()
    modifies t
    ensures t.Valid()
    ensures if old(t.entries) != [] && from == Some(old(t.entries)[|old(t.entries)| - 1].0)
            then out == [] && t.entries == old(t.entries)
            else multiset(out) == multiset(old(t.entries)) && t.entries == []
    ensures out == RestartOrder(old(t.entries), from)
  {
    ghost var es := t.entries;
    var cur := from;
    out := [];
    var next := t.GetNextKey(cur);
    while next.Some?
      invariant t.Valid() && Midway(es, from, t.entries, cur, out)
      invariant next == NextKey(t.entries, cur)
      decreases |RestartOrder(es, from)| - |out|
    {
      ghost var i := Ahead(t.entries, cur);
      MidwayStep(es, from, t.entries, cur, out);
      cur := next;
      var v := Take(t, cur.value, i);
      out := out + [(cur.value, v.value)];
      next := t.GetNextKey(cur);
    }
    MidwayDone(es, from, t.entries, cur, out);
    RestartOrderIsAllOrNothing(es, from);
  }

  /** Moving the first of what is left behind what is read. */
  lemma FrontStep<T>(s: seq<T>, n: nat)
    requires n < |s|
    ensures s[n..] != [] && s[n..][0] == s[n] && s[n..][..0] + s[n..][1..] == s[n + 1..]
    ensures s[..n] + [s[n]] == s[..n + 1]
  {
  }

  /** Look-ahead-then-delete, the loop of page_fault_stat: the successor is fetched before the delete. */
  method DrainLookAhead<K, V>(t: Table<K, V>) returns (out: seq<(K, V)>)
    requires t.Valid()
    modifies t
    ensures t.Valid() && t.entries == []
    ensures out == old(t.entries)
  {
    ghost var es := t.entries;
    out := [];
    var key := t.GetNextKey(None);
    while key.Some?
      invariant t.Valid() && |out| <= |es|
      invariant out == es[..|out|] && t.entries == es[|out|..]
      invariant key == NextKey(t.entries, None)
      decreases |es| - |out|
    {
      FrontStep(es, |out|);
      RemoveAt(t.entries, 0);
      var next := t.GetNextKey(key);
      var v := Take(t, key.value, 0);
      out := out + [(key.value, v.value)];
      key := next;
    }
  }

  /** What collect-then-delete collects: at most `max` of the entries ahead of key 0. */
  function Collected<V>(es: seq<(nat, V)>, max: nat): seq<(nat, V)> {
    var ahead := es[Ahead(es, Some(0))..];
    if |ahead| <= max then ahead else ahead[..max]
  }

  /**
    Collect-then-delete, the loop of read_stat: the first pass, from key 0, fills an array of
    `max` PIDs; the second looks each one up, prints it and deletes it.
   */
  method DrainCollected<V>(t: Table<nat, V>, max: nat) returns (out: seq<(nat, V)>)
    requires t.Valid()
    modifies t
    ensures t.Valid()
    ensures out == Collected(old(t.entries), max)
    ensures var start := Ahead(old(t.entries), Some(0));
            t.entries == Cut(old(t.entries), start, |out|)
  {
    var pids := new nat[max];
    var count := CollectPids(t, pids);
    out := DeletePids(t, pids, count, Ahead(t.entries, Some(0)));
  }

  /** A table with the `n` entries from `start` on taken out. */
  function Cut<V>(es: seq<(nat, V)>, start: nat, n: nat): seq<(nat, V)>
    requires start + n <= |es|
  {
    es[..start] + es[start + n..]
  }

  lemma CutStep<V>(es: seq<(nat, V)>, start: nat, n: nat)
    requires start + n < |es|
    ensures |Cut(es, start, n)| > start && Cut(es, start, n)[start] == es[start + n]
    ensures Cut(es, start, n)[..start] + Cut(es, start, n)[start + 1..] == Cut(es, start, n + 1)
  {
  }

  /** The second pass. */
  method DeletePids<V>(t: Table<nat, V>, pids: array<nat>, count: nat, ghost start: nat)
    returns (out: seq<(nat, V)>)
    requires t.Valid() && count <= pids.Length && start + count <= |t.entries|
    requires forall i | 0 <= i < count :: pids[i] == t.entries[start + i].0
    modifies t
    ensures t.Valid() && t.entries == Cut(old(t.entries), start, count)
    ensures out == old(t.entries)[start..start + count]
  {
    ghost var es := t.entries;
    out := [];
    for i := 0 to count
      invariant t.Valid() && t.entries == Cut(es, start, i)
      invariant out == es[start..start + i]
    {
      CutStep(es, start, i);
      var v := Take(t, pids[i], start);
      out := out + [(pids[i], v.value)];
    }
  }

  /** The first pass. Every write to `pids` is in bounds. */
  method CollectPids<V>(t: Table<nat, V>, pids: array<nat>) returns (count: nat)
    requires t.Valid()
    modifies pids
    ensures count == |Collected(t.entries, pids.Length)| <= pids.Length
    ensures forall i | 0 <= i < count :: pids[i] == Collected(t.entries, pids.Length)[i].0
  {
    ghost var es := t.entries;
    ghost var start := Ahead(es, Some(0));
    count := 0;
    var pid := 0;
    var next := t.GetNextKey(Some(pid));
    while next.Some? && count < pids.Length
      invariant count <= pids.Length && start + count <= |es|
      invariant forall i | 0 <= i < count :: pids[i] == es[start + i].0
      invariant Ahead(es, Some(pid)) == start + count
      invariant next == NextKey(es, Some(pid))
      decreases |es| - count
    {
      RemoveAt(es, start + count);
      pids[count] := next.value;
      count := count + 1;
      pid := next.value;
      next := t.GetNextKey(Some(pid));
    }
  }

  /**
    Collect-then-delete is the full drain exactly when key 0 is absent: from a present key 0 the
    walk starts behind it, so key 0 itself is never collected. The array bound never cuts the walk
    when it is the capacity of the map.
   */
  lemma CollectedIsAllIff<V>(es: seq<(nat, V)>, max: nat)
    requires DistinctKeys(es) && |es| <= max
    ensures Collected(es, max) == es[Ahead(es, Some(0))..]
    ensures Collected(es, max) == es <==> Find(es, 0) == |es|
  {
  }

  /** A listing has one line per entry, so a map never lists more lines than its capacity. */
  lemma {:induction false} ListingLength<K(!new), V>(es: seq<(K, V)>, m: map<K, V>)
    requires Lists(es, m)
    ensures |es| == |m|
  {
    if es == [] {
      assert m == map[];
    } else {
      var n := |es| - 1;
      var rest := m - {es[n].0};
      forall k | k in rest ensures exists i :: 0 <= i < n && es[..n][i].0 == k {
        var i :| 0 <= i < |es| && es[i].0 == k;
        assert es[..n][i].0 == k;
      }
      ListingLength(es[..n], rest);
    }
  }

  /** Every map has a listing. */
  lemma {:induction false} ListingExists<K(!new), V>(m: map<K, V>) returns (es: seq<(K, V)>)
    ensures Lists(es, m)
    decreases |m|
  {
    if m == map[] {
      es := [];
    } else {
      var k :| k in m;
      es := ListingExists(m - {k});
      ListingSnoc(es, m, k);
      es := es + [(k, m[k])];
    }
  }

  /** A listing of the rest, with the entry of `k` behind it. */
  lemma ListingSnoc<K(!new), V>(es: seq<(K, V)>, m: map<K, V>, k: K)
    requires k in m && Lists(es, m - {k})
    ensures Lists(es + [(k, m[k])], m)
  {
    var all := es + [(k, m[k])];
    assert forall i | 0 <= i < |es| :: all[i] == es[i];
    forall j | j in m ensures exists i :: 0 <= i < |all| && all[i].0 == j {
      if j == k {
        assert all[|es|].0 == j;
      } else {
        assert j in m - {k};
        var i :| 0 <= i < |es| && es[i].0 == j;
        assert all[i].0 == j;
      }
    }
  }

  /** A walk from a present key 0 never comes to key 0. */
  lemma ZeroIsNotAhead<V>(es: seq<(nat, V)>)
    requires DistinctKeys(es) && Find(es, 0) < |es|
    ensures forall j | 0 <= j < |es[Ahead(es, Some(0))..]| :: es[Ahead(es, Some(0))..][j].0 != 0
  {
    var start := Find(es, 0) + 1;
    assert forall j | 0 <= j < |es| - start :: es[start..][j] == es[start + j];
  }

  /** A full read-only walk from key 0 visits every entry of a map without key 0. */
  lemma WalkFromZero<V>(es: seq<(nat, V)>, m: map<nat, V>)
    requires Lists(es, m) && 0 !in m
    ensures Ahead(es, Some(0)) == 0
  {
  }

  // ---- Read-only walks ----

  /** The state of a poller after it has visited the entries, one after the other. */
  function VisitAll<S, K, V>(visit: (S, (K, V)) -> S, s: S, es: seq<(K, V)>): S {
    if es == [] then s else visit(VisitAll(visit, s, es[..|es| - 1]), es[|es| - 1])
  }

  lemma VisitOneMore<S, K, V>(visit: (S, (K, V)) -> S, s: S, es: seq<(K, V)>, start: nat, n: nat)
    requires start <= n < |es|
    ensures VisitAll(visit, s, es[start..n + 1]) == visit(VisitAll(visit, s, es[start..n]), es[n])
  {
    assert es[start..n + 1][..n - start] == es[start..n];
  }

  /** `same` compares what concerns key `k`; a visit depends on, and changes, only what concerns its own key. */
  ghost predicate Local<S(!new), K(!new), V(!new)>(visit: (S, (K, V)) -> S, same: (S, S) -> bool, k: K) {
    && (forall a: S, b: S, e: (K, V) | same(a, b) && e.0 == k :: same(visit(a, e), visit(b, e)))
    && (forall a: S, b: S, e: (K, V) | same(a, b) && e.0 != k :: same(visit(a, e), b))
  }

  /** A key that is not listed is not touched. */
  lemma {:induction false} VisitUnlisted<S(!new), K(!new), V(!new)>(
    visit: (S, (K, V)) -> S, same: (S, S) -> bool, s: S, es: seq<(K, V)>, k: K)
    requires Local(visit, same, k) && same(s, s) && forall i | 0 <= i < |es| :: es[i].0 != k
    ensures same(VisitAll(visit, s, es), s)
  {
    if es != [] {
      VisitUnlisted(visit, same, s, es[..|es| - 1], k);
    }
  }

  /** A walk over distinct keys treats a listed key exactly once, from its old state. */
  lemma {:induction false} VisitListedOnce<S(!new), K(!new), V(!new)>(
    visit: (S, (K, V)) -> S, same: (S, S) -> bool, s: S, es: seq<(K, V)>, i: nat)
    requires DistinctKeys(es) && i < |es| && Local(visit, same, es[i].0) && same(s, s)
    ensures same(VisitAll(visit, s, es), visit(s, es[i]))
  {
    var n := |es| - 1;
    if i == n {
      VisitUnlisted(visit, same, s, es[..n], es[n].0);
    } else {
      VisitListedOnce(visit, same, s, es[..n], i);
    }
  }
}
