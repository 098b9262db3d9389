/**
  The shared vocabulary of every tool: u64 arithmetic, the capacity-bounded eBPF hash map,
  event traces, and sums over maps and sequences.

  An eBPF hash map is a Dafny map together with its `max_entries`. Updating a present key
  always succeeds; inserting a new key fails, silently for every handler of this repository,
  once the map is full.
 */
module Bpf {
  const U64: nat := 0x1_0000_0000_0000_0000

  datatype Option<+T> = None | Some(value: T)

  /** A finite history of events, latest on the outside. */
  datatype Trace<E> = Start | Then(before: Trace<E>, event: E)

  type u64 = x: nat | x < U64 witness 0
  type u32 = x: nat | x < 0x1_0000_0000 witness 0

  /** What an unbounded count looks like in a u64: its residue modulo 2^64. */
  function Wrap(x: nat): (r: u64)
    ensures x < U64 ==> r == x
  {
    if x < U64 then x else Wrap(x - U64)
  }

  lemma {:induction false} WrapIsResidue(x: nat)
    ensures Wrap(x) == x % 0x1_0000_0000_0000_0000
  {
    if x >= U64 {
      WrapIsResidue(x - U64);
    }
  }

  /** `__sync_fetch_and_add` on a u64. */
  function AddU64(a: u64, b: u64): (r: u64)
    ensures a + b < U64 ==> r == a + b
  {
    if a + b < U64 then a + b else a + b - U64
  }

  /** A counter that adds modulo 2^64 holds the residue of the true sum. */
  lemma {:induction false} WrapAdd(x: nat, d: u64, sum: nat)
    requires sum == x + d
    ensures AddU64(Wrap(x), d) == Wrap(sum)
  {
    if x >= U64 {
      WrapAdd(x - U64, d, sum - U64);
    }
  }

  /** Unsigned subtraction: exact when it does not underflow, wrapped otherwise. */
  function SubU64(a: u64, b: u64): (r: u64)
    ensures b <= a ==> r == a - b
    ensures AddU64(r, b) == a
  {
    if b <= a then a - b else a + U64 - b
  }

  /** The guarded difference of the pollers: a counter that went back has not grown. */
  function Growth(cur: u64, prev: u64): u64 {
    if cur > prev then cur - prev else 0
  }

  /** A counter of a map, zero when it is absent. */
  function Value<K>(m: map<K, u64>, k: K): u64 {
    if k in m then m[k] else 0
  }

  /** `bpf_map_update_elem` with `BPF_ANY`. */
  function Put<K, V>(m: map<K, V>, cap: nat, k: K, v: V): (r: map<K, V>)
    ensures k in r <==> k in m || |m| < cap
    ensures r == if k in r then m[k := v] else m
    ensures |m| <= cap ==> |r| <= cap
    ensures |m| <= |r|
  {
    if k in m || |m| < cap then m[k := v] else m
  }

  lemma SubsetSize<K>(a: set<K>, b: set<K>)
    requires a <= b
    ensures |a| <= |b|
  {
    assert b == a + (b - a);
  }

  /** An insert succeeds when some set that holds the old keys and the new one is within the capacity. */
  lemma PutFits<K, V>(m: map<K, V>, cap: nat, k: K, v: V, room: set<K>)
    requires m.Keys + {k} <= room && |room| <= cap
    ensures Put(m, cap, k, v) == m[k := v]
  {
    SubsetSize(m.Keys + {k}, room);
    if k !in m {
      assert |m.Keys + {k}| == |m| + 1;
    }
  }

  /** The counter idiom: lookup, atomic add if present, insert otherwise. */
  function Bump<K>(m: map<K, u64>, cap: nat, k: K, d: u64): (r: map<K, u64>)
    ensures k in r <==> k in m || |m| < cap
    ensures k in r ==> r == m[k := if k in m then AddU64(m[k], d) else d]
    ensures k !in r ==> r == m
    ensures |m| <= cap ==> |r| <= cap
    ensures |m| <= |r|
  {
    if k in m then m[k := AddU64(m[k], d)] else Put(m, cap, k, d)
  }

  /** An add on one slot of a `BPF_MAP_TYPE_ARRAY` map; an index out of range is not found. */
  function AddAt(a: seq<u64>, i: nat, d: u64): (r: seq<u64>)
    ensures |r| == |a|
    ensures forall j | 0 <= j < |a| :: r[j] == if j == i then AddU64(a[j], d) else a[j]
  {
    if i < |a| then a[i := AddU64(a[i], d)] else a
  }

  function Sum(s: seq<nat>): nat {
    if s == [] then 0 else Sum(s[..|s| - 1]) + s[|s| - 1]
  }

  lemma SumSnoc(s: seq<nat>, x: nat)
    ensures Sum(s + [x]) == Sum(s) + x
  {
    assert (s + [x])[..|s|] == s;
  }

  lemma {:induction false} SumConcat(a: seq<nat>, b: seq<nat>)
    ensures Sum(a + b) == Sum(a) + Sum(b)
    decreases |b|
  {
    if b == [] {
      assert a + b == a;
    } else {
      var c, x := b[..|b| - 1], b[|b| - 1];
      assert a + b == (a + c) + [x];
      SumConcat(a, c);
      SumSnoc(a + c, x);
    }
  }

  lemma {:induction false} SumUpdate(s: seq<nat>, i: nat, x: nat)
    requires i < |s|
    ensures Sum(s[i := x]) == Sum(s) - s[i] + x
  {
    var n := |s| - 1;
    if i == n {
      assert s[i := x][..n] == s[..n];
    } else {
      assert s[i := x][..n] == s[..n][i := x];
      SumUpdate(s[..n], i, x);
    }
  }

  lemma SumAddAt(s: seq<u64>, i: nat, d: u64)
    requires i < |s| && s[i] + d < U64
    ensures Sum(AddAt(s, i, d)) == Sum(s) + d
  {
    SumUpdate(s, i, s[i] + d);
    assert AddAt(s, i, d) == s[i := s[i] + d];
  }

  ghost function Pick<K>(m: map<K, nat>): (k: K)
    requires m != map[]
    ensures k in m
  {
    var k :| k in m;
    k
  }

  /** The sum of a map's values. */
  ghost function Total<K>(m: map<K, nat>): nat
    decreases |m|
  {
    if m == map[] then 0 else
      var k := Pick(m);
      m[k] + Total(m - {k})
  }

  lemma {:induction false} TotalRemove<K>(m: map<K, nat>, k: K)
    requires k in m
    ensures Total(m) == m[k] + Total(m - {k})
    decreases |m|
  {
    var j := Pick(m);
    if j != k {
      TotalRemove(m - {j}, k);
      TotalRemove(m - {k}, j);
      assert m - {j} - {k} == m - {k} - {j};
    }
  }

  /** What one assignment does to the sum of a map. */
  lemma TotalUpdate<K>(m: map<K, nat>, k: K, v: nat)
    ensures Total(m[k := v]) == Total(m) - (if k in m then m[k] else 0) + v
    ensures Total(m - {k}) == Total(m) - (if k in m then m[k] else 0)
  {
    TotalRemove(m[k := v], k);
    assert m[k := v] - {k} == m - {k};
    if k in m {
      TotalRemove(m, k);
    } else {
      assert m - {k} == m;
    }
  }

  /** A counter bump adds its amount to the sum of the map, unless the insert is dropped. */
  lemma BumpTotal<K>(m: map<K, u64>, cap: nat, k: K, d: u64)
    requires k in m ==> m[k] + d < U64
    ensures Total(Bump(m, cap, k, d)) == Total(m) + if k in m || |m| < cap then d else 0
  {
    if k in m || |m| < cap {
      var v := if k in m then m[k] + d else d;
      assert Bump(m, cap, k, d) == m[k := v];
      TotalUpdate(m, k, v);
    } else {
      assert Bump(m, cap, k, d) == m;
    }
  }

  /** Sums are additive, key by key. */
  lemma {:induction false} TotalAdditive<K>(a: map<K, nat>, b: map<K, nat>, c: map<K, nat>)
    requires a.Keys == b.Keys == c.Keys && forall k | k in a :: c[k] == a[k] + b[k]
    ensures Total(c) == Total(a) + Total(b)
    decreases |a|
  {
    if a != map[] {
      var k := Pick(a);
      TotalRemove(a, k);
      TotalRemove(b, k);
      TotalRemove(c, k);
      TotalAdditive(a - {k}, b - {k}, c - {k});
    } else {
      assert b == map[] && c == map[];
    }
  }

  /** `a` is `b` with some elements left out. */
  predicate Subsequence<T(==)>(a: seq<T>, b: seq<T>) {
    if a == [] then true
    else if b == [] then false
    else
      var x, y := a[|a| - 1], b[|b| - 1];
      (x == y && Subsequence(a[..|a| - 1], b[..|b| - 1])) || Subsequence(a, b[..|b| - 1])
  }

  lemma {:induction false} SubsequenceSnoc<T>(a: seq<T>, b: seq<T>, x: T)
    requires Subsequence(a, b)
    ensures Subsequence(a, b + [x]) && Subsequence(a + [x], b + [x])
  {
    assert (b + [x])[..|b|] == b && (a + [x])[..|a|] == a;
  }
}
