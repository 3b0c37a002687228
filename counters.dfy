/**
 * The dictionary idioms the analyses are built from: `d.get(k, 0) + 1`,
 * `d.setdefault(k, {})`, and `sum(d.values())`.
 */
module Counters {

  /** `m.get(k, d)`. */
  function Get<K, V>(m: map<K, V>, k: K, d: V): V {
    if k in m then m[k] else d
  }

  /** `m[k] = m.get(k, 0) + 1`: one more occurrence of `k`, every other entry untouched. */
  function Bump<K>(m: map<K, nat>, k: K): (r: map<K, nat>)
    ensures r.Keys == m.Keys + {k}
    ensures r[k] == Get(m, k, 0) + 1
    ensures forall j :: j in m && j != k ==> r[j] == m[j]
  {
    m[k := Get(m, k, 0) + 1]
  }

  /** `inner = m.setdefault(k1, {}); inner[k2] = inner.get(k2, 0) + 1`. */
  function Bump2<K1, K2>(m: map<K1, map<K2, nat>>, k1: K1, k2: K2): (r: map<K1, map<K2, nat>>)
    ensures r.Keys == m.Keys + {k1}
    ensures r[k1] == Bump(Get(m, k1, map[]), k2)
    ensures forall j :: j in m && j != k1 ==> r[j] == m[j]
  {
    m[k1 := Bump(Get(m, k1, map[]), k2)]
  }

  /** Every count in the dictionary is at least one. */
  predicate Positive<K>(m: map<K, nat>) {
    forall k :: k in m ==> m[k] >= 1
  }

  /** Some key of a non-empty dictionary: the one a sum visits first. */
  ghost function Pick<K, V>(m: map<K, V>): (k: K)
    requires |m| > 0
    ensures k in m
  {
    var k :| k in m.Keys; k
  }

  /** `sum(m.values())`. */
  ghost function Sum<K>(m: map<K, nat>): nat
    decreases |m|
  {
    if |m| == 0 then 0 else m[Pick(m)] + Sum(m - {Pick(m)})
  }

  lemma RemoveCommutes<K, V>(m: map<K, V>, j: K, k: K)
    ensures m - {j} - {k} == m - {k} - {j}
  {
  }

  /** A sum can be taken apart at any key. */
  lemma {:induction false} SumRemove<K>(m: map<K, nat>, k: K)
    requires k in m
    ensures Sum(m) == m[k] + Sum(m - {k})
    decreases |m|
  {
    var j := Pick(m);
    if j != k {
      SumRemove(m - {j}, k);
      SumRemove(m - {k}, j);
      RemoveCommutes(m, j, k);
    }
  }

  /** Bumping `k` leaves the rest of the dictionary as it was. */
  lemma BumpRest<K>(m: map<K, nat>, k: K)
    ensures Bump(m, k) - {k} == m - {k}
    ensures k !in m ==> m - {k} == m
  {
  }

  /** One bump adds exactly one to the sum. */
  lemma SumBump<K>(m: map<K, nat>, k: K)
    ensures Sum(Bump(m, k)) == Sum(m) + 1
  {
    SumRemove(Bump(m, k), k);
    BumpRest(m, k);
    if k in m {
      SumRemove(m, k);
    }
  }

  /** A dictionary of positive counts sums to at least its number of keys. */
  lemma {:induction false} SumAtLeastSize<K>(m: map<K, nat>)
    requires Positive(m)
    ensures Sum(m) >= |m|
    decreases |m|
  {
    if |m| > 0 {
      var k := Pick(m);
      SumAtLeastSize(m - {k});
    }
  }

  /** Each count is at most the sum. */
  lemma SumAtLeastEntry<K>(m: map<K, nat>, k: K)
    requires k in m
    ensures m[k] <= Sum(m)
  {
    SumRemove(m, k);
  }

  /** `sum(m.values())`, computed one key at a time. */
  method SumOf<K>(m: map<K, nat>) returns (s: nat)
    ensures s == Sum(m)
  {
    s := 0;
    var left := m;
    while left != map[]
      invariant s + Sum(left) == Sum(m)
      decreases |left|
    {
      var k :| k in left;
      SumRemove(left, k);
      s := s + left[k];
      left := left - {k};
    }
  }

  // ---------------------------------------------------------------------
  // Dictionaries of dictionaries

  /** `m[k1][k2]` bumped through `setdefault` twice. */
  function Bump3<K1, K2, K3>(m: map<K1, map<K2, map<K3, nat>>>, k1: K1, k2: K2, k3: K3): (r: map<K1, map<K2, map<K3, nat>>>)
    ensures r.Keys == m.Keys + {k1}
    ensures r[k1] == Bump2(Get(m, k1, map[]), k2, k3)
    ensures forall j :: j in m && j != k1 ==> r[j] == m[j]
  {
    m[k1 := Bump2(Get(m, k1, map[]), k2, k3)]
  }

  /** Every inner dictionary is non-empty and holds positive counts. */
  predicate Nested<K1, K2>(m: map<K1, map<K2, nat>>) {
    forall k :: k in m ==> |m[k]| > 0 && Positive(m[k])
  }

  /** `{k: sum(v.values()) for k, v in m.items()}`. */
  ghost function Totals<K1, K2>(m: map<K1, map<K2, nat>>): (r: map<K1, nat>)
    ensures r.Keys == m.Keys
  {
    map k | k in m :: Sum(m[k])
  }

  /** `{k: len(v) for k, v in m.items()}`. */
  function Sizes<K1, K2, V>(m: map<K1, map<K2, V>>): (r: map<K1, nat>)
    ensures r.Keys == m.Keys
  {
    map k | k in m :: |m[k]|
  }

  /** Bumping keeps counts positive and dictionaries non-empty. */
  lemma NestedBump2<K1, K2>(m: map<K1, map<K2, nat>>, k1: K1, k2: K2)
    requires Nested(m)
    ensures Nested(Bump2(m, k1, k2))
  {
  }

  lemma TotalsRemove<K1, K2>(m: map<K1, map<K2, nat>>, k: K1)
    ensures Totals(m) - {k} == Totals(m - {k})
  {
  }

  /** A nested bump adds one to the total of its outer key and nothing else. */
  lemma TotalsBump2<K1, K2>(m: map<K1, map<K2, nat>>, k1: K1, k2: K2)
    ensures Totals(Bump2(m, k1, k2)) == Bump(Totals(m), k1)
  {
    TotalsBumpAt(m, k1, k2);
    forall j | j in m && j != k1
      ensures Totals(Bump2(m, k1, k2))[j] == Totals(m)[j]
    {
      TotalsBumpOther(m, k1, k2, j);
    }
    BumpExt(Totals(Bump2(m, k1, k2)), Totals(m), k1);
  }

  lemma TotalsBumpAt<K1, K2>(m: map<K1, map<K2, nat>>, k1: K1, k2: K2)
    ensures Totals(Bump2(m, k1, k2))[k1] == Get(Totals(m), k1, 0) + 1
  {
    SumBump(Get(m, k1, map[]), k2);
    assert Sum<K2>(map[]) == 0;
  }

  lemma TotalsBumpOther<K1, K2>(m: map<K1, map<K2, nat>>, k1: K1, k2: K2, j: K1)
    requires j in m && j != k1
    ensures Totals(Bump2(m, k1, k2))[j] == Totals(m)[j]
  {
    assert Bump2(m, k1, k2)[j] == m[j];
  }

  /** Per key, a nested dictionary of positive counts has `1 <= len(v) <= sum(v.values())`. */
  lemma SizesWithinTotals<K1, K2>(m: map<K1, map<K2, nat>>, k: K1)
    requires Nested(m) && k in m
    ensures 1 <= Sizes(m)[k] <= Totals(m)[k]
  {
    SumAtLeastSize(m[k]);
  }

  /** The keys of all inner dictionaries together. */
  function Union<K1, K2, V>(m: map<K1, map<K2, V>>): set<K2> {
    set j, a | j in m && a in m[j] :: a
  }

  lemma UnionRemove<K1, K2, V>(m: map<K1, map<K2, V>>, j: K1)
    requires j in m
    ensures Union(m) == m[j].Keys + Union(m - {j})
  {
    forall a | a in Union(m)
      ensures a in m[j].Keys + Union(m - {j})
    {
      var i :| i in m && a in m[i];
      if i != j {
        assert (m - {j})[i] == m[i];
      }
    }
    forall a | a in Union(m - {j})
      ensures a in Union(m)
    {
      var i :| i in m - {j} && a in (m - {j})[i];
      assert a in m[i];
    }
  }

  lemma SubsetSize<T>(a: set<T>, b: set<T>)
    requires a <= b
    ensures |a| <= |b|
  {
    var c := b - a;
    assert a + c == b;
    assert a * c == {};
  }

  /** The keys of the inner dictionaries under the outer keys in `done`. */
  function UnionOver<K1, K2, V>(m: map<K1, map<K2, V>>, done: set<K1>): set<K2> {
    set j, a | j in done && j in m && a in m[j] :: a
  }

  lemma UnionOverAdd<K1, K2, V>(m: map<K1, map<K2, V>>, done: set<K1>, j: K1)
    requires j in m
    ensures UnionOver(m, done + {j}) == UnionOver(m, done) + m[j].Keys
  {
  }

  lemma UnionOverAll<K1, K2, V>(m: map<K1, map<K2, V>>, done: set<K1>)
    requires done == m.Keys
    ensures UnionOver(m, done) == Union(m)
  {
  }

  /** Distinct inner keys are no more than the sum of all counts. */
  lemma {:induction false} UnionWithinTotal<K1, K2>(m: map<K1, map<K2, nat>>)
    requires Nested(m)
    ensures |Union(m)| <= Sum(Totals(m))
    decreases |m|
  {
    if |m| > 0 {
      var j := Pick(m);
      UnionRemove(m, j);
      UnionWithinTotal(m - {j});
      SumAtLeastSize(m[j]);
      SumRemove(Totals(m), j);
      TotalsRemove(m, j);
      assert |m[j].Keys| == |m[j]|;
    }
  }

  /** Each inner dictionary's keys are among the union. */
  lemma UnionCovers<K1, K2, V>(m: map<K1, map<K2, V>>, j: K1)
    requires j in m
    ensures |m[j]| <= |Union(m)|
  {
    UnionRemove(m, j);
    SubsetSize(m[j].Keys, Union(m));
    assert |m[j].Keys| == |m[j]|;
  }

  /** Two distinct entries together are at most the sum. */
  lemma SumTwo<K>(m: map<K, nat>, a: K, b: K)
    requires a in m && b in m && a != b
    ensures m[a] + m[b] <= Sum(m)
  {
    SumRemove(m, a);
    SumRemove(m - {a}, b);
  }

  /** `sum(v.values())` for every inner dictionary, one at a time. */
  method TotalsOf<K1, K2>(m: map<K1, map<K2, nat>>) returns (r: map<K1, nat>)
    ensures r == Totals(m)
  {
    r := map[];
    var left := m.Keys;
    while left != {}
      invariant left <= m.Keys
      invariant r.Keys == m.Keys - left
      invariant TotalsSoFar(m, r)
      decreases |left|
    {
      var k :| k in left;
      var s := SumOf(m[k]);
      TotalsStep(m, r, k, s);
      r := r[k := s];
      left := left - {k};
    }
    TotalsDone(m, r);
  }

  /** The entries computed so far agree with `Totals(m)`. */
  ghost predicate TotalsSoFar<K1, K2>(m: map<K1, map<K2, nat>>, r: map<K1, nat>) {
    forall k :: k in r ==> k in m && r[k] == Sum(m[k])
  }

  lemma TotalsStep<K1, K2>(m: map<K1, map<K2, nat>>, r: map<K1, nat>, k: K1, s: nat)
    requires TotalsSoFar(m, r) && k in m && s == Sum(m[k])
    ensures TotalsSoFar(m, r[k := s])
  {
  }

  lemma TotalsDone<K1, K2>(m: map<K1, map<K2, nat>>, r: map<K1, nat>)
    requires TotalsSoFar(m, r) && r.Keys == m.Keys
    ensures r == Totals(m)
  {
    MapExt(r, Totals(m));
  }

  // ---------------------------------------------------------------------
  // Counters built from a history of keys

  /** The nested counter after bumping `m[k1][k2]` for each pair of `keys`, in order. */
  function Tally<K1, K2>(keys: seq<(K1, K2)>): map<K1, map<K2, nat>>
    decreases |keys|
  {
    if keys == [] then map[]
    else
      var x := keys[|keys| - 1];
      Bump2(Tally(keys[..|keys| - 1]), x.0, x.1)
  }

  /** The first components of a sequence of pairs. */
  function Firsts<K1(==), K2(==)>(keys: seq<(K1, K2)>): set<K1> {
    set x | x in keys :: x.0
  }

  lemma MultisetSnoc<T>(s: seq<T>)
    requires |s| > 0
    ensures multiset(s) == multiset(s[..|s| - 1]) + multiset{s[|s| - 1]}
    ensures forall x :: x in s <==> x in s[..|s| - 1] || x == s[|s| - 1]
  {
    assert s == s[..|s| - 1] + [s[|s| - 1]];
  }

  /**
   * A nested counter is the multiset of its history: `m[k1][k2]` is the number
   * of times the pair `(k1, k2)` occurred, and the outer keys are exactly the
   * first components that occurred.
   */
  lemma {:induction false} TallyCounts<K1, K2>(keys: seq<(K1, K2)>)
    ensures Tally(keys).Keys == Firsts(keys)
    ensures forall k1, k2 :: Get(Get(Tally(keys), k1, map[]), k2, 0) == multiset(keys)[(k1, k2)]
    decreases |keys|
  {
    if keys != [] {
      var init := keys[..|keys| - 1];
      var x := keys[|keys| - 1];
      TallyCounts(init);
      MultisetSnoc(keys);
      forall k1, k2
        ensures Get(Get(Tally(keys), k1, map[]), k2, 0) == multiset(keys)[(k1, k2)]
      {
        if k1 == x.0 && k2 == x.1 {
          assert (k1, k2) == x;
        } else if k1 == x.0 {
          assert (k1, k2) != x;
        }
      }
    }
  }

  /** A tally holds non-empty inner counters of positive counts. */
  lemma {:induction false} TallyNested<K1, K2>(keys: seq<(K1, K2)>)
    ensures Nested(Tally(keys))
    decreases |keys|
  {
    if keys != [] {
      var x := keys[|keys| - 1];
      TallyNested(keys[..|keys| - 1]);
      NestedBump2(Tally(keys[..|keys| - 1]), x.0, x.1);
    }
  }

  /** The counts of a tally sum to the length of its history. */
  lemma {:induction false} TallyTotal<K1, K2>(keys: seq<(K1, K2)>)
    ensures Sum(Totals(Tally(keys))) == |keys|
    decreases |keys|
  {
    if keys != [] {
      var x := keys[|keys| - 1];
      var before := Tally(keys[..|keys| - 1]);
      TallyTotal(keys[..|keys| - 1]);
      TotalsBump2(before, x.0, x.1);
      SumBump(Totals(before), x.0);
    }
  }

  /** Inner counters of a three-level dictionary are themselves nested counters. */
  predicate Nested3<K1, K2, K3>(m: map<K1, map<K2, map<K3, nat>>>) {
    forall k :: k in m ==> |m[k]| > 0 && Nested(m[k])
  }

  /** `{k: sum(sum(m.values()) for m in v.values()) for k, v in m.items()}`. */
  ghost function Grand<K1, K2, K3>(m: map<K1, map<K2, map<K3, nat>>>): (r: map<K1, nat>)
    ensures r.Keys == m.Keys
  {
    map k | k in m :: Sum(Totals(m[k]))
  }

  /** The three-level counter after bumping `m[k1][k2][k3]` for each triple of `keys`. */
  function Tally3<K1, K2, K3>(keys: seq<(K1, K2, K3)>): map<K1, map<K2, map<K3, nat>>>
    decreases |keys|
  {
    if keys == [] then map[]
    else
      var x := keys[|keys| - 1];
      Bump3(Tally3(keys[..|keys| - 1]), x.0, x.1, x.2)
  }

  lemma GrandBumpAt<K1, K2, K3>(m: map<K1, map<K2, map<K3, nat>>>, k1: K1, k2: K2, k3: K3)
    ensures Grand(Bump3(m, k1, k2, k3))[k1] == Get(Grand(m), k1, 0) + 1
  {
    var inner := Get(m, k1, map[]);
    TotalsBump2(inner, k2, k3);
    SumBump(Totals(inner), k2);
    assert Sum(Totals<K2, K3>(map[])) == 0;
  }

  lemma GrandBump3<K1, K2, K3>(m: map<K1, map<K2, map<K3, nat>>>, k1: K1, k2: K2, k3: K3)
    ensures Grand(Bump3(m, k1, k2, k3)) == Bump(Grand(m), k1)
  {
    GrandBumpAt(m, k1, k2, k3);
    forall j | j in m && j != k1
      ensures Grand(Bump3(m, k1, k2, k3))[j] == Grand(m)[j]
    {
      GrandBumpOther(m, k1, k2, k3, j);
    }
    BumpExt(Grand(Bump3(m, k1, k2, k3)), Grand(m), k1);
  }

  /** A dictionary that agrees with `Bump(g, k)` key by key is `Bump(g, k)`. */
  lemma BumpExt<K>(r: map<K, nat>, g: map<K, nat>, k: K)
    requires r.Keys == g.Keys + {k}
    requires r[k] == Get(g, k, 0) + 1
    requires forall j :: j in g && j != k ==> r[j] == g[j]
    ensures r == Bump(g, k)
  {
    MapExt(r, Bump(g, k));
  }

  lemma GrandBumpOther<K1, K2, K3>(m: map<K1, map<K2, map<K3, nat>>>, k1: K1, k2: K2, k3: K3, j: K1)
    requires j in m && j != k1
    ensures Grand(Bump3(m, k1, k2, k3))[j] == Grand(m)[j]
  {
    assert Bump3(m, k1, k2, k3)[j] == m[j];
  }

  lemma MapExt<K, V>(r: map<K, V>, b: map<K, V>)
    requires r.Keys == b.Keys
    requires forall j :: j in r ==> r[j] == b[j]
    ensures r == b
  {
  }

  /** A three-level tally is the multiset of its history, as `TallyCounts` states for two levels. */
  lemma {:induction false} Tally3Counts<K1, K2, K3>(keys: seq<(K1, K2, K3)>)
    ensures forall k1, k2, k3 :: Get(Get(Get(Tally3(keys), k1, map[]), k2, map[]), k3, 0) == multiset(keys)[(k1, k2, k3)]
    decreases |keys|
  {
    if keys != [] {
      var x := keys[|keys| - 1];
      Tally3Counts(keys[..|keys| - 1]);
      MultisetSnoc(keys);
      forall k1, k2, k3
        ensures Get(Get(Get(Tally3(keys), k1, map[]), k2, map[]), k3, 0) == multiset(keys)[(k1, k2, k3)]
      {
        if k1 == x.0 && k2 == x.1 && k3 == x.2 {
          assert (k1, k2, k3) == x;
        } else {
          assert (k1, k2, k3) != x;
        }
      }
    }
  }

  lemma {:induction false} Tally3Nested<K1, K2, K3>(keys: seq<(K1, K2, K3)>)
    ensures Nested3(Tally3(keys))
    decreases |keys|
  {
    if keys != [] {
      var x := keys[|keys| - 1];
      var before := Tally3(keys[..|keys| - 1]);
      Tally3Nested(keys[..|keys| - 1]);
      NestedBump2(Get(before, x.0, map[]), x.1, x.2);
    }
  }

  /** The counts of a three-level tally sum to the length of its history. */
  lemma {:induction false} Tally3Total<K1, K2, K3>(keys: seq<(K1, K2, K3)>)
    ensures Sum(Grand(Tally3(keys))) == |keys|
    decreases |keys|
  {
    if keys != [] {
      var x := keys[|keys| - 1];
      var before := Tally3(keys[..|keys| - 1]);
      Tally3Total(keys[..|keys| - 1]);
      GrandBump3(before, x.0, x.1, x.2);
      SumBump(Grand(before), x.0);
    }
  }

  /** `{k: sum(sum(m.values()) for m in v.values()) for k, v in m.items()}`, one key at a time. */
  method GrandOf<K1, K2, K3>(m: map<K1, map<K2, map<K3, nat>>>) returns (r: map<K1, nat>)
    ensures r == Grand(m)
  {
    r := map[];
    var left := m.Keys;
    while left != {}
      invariant left <= m.Keys
      invariant r.Keys == m.Keys - left
      invariant GrandSoFar(m, r)
      decreases |left|
    {
      var k :| k in left;
      var s := TotalSum(m[k]);
      GrandStep(m, r, k, s);
      r := r[k := s];
      left := left - {k};
    }
    GrandDone(m, r);
  }

  /** The entries computed so far agree with `Grand(m)`. */
  ghost predicate GrandSoFar<K1, K2, K3>(m: map<K1, map<K2, map<K3, nat>>>, r: map<K1, nat>) {
    forall k :: k in r ==> k in m && r[k] == Sum(Totals(m[k]))
  }

  lemma GrandStep<K1, K2, K3>(m: map<K1, map<K2, map<K3, nat>>>, r: map<K1, nat>, k: K1, s: nat)
    requires GrandSoFar(m, r) && k in m && s == Sum(Totals(m[k]))
    ensures GrandSoFar(m, r[k := s])
  {
  }

  lemma GrandDone<K1, K2, K3>(m: map<K1, map<K2, map<K3, nat>>>, r: map<K1, nat>)
    requires GrandSoFar(m, r) && r.Keys == m.Keys
    ensures r == Grand(m)
  {
    MapExt(r, Grand(m));
  }

  /** `sum(sum(m.values()) for m in v.values())`. */
  method TotalSum<K2, K3>(v: map<K2, map<K3, nat>>) returns (s: nat)
    ensures s == Sum(Totals(v))
  {
    var t := TotalsOf(v);
    s := SumOf(t);
  }
  // ---------------------------------------------------------------------
  // Sums of exact fractions

  /** `sum(m.values())` over exact real values. */
  ghost function SumReal<K>(m: map<K, real>): real
    decreases |m|
  {
    if |m| == 0 then 0.0 else m[Pick(m)] + SumReal(m - {Pick(m)})
  }

  /** A real sum can be taken apart at any key. */
  lemma {:induction false} SumRealRemove<K>(m: map<K, real>, k: K)
    requires k in m
    ensures SumReal(m) == m[k] + SumReal(m - {k})
    decreases |m|
  {
    var j := Pick(m);
    if j != k {
      SumRealRemove(m - {j}, k);
      SumRealRemove(m - {k}, j);
      RemoveCommutes(m, j, k);
    }
  }

  /** `n` copies of `c` added up: `n*c` reached by additions only. */
  function Times(n: nat, c: real): real {
    if n == 0 then 0.0 else c + Times(n - 1, c)
  }

  /** `Times` is multiplication. */
  lemma {:induction false} TimesIsMul(n: nat, c: real)
    ensures Times(n, c) == (n as real) * c
    decreases n
  {
    if n > 0 {
      TimesIsMul(n - 1, c);
      var p := (n - 1) as real;
      assert (p + 1.0) * c == p * c + c;
    }
  }

  /** `(a+b)*c == a*c + b*c`, proved by additions. */
  lemma {:induction false} TimesAdd(a: nat, b: nat, c: real)
    ensures Times(a + b, c) == Times(a, c) + Times(b, c)
    decreases a
  {
    if a > 0 {
      TimesAdd(a - 1, b, c);
    }
  }

  /** Each count scaled by the same factor. */
  function Scale<K>(m: map<K, nat>, c: real): (r: map<K, real>)
    ensures r.Keys == m.Keys
  {
    map k | k in m :: Times(m[k], c)
  }

  lemma ScaleAt<K>(m: map<K, nat>, c: real, k: K)
    requires k in m
    ensures Scale(m, c)[k] == Times(m[k], c)
  {
  }

  lemma ScaleRemove<K>(m: map<K, nat>, c: real, k: K)
    ensures Scale(m, c) - {k} == Scale(m - {k}, c)
  {
    forall j | j in Scale(m, c) - {k}
      ensures (Scale(m, c) - {k})[j] == Scale(m - {k}, c)[j]
    {
      assert j in m - {k};
    }
    MapExt(Scale(m, c) - {k}, Scale(m - {k}, c));
  }

  /** Scaling every count scales the sum: `sum(v*c for v in m.values()) == sum(m.values())*c`. */
  lemma {:induction false} ScaledSum<K>(m: map<K, nat>, c: real)
    ensures SumReal(Scale(m, c)) == Times(Sum(m), c)
    decreases |m|
  {
    if |m| > 0 {
      var k := Pick(m);
      ScaledSum(m - {k}, c);
      ScaledSumStep(m, c, k);
    } else {
      assert Scale(m, c) == map[];
    }
  }

  lemma ScaledSumStep<K>(m: map<K, nat>, c: real, k: K)
    requires k in m
    requires SumReal(Scale(m - {k}, c)) == Times(Sum(m - {k}), c)
    ensures SumReal(Scale(m, c)) == Times(Sum(m), c)
  {
    SumRealRemove(Scale(m, c), k);
    ScaleRemove(m, c, k);
    SumRemove(m, k);
    ScaleAt(m, c, k);
    TimesAdd(m[k], Sum(m - {k}), c);
  }

  // ---------------------------------------------------------------------
  // Flat counters built from a history of keys

  /** `m` after `m[k] = m.get(k, 0) + 1` for each key of `keys`, in order. */
  function CountFrom<K>(m: map<K, nat>, keys: seq<K>): map<K, nat>
    decreases |keys|
  {
    if keys == [] then m else Bump(CountFrom(m, keys[..|keys| - 1]), keys[|keys| - 1])
  }

  /** The counter of `keys`, started empty. */
  function Count<K>(keys: seq<K>): map<K, nat> {
    CountFrom(map[], keys)
  }

  /** A counter holds the keys it started with and the keys counted, and grows by their occurrences. */
  lemma {:induction false} CountFromAt<K>(m: map<K, nat>, keys: seq<K>, k: K)
    ensures k in CountFrom(m, keys) <==> k in m || k in keys
    ensures Get(CountFrom(m, keys), k, 0) == Get(m, k, 0) + multiset(keys)[k]
    decreases |keys|
  {
    if keys != [] {
      CountFromAt(m, keys[..|keys| - 1], k);
      MultisetSnoc(keys);
    }
  }

  /** Keys of the counter other than those counted keep their value. */
  lemma CountFromOther<K>(m: map<K, nat>, keys: seq<K>, k: K)
    requires k in m && k !in keys
    ensures k in CountFrom(m, keys) && CountFrom(m, keys)[k] == m[k]
  {
    CountFromAt(m, keys, k);
  }

  /** Counting appends: the keys counted so far, then one more. */
  lemma CountSnoc<K>(m: map<K, nat>, keys: seq<K>, k: K)
    ensures CountFrom(m, keys + [k]) == Bump(CountFrom(m, keys), k)
  {
    assert (keys + [k])[..|keys|] == keys;
  }

  /** Counting `a + b` is counting `b` on top of the counter of `a`. */
  lemma {:induction false} CountFromConcat<K>(m: map<K, nat>, a: seq<K>, b: seq<K>)
    ensures CountFrom(m, a + b) == CountFrom(CountFrom(m, a), b)
    decreases |b|
  {
    if b == [] {
      assert a + b == a;
    } else {
      var b' := b[..|b| - 1];
      CountFromConcat(m, a, b');
      assert (a + b)[..|a + b| - 1] == a + b';
      assert (a + b)[|a + b| - 1] == b[|b| - 1];
    }
  }

  /** The counts of a history sum to its length. */
  lemma {:induction false} CountFromSum<K>(m: map<K, nat>, keys: seq<K>)
    ensures Sum(CountFrom(m, keys)) == Sum(m) + |keys|
    decreases |keys|
  {
    if keys != [] {
      CountFromSum(m, keys[..|keys| - 1]);
      SumBump(CountFrom(m, keys[..|keys| - 1]), keys[|keys| - 1]);
    }
  }

  /** A counter has at most one key per key counted. */
  lemma {:induction false} CountFromSize<K>(m: map<K, nat>, keys: seq<K>)
    ensures |CountFrom(m, keys)| <= |m| + |keys|
    decreases |keys|
  {
    if keys != [] {
      var prev := CountFrom(m, keys[..|keys| - 1]);
      CountFromSize(m, keys[..|keys| - 1]);
      assert Bump(prev, keys[|keys| - 1]).Keys == prev.Keys + {keys[|keys| - 1]};
    }
  }

  /** Every count of a counter started empty is at least 1. */
  lemma {:induction false} CountPositive<K>(keys: seq<K>)
    ensures Positive(Count(keys))
    decreases |keys|
  {
    if keys != [] {
      CountPositive(keys[..|keys| - 1]);
    }
  }
}
