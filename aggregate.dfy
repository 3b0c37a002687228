/**
 * The aggregate of several runs: for every total and every table entry of
 * the per-run summaries, the lower quartile, median and upper quartile of
 * the values across the runs. Like a summary it is built once, so it is a
 * value here; the loops of its constructor are methods specified by the
 * table functions.
 */
module Aggregates {
  import opened Common
  import opened Summaries
  import Counters

  /** `(lowerQ, med, upperQ)`. */
  datatype Quartiles = Quartiles(lower: real, median: real, upper: real)

  /** The keys of `totals()`: 'instr', 'uniq', 'mem', 'addr'. */
  datatype TotalField = InstrTotal | UniqTotal | MemTotal | AddrTotal

  /** The keys of an `instr()` row: 'instr', '%', 'uniq'. */
  datatype InstrField = InstrCount | InstrShare | UniqCount

  /** The keys of a `mem()` or `addr()` row: 'mem' (or 'addr'), '%', 'read', 'r%', 'write', 'w%'. */
  datatype AccessField = AccessCount | AccessShare | ReadCount | ReadShare | WriteCount | WriteShare

  const TotalFields: seq<TotalField> := [InstrTotal, UniqTotal, MemTotal, AddrTotal]
  const InstrFields: set<InstrField> := {InstrCount, InstrShare, UniqCount}
  const AccessFields: set<AccessField> := {AccessCount, AccessShare, ReadCount, ReadShare, WriteCount, WriteShare}

  datatype Aggregate = Aggregate(
    totals: map<TotalField, Quartiles>,
    instr: map<Option<string>, map<InstrField, Quartiles>>,
    mem: map<Option<string>, map<AccessField, Quartiles>>,
    addr: map<Option<string>, map<AccessField, Quartiles>>)

  /** `s.totals()[f]`. */
  function TotalValue(t: TotalCounts, f: TotalField): real {
    match f
    case InstrTotal => t.instr as real
    case UniqTotal => t.uniq as real
    case MemTotal => t.mem as real
    case AddrTotal => t.addr as real
  }

  /** `s.instr()[sym][f]`. */
  function InstrValue(row: InstrRow, f: InstrField): real {
    match f
    case InstrCount => row.instr as real
    case InstrShare => row.percent
    case UniqCount => row.uniq as real
  }

  /** `s.mem()[sym][f]` and `s.addr()[sym][f]`. */
  function AccessValue(row: AccessRow, f: AccessField): real {
    match f
    case AccessCount => row.count as real
    case AccessShare => row.percent
    case ReadCount => row.read as real
    case ReadShare => row.readPercent
    case WriteCount => row.write as real
    case WriteShare => row.writePercent
  }

  // ---------------------------------------------------------------------
  // Sorting, median and quartiles

  predicate Sorted(s: seq<real>) {
    forall i, j :: 0 <= i <= j < |s| ==> s[i] <= s[j]
  }

  /** `x` put in its place in a sorted list. */
  function Insert(x: real, s: seq<real>): seq<real> {
    if |s| == 0 then [x]
    else if x <= s[0] then [x] + s
    else [s[0]] + Insert(x, s[1..])
  }

  /** `sorted(data)`: insertion sort, specified by `SortOrders` and `SortPermutes`. */
  function Sort(s: seq<real>): seq<real> {
    if |s| == 0 then [] else Insert(s[0], Sort(s[1..]))
  }

  lemma {:induction false} InsertPermutes(x: real, s: seq<real>)
    ensures multiset(Insert(x, s)) == multiset(s) + multiset{x}
    ensures |Insert(x, s)| == |s| + 1
    decreases |s|
  {
    if |s| > 0 && x > s[0] {
      assert s == [s[0]] + s[1..];
      InsertPermutes(x, s[1..]);
    }
  }

  lemma SortedTail(s: seq<real>)
    requires Sorted(s) && |s| > 0
    ensures Sorted(s[1..])
  {
  }

  /** Every element of `Insert(x, s)` is `x` or an element of `s`. */
  lemma InsertFrom(x: real, s: seq<real>, k: nat)
    requires k < |Insert(x, s)|
    ensures Insert(x, s)[k] == x || Insert(x, s)[k] in s
  {
    InsertPermutes(x, s);
    var u := Insert(x, s);
    assert u[k] in multiset(u);
    if u[k] != x {
      assert u[k] in multiset(s);
    }
  }

  lemma {:induction false} InsertOrders(x: real, s: seq<real>)
    requires Sorted(s)
    ensures Sorted(Insert(x, s))
    decreases |s|
  {
    if |s| > 0 && x > s[0] {
      var t := s[1..];
      SortedTail(s);
      InsertOrders(x, t);
      InsertPermutes(x, t);
      var u := Insert(x, t);
      forall k | 0 <= k < |u|
        ensures s[0] <= u[k]
      {
        InsertFrom(x, t, k);
      }
      assert Insert(x, s) == [s[0]] + u;
    }
  }

  /** `sorted` returns its argument's values... */
  lemma {:induction false} SortPermutes(s: seq<real>)
    ensures multiset(Sort(s)) == multiset(s)
    ensures |Sort(s)| == |s|
    decreases |s|
  {
    if |s| > 0 {
      assert s == [s[0]] + s[1..];
      SortPermutes(s[1..]);
      InsertPermutes(s[0], Sort(s[1..]));
    }
  }

  /** ...in ascending order. */
  lemma {:induction false} SortOrders(s: seq<real>)
    ensures Sorted(Sort(s))
    decreases |s|
  {
    if |s| > 0 {
      SortOrders(s[1..]);
      InsertOrders(s[0], Sort(s[1..]));
    }
  }

  /** The first element of a sorted list is its least value. */
  lemma SortedHead(a: seq<real>, b: seq<real>)
    requires Sorted(a) && |a| > 0 && |b| > 0 && multiset(a) == multiset(b)
    ensures a[0] <= b[0]
  {
    assert b[0] in multiset(a);
    var i :| 0 <= i < |a| && a[i] == b[0];
  }

  /** Two sorted lists with the same values are the same list. */
  lemma {:induction false} SortedUnique(a: seq<real>, b: seq<real>)
    requires Sorted(a) && Sorted(b) && multiset(a) == multiset(b)
    ensures a == b
    decreases |a|
  {
    assert |a| == |multiset(a)| == |multiset(b)| == |b|;
    if |a| > 0 {
      SortedHead(a, b);
      SortedHead(b, a);
      assert a == [a[0]] + a[1..];
      assert b == [b[0]] + b[1..];
      assert multiset(a) == multiset{a[0]} + multiset(a[1..]);
      assert multiset(b) == multiset{b[0]} + multiset(b[1..]);
      assert a[0] == b[0];
      assert multiset(a[1..]) == multiset(b[1..]) by {
        forall e
          ensures multiset(a[1..])[e] == multiset(b[1..])[e]
        {
          assert multiset(a)[e] == multiset{a[0]}[e] + multiset(a[1..])[e];
          assert multiset(b)[e] == multiset{a[0]}[e] + multiset(b[1..])[e];
        }
      }
      SortedTail(a);
      SortedTail(b);
      SortedUnique(a[1..], b[1..]);
    }
  }

  /**
   * `__median(sortedPoints)`: the middle element of an odd-length list, the
   * mean of the two middle elements of an even-length one. The index is
   * `len/2` in Python 2 integer division; an empty list is indexed at -1 and
   * raises.
   */
  function Median(points: seq<real>): (r: Result<real>)
    ensures r.Failure? <==> |points| == 0
    ensures r.Failure? ==> r.error == IndexError
  {
    var mid := |points| / 2;
    if |points| % 2 == 0 then
      if mid == 0 then Failure(IndexError)
      else Success((points[mid - 1] + points[mid]) / 2.0)
    else
      Success(points[mid])
  }

  /** The median of a sorted list lies between its ends. */
  lemma MedianWithin(points: seq<real>)
    requires Sorted(points) && |points| > 0
    ensures points[0] <= Median(points).value <= points[|points| - 1]
  {
  }

  /**
   * `__quarts(data)`: sort, take the median, then the medians of the lower
   * half `d[:mid]` and of the upper half, `d[mid:]` for an even length and
   * `d[mid+1:]` (without the middle element) for an odd one.
   */
  function Quarts(data: seq<real>): (r: Result<Quartiles>)
    ensures r.Failure? <==> |data| < 2
    ensures r.Failure? ==> r.error == IndexError
  {
    SortPermutes(data);
    var d := Sort(data);
    var med := Median(d);
    var mid := |d| / 2;
    var lowerQ := Median(d[..mid]);
    var upperQ := if |d| % 2 == 0 then Median(d[mid..]) else Median(d[mid + 1..]);
    if med.Failure? then Failure(med.error)
    else if lowerQ.Failure? then Failure(lowerQ.error)
    else if upperQ.Failure? then Failure(upperQ.error)
    else Success(Quartiles(lowerQ.value, med.value, upperQ.value))
  }

  /** The quartiles of a list of at least two values. */
  function QuartsOf(data: seq<real>): Quartiles
    requires |data| >= 2
  {
    Quarts(data).value
  }

  lemma SortedSlice(s: seq<real>, i: nat, j: nat)
    requires Sorted(s) && i <= j <= |s|
    ensures Sorted(s[i..j])
  {
  }

  /**
   * For at least two values, `min <= lowerQ <= med <= upperQ <= max`, where
   * the smallest and the largest value are the ends of the sorted list.
   */
  lemma QuartsOrdered(data: seq<real>)
    requires |data| >= 2
    ensures |Sort(data)| == |data|
    ensures var d, q := Sort(data), Quarts(data).value;
      d[0] <= q.lower <= q.median <= q.upper <= d[|d| - 1]
    ensures forall x :: x in data ==> Sort(data)[0] <= x <= Sort(data)[|data| - 1]
  {
    SortPermutes(data);
    SortOrders(data);
    MediansOrdered(Sort(data));
    SortedEnds(data);
  }

  /** In a sorted list of at least two values the three medians of `__quarts` are ordered between the ends. */
  lemma MediansOrdered(d: seq<real>)
    requires Sorted(d) && |d| >= 2
    ensures var mid := |d| / 2;
      var up := if |d| % 2 == 0 then d[mid..] else d[mid + 1..];
      d[0] <= Median(d[..mid]).value <= Median(d).value <= Median(up).value <= d[|d| - 1]
  {
    var n, mid := |d|, |d| / 2;
    SortedSlice(d, 0, mid);
    MedianWithin(d[..mid]);
    MedianWithin(d);
    if n % 2 == 0 {
      SortedSlice(d, mid, n);
      MedianWithin(d[mid..]);
    } else {
      SortedSlice(d, mid + 1, n);
      MedianWithin(d[mid + 1..]);
    }
  }

  /** Every value lies between the ends of the sorted list. */
  lemma SortedEnds(data: seq<real>)
    requires |data| >= 2
    ensures |Sort(data)| == |data|
    ensures forall x :: x in data ==> Sort(data)[0] <= x <= Sort(data)[|data| - 1]
  {
    SortPermutes(data);
    SortOrders(data);
    var d := Sort(data);
    forall x | x in data
      ensures d[0] <= x <= d[|data| - 1]
    {
      assert x in multiset(d);
    }
  }

  /** The quartiles depend only on the values, not on their order. */
  lemma QuartsPermutation(a: seq<real>, b: seq<real>)
    requires multiset(a) == multiset(b)
    ensures Quarts(a) == Quarts(b)
  {
    SortPermutes(a);
    SortPermutes(b);
    SortOrders(a);
    SortOrders(b);
    SortedUnique(Sort(a), Sort(b));
  }

  /** A sorted list sorts to itself. */
  lemma SortSorted(s: seq<real>)
    requires Sorted(s)
    ensures Sort(s) == s
  {
    SortPermutes(s);
    SortOrders(s);
    SortedUnique(Sort(s), s);
  }

  /** The quartiles of `[10, 20, 30, 40]` are (15, 25, 35). */
  lemma QuartsEvenExample()
    ensures Quarts([10.0, 20.0, 30.0, 40.0]) == Success(Quartiles(15.0, 25.0, 35.0))
  {
    var d := [10.0, 20.0, 30.0, 40.0];
    SortSorted(d);
    assert d[..2] == [10.0, 20.0] && d[2..] == [30.0, 40.0];
  }

  /** The same values in another order give the same quartiles. */
  lemma QuartsShuffledExample()
    ensures Quarts([40.0, 10.0, 30.0, 20.0]) == Success(Quartiles(15.0, 25.0, 35.0))
  {
    QuartsEvenExample();
    var d := [40.0, 10.0, 30.0, 20.0];
    assert multiset(d) == multiset([10.0, 20.0, 30.0, 40.0]);
    QuartsPermutation(d, [10.0, 20.0, 30.0, 40.0]);
  }

  /** The quartiles of `[5, 10, 15]` leave the median out of both halves: (5, 10, 15). */
  lemma QuartsOddExample()
    ensures Quarts([5.0, 10.0, 15.0]) == Success(Quartiles(5.0, 10.0, 15.0))
  {
    var d := [5.0, 10.0, 15.0];
    SortSorted(d);
    assert d[..1] == [5.0] && d[2..] == [15.0];
  }

  // ---------------------------------------------------------------------
  // The aggregate tables

  /** `[s.totals()[f] for s in sums]`. */
  function TotalsColumn(sums: seq<Summary>, f: TotalField): seq<real> {
    seq(|sums|, i requires 0 <= i < |sums| => TotalValue(sums[i].totals, f))
  }

  /** Every summary has a row for `sym`: the column for `sym` can be built. */
  predicate HasRow<R>(tables: seq<map<Option<string>, R>>, sym: Option<string>) {
    forall i :: 0 <= i < |tables| ==> sym in tables[i]
  }

  /** `[s.instr()[sym][f] for s in sums]`. */
  function InstrColumn(tables: seq<map<Option<string>, InstrRow>>, sym: Option<string>, f: InstrField): seq<real>
    requires HasRow(tables, sym)
  {
    seq(|tables|, i requires 0 <= i < |tables| => InstrValue(tables[i][sym], f))
  }

  /** `[s.mem()[sym][f] for s in sums]`, and the same for `addr()`. */
  function AccessColumn(tables: seq<map<Option<string>, AccessRow>>, sym: Option<string>, f: AccessField): seq<real>
    requires HasRow(tables, sym)
  {
    seq(|tables|, i requires 0 <= i < |tables| => AccessValue(tables[i][sym], f))
  }

  /** The totals loop at aggregate.py:4-6: the first `__quarts` of fewer than two runs raises. */
  function TotalsTable(sums: seq<Summary>): (r: Result<map<TotalField, Quartiles>>)
    ensures r.Failure? <==> |sums| < 2
    ensures r.Failure? ==> r.error == IndexError
    ensures r.Success? ==> r.value.Keys == {InstrTotal, UniqTotal, MemTotal, AddrTotal}
  {
    if |sums| < 2 then Failure(IndexError)
    else Success(map f | f in {InstrTotal, UniqTotal, MemTotal, AddrTotal} :: QuartsOf(TotalsColumn(sums, f)))
  }

  /**
   * The loop at aggregate.py:9-13 over the symbols of the first summary; a
   * symbol that another summary lacks raises KeyError. It runs after the
   * totals, so there are at least two summaries.
   */
  function InstrTable(tables: seq<map<Option<string>, InstrRow>>): (r: Result<map<Option<string>, map<InstrField, Quartiles>>>)
    requires |tables| >= 2
    ensures r.Failure? <==> exists sym :: sym in tables[0] && !HasRow(tables, sym)
    ensures r.Failure? ==> r.error == KeyError
    ensures r.Success? ==> r.value.Keys == tables[0].Keys
  {
    if exists sym :: sym in tables[0] && !HasRow(tables, sym) then Failure(KeyError)
    else Success(InstrMap(tables))
  }

  /** The entries of the table, once every symbol of the first summary is found in all of them. */
  function InstrMap(tables: seq<map<Option<string>, InstrRow>>): (r: map<Option<string>, map<InstrField, Quartiles>>)
    requires |tables| >= 2 && forall sym :: sym in tables[0] ==> HasRow(tables, sym)
    ensures r.Keys == tables[0].Keys
  {
    map sym | sym in tables[0] :: InstrEntry(tables, sym)
  }

  /** `{f: __quarts([s.instr()[sym][f] for s in sums]) for f in [...]}`. */
  function InstrEntry(tables: seq<map<Option<string>, InstrRow>>, sym: Option<string>): (r: map<InstrField, Quartiles>)
    requires |tables| >= 2 && HasRow(tables, sym)
    ensures r.Keys == InstrFields
  {
    map f | f in InstrFields :: QuartsOf(InstrColumn(tables, sym, f))
  }

  /** The loops at aggregate.py:16-20 and 23-27. */
  function AccessTable(tables: seq<map<Option<string>, AccessRow>>): (r: Result<map<Option<string>, map<AccessField, Quartiles>>>)
    requires |tables| >= 2
    ensures r.Failure? <==> exists sym :: sym in tables[0] && !HasRow(tables, sym)
    ensures r.Failure? ==> r.error == KeyError
    ensures r.Success? ==> r.value.Keys == tables[0].Keys
  {
    if exists sym :: sym in tables[0] && !HasRow(tables, sym) then Failure(KeyError)
    else Success(AccessMap(tables))
  }

  /** The entries of the table, once every symbol of the first summary is found in all of them. */
  function AccessMap(tables: seq<map<Option<string>, AccessRow>>): (r: map<Option<string>, map<AccessField, Quartiles>>)
    requires |tables| >= 2 && forall sym :: sym in tables[0] ==> HasRow(tables, sym)
    ensures r.Keys == tables[0].Keys
  {
    map sym | sym in tables[0] :: AccessEntry(tables, sym)
  }

  /** `{f: __quarts([s.mem()[sym][f] for s in sums]) for f in [...]}`. */
  function AccessEntry(tables: seq<map<Option<string>, AccessRow>>, sym: Option<string>): (r: map<AccessField, Quartiles>)
    requires |tables| >= 2 && HasRow(tables, sym)
    ensures r.Keys == AccessFields
  {
    map f | f in AccessFields :: QuartsOf(AccessColumn(tables, sym, f))
  }

  function InstrTables(sums: seq<Summary>): (r: seq<map<Option<string>, InstrRow>>)
    ensures |r| == |sums|
  {
    seq(|sums|, i requires 0 <= i < |sums| => sums[i].instr)
  }

  function MemTables(sums: seq<Summary>): (r: seq<map<Option<string>, AccessRow>>)
    ensures |r| == |sums|
  {
    seq(|sums|, i requires 0 <= i < |sums| => sums[i].mem)
  }

  function AddrTables(sums: seq<Summary>): (r: seq<map<Option<string>, AccessRow>>)
    ensures |r| == |sums|
  {
    seq(|sums|, i requires 0 <= i < |sums| => sums[i].addr)
  }

  /** `Aggregate(sums)` with `addr()` read as intended. */
  function AggregateOf(sums: seq<Summary>): Result<Aggregate> {
    var totals := TotalsTable(sums);
    if totals.Failure? then Failure(totals.error)
    else
      var instr := InstrTable(InstrTables(sums));
      var mem := AccessTable(MemTables(sums));
      var addr := AccessTable(AddrTables(sums));
      if instr.Failure? then Failure(instr.error)
      else if mem.Failure? then Failure(mem.error)
      else if addr.Failure? then Failure(addr.error)
      else Success(Aggregate(totals.value, instr.value, mem.value, addr.value))
  }

  /**
   * `Aggregate(sums)` as written: the address loop starts with
   * `sums[0].addr()`, which raises AttributeError, so an aggregate that got
   * past the totals and the first two tables is never built.
   */
  function AggregateAsWritten(sums: seq<Summary>): Result<Aggregate> {
    var totals := TotalsTable(sums);
    if totals.Failure? then Failure(totals.error)
    else
      var instr := InstrTable(InstrTables(sums));
      var mem := AccessTable(MemTables(sums));
      if instr.Failure? then Failure(instr.error)
      else if mem.Failure? then Failure(mem.error)
      else Failure(AddrAsWritten(sums[0]).error)
  }

  /** As written no input builds an aggregate: every input the corrected constructor accepts raises AttributeError. */
  lemma AggregateAsWrittenFails(sums: seq<Summary>)
    ensures AggregateAsWritten(sums).Failure?
    ensures AggregateOf(sums).Success? ==> AggregateAsWritten(sums) == Failure(AttributeError)
  {
  }

  /** A built aggregate is made of the four tables, each of which was built. */
  lemma AggregateParts(sums: seq<Summary>)
    requires AggregateOf(sums).Success?
    ensures |sums| >= 2
    ensures TotalsTable(sums).Success?
    ensures InstrTable(InstrTables(sums)).Success?
    ensures AccessTable(MemTables(sums)).Success?
    ensures AccessTable(AddrTables(sums)).Success?
    ensures AggregateOf(sums).value == Aggregate(TotalsTable(sums).value, InstrTable(InstrTables(sums)).value,
      AccessTable(MemTables(sums)).value, AccessTable(AddrTables(sums)).value)
  {
  }

  /**
   * A built aggregate has the totals instr, uniq, mem and addr, and its
   * tables have the symbols of the first summary.
   */
  lemma AggregateKeys(sums: seq<Summary>)
    requires AggregateOf(sums).Success?
    ensures |sums| >= 2
    ensures AggregateOf(sums).value.totals.Keys == {InstrTotal, UniqTotal, MemTotal, AddrTotal}
    ensures AggregateOf(sums).value.instr.Keys == sums[0].instr.Keys
    ensures AggregateOf(sums).value.mem.Keys == sums[0].mem.Keys
    ensures AggregateOf(sums).value.addr.Keys == sums[0].addr.Keys
  {
    AggregateParts(sums);
    assert InstrTables(sums)[0] == sums[0].instr;
    assert MemTables(sums)[0] == sums[0].mem;
    assert AddrTables(sums)[0] == sums[0].addr;
  }

  /** An aggregate is built only when every summary has a row for each symbol of the first one. */
  lemma AggregateRowsShared(sums: seq<Summary>, sym: Option<string>, i: nat)
    requires AggregateOf(sums).Success? && i < |sums|
    ensures sym in sums[0].instr ==> sym in sums[i].instr
    ensures sym in sums[0].mem ==> sym in sums[i].mem
    ensures sym in sums[0].addr ==> sym in sums[i].addr
  {
    AggregateParts(sums);
    var instr, mem, addr := InstrTables(sums), MemTables(sums), AddrTables(sums);
    assert instr[0] == sums[0].instr && instr[i] == sums[i].instr;
    assert mem[0] == sums[0].mem && mem[i] == sums[i].mem;
    assert addr[0] == sums[0].addr && addr[i] == sums[i].addr;
    if sym in sums[0].instr {
      assert HasRow(instr, sym);
    }
    if sym in sums[0].mem {
      assert HasRow(mem, sym);
    }
    if sym in sums[0].addr {
      assert HasRow(addr, sym);
    }
  }

  /** Every total in an aggregate is an ordered triple: `lowerQ <= med <= upperQ`. */
  lemma TotalsOrdered(sums: seq<Summary>, f: TotalField)
    requires |sums| >= 2
    ensures f in TotalsTable(sums).value
    ensures var q := TotalsTable(sums).value[f]; q.lower <= q.median <= q.upper
  {
    QuartsOrdered(TotalsColumn(sums, f));
  }

  /** A symbol of a built instruction table has a row in every summary, and its entry is built from them. */
  lemma InstrTableAt(tables: seq<map<Option<string>, InstrRow>>, sym: Option<string>)
    requires |tables| >= 2 && InstrTable(tables).Success? && sym in InstrTable(tables).value
    ensures HasRow(tables, sym) && InstrTable(tables).value[sym] == InstrEntry(tables, sym)
  {
    InstrTableRow(tables, sym);
    InstrTableMap(tables);
    InstrMapAt(tables, sym);
  }

  lemma InstrTableMap(tables: seq<map<Option<string>, InstrRow>>)
    requires |tables| >= 2 && InstrTable(tables).Success?
    ensures (forall sym :: sym in tables[0] ==> HasRow(tables, sym)) && InstrTable(tables).value == InstrMap(tables)
  {
  }

  lemma InstrMapAt(tables: seq<map<Option<string>, InstrRow>>, sym: Option<string>)
    requires |tables| >= 2 && (forall sym :: sym in tables[0] ==> HasRow(tables, sym)) && sym in tables[0]
    ensures HasRow(tables, sym) && InstrMap(tables)[sym] == InstrEntry(tables, sym)
  {
  }

  lemma InstrTableRow(tables: seq<map<Option<string>, InstrRow>>, sym: Option<string>)
    requires |tables| >= 2 && InstrTable(tables).Success? && sym in tables[0]
    ensures HasRow(tables, sym)
  {
  }

  /** A symbol of a built access table has a row in every summary, and its entry is built from them. */
  lemma AccessTableAt(tables: seq<map<Option<string>, AccessRow>>, sym: Option<string>)
    requires |tables| >= 2 && AccessTable(tables).Success? && sym in AccessTable(tables).value
    ensures HasRow(tables, sym) && AccessTable(tables).value[sym] == AccessEntry(tables, sym)
  {
    AccessTableRow(tables, sym);
    AccessTableMap(tables);
    AccessMapAt(tables, sym);
  }

  lemma AccessTableMap(tables: seq<map<Option<string>, AccessRow>>)
    requires |tables| >= 2 && AccessTable(tables).Success?
    ensures (forall sym :: sym in tables[0] ==> HasRow(tables, sym)) && AccessTable(tables).value == AccessMap(tables)
  {
  }

  lemma AccessMapAt(tables: seq<map<Option<string>, AccessRow>>, sym: Option<string>)
    requires |tables| >= 2 && (forall sym :: sym in tables[0] ==> HasRow(tables, sym)) && sym in tables[0]
    ensures HasRow(tables, sym) && AccessMap(tables)[sym] == AccessEntry(tables, sym)
  {
  }

  lemma AccessTableRow(tables: seq<map<Option<string>, AccessRow>>, sym: Option<string>)
    requires |tables| >= 2 && AccessTable(tables).Success? && sym in tables[0]
    ensures HasRow(tables, sym)
  {
  }

  /** Each field of an instruction entry is an ordered triple. */
  lemma InstrEntryOrdered(tables: seq<map<Option<string>, InstrRow>>, sym: Option<string>, f: InstrField)
    requires |tables| >= 2 && HasRow(tables, sym)
    ensures var q := InstrEntry(tables, sym)[f]; q.lower <= q.median <= q.upper
  {
    QuartsOrdered(InstrColumn(tables, sym, f));
  }

  /** Each field of an access entry is an ordered triple. */
  lemma AccessEntryOrdered(tables: seq<map<Option<string>, AccessRow>>, sym: Option<string>, f: AccessField)
    requires |tables| >= 2 && HasRow(tables, sym)
    ensures var q := AccessEntry(tables, sym)[f]; q.lower <= q.median <= q.upper
  {
    QuartsOrdered(AccessColumn(tables, sym, f));
  }

  /** Every entry of the instruction table has the fields instr, % and uniq, each an ordered triple. */
  lemma InstrEntriesOrdered(sums: seq<Summary>, sym: Option<string>, f: InstrField)
    requires AggregateOf(sums).Success? && sym in AggregateOf(sums).value.instr
    ensures AggregateOf(sums).value.instr[sym].Keys == InstrFields
    ensures var q := AggregateOf(sums).value.instr[sym][f]; q.lower <= q.median <= q.upper
  {
    AggregateParts(sums);
    var tables := InstrTables(sums);
    InstrTableAt(tables, sym);
    InstrEntryOrdered(tables, sym, f);
  }

  /** The same for the memory and the address tables, each entry with its six fields. */
  lemma AccessEntriesOrdered(sums: seq<Summary>, sym: Option<string>, f: AccessField)
    requires AggregateOf(sums).Success?
    ensures sym in AggregateOf(sums).value.mem ==> AggregateOf(sums).value.mem[sym].Keys == AccessFields
    ensures sym in AggregateOf(sums).value.mem ==>
      var q := AggregateOf(sums).value.mem[sym][f]; q.lower <= q.median <= q.upper
    ensures sym in AggregateOf(sums).value.addr ==> AggregateOf(sums).value.addr[sym].Keys == AccessFields
    ensures sym in AggregateOf(sums).value.addr ==>
      var q := AggregateOf(sums).value.addr[sym][f]; q.lower <= q.median <= q.upper
  {
    AggregateParts(sums);
    if sym in AggregateOf(sums).value.mem {
      AccessTableAt(MemTables(sums), sym);
      AccessEntryOrdered(MemTables(sums), sym, f);
    }
    if sym in AggregateOf(sums).value.addr {
      AccessTableAt(AddrTables(sums), sym);
      AccessEntryOrdered(AddrTables(sums), sym, f);
    }
  }

  // ---------------------------------------------------------------------
  // The constructor's loops

  /** `Aggregate.__init__`: the totals, then the three tables. */
  method BuildAggregate(sums: seq<Summary>) returns (r: Result<Aggregate>)
    ensures r == AggregateOf(sums)
  {
    var totals := BuildTotals(sums);
    if totals.Failure? {
      return Failure(totals.error);
    }
    var instr := BuildInstrTable(InstrTables(sums));
    if instr.Failure? {
      return Failure(instr.error);
    }
    var mem := BuildAccessTable(MemTables(sums));
    if mem.Failure? {
      return Failure(mem.error);
    }
    var addr := BuildAccessTable(AddrTables(sums));
    if addr.Failure? {
      return Failure(addr.error);
    }
    r := Success(Aggregate(totals.value, instr.value, mem.value, addr.value));
  }

  /** `for f in ['instr', 'uniq', 'mem', 'addr']: totals[f] = __quarts([...])`. */
  method BuildTotals(sums: seq<Summary>) returns (r: Result<map<TotalField, Quartiles>>)
    ensures r == TotalsTable(sums)
  {
    var totals: map<TotalField, Quartiles> := map[];
    for j := 0 to |TotalFields|
      invariant totals.Keys == set f | f in TotalFields[..j]
      invariant j > 0 ==> |sums| >= 2
      invariant forall f :: f in totals ==> |sums| >= 2 && totals[f] == QuartsOf(TotalsColumn(sums, f))
    {
      var f := TotalFields[j];
      var q := Quarts(TotalsColumn(sums, f));
      if q.Failure? {
        return Failure(q.error);
      }
      totals := totals[f := q.value];
    }
    assert TotalFields[..4] == TotalFields;
    Counters.MapExt(totals, TotalsTable(sums).value);
    r := Success(totals);
  }

  /** `for sym in sums[0].instr().iterkeys(): instr[sym] = {...}`. */
  method BuildInstrTable(tables: seq<map<Option<string>, InstrRow>>) returns (r: Result<map<Option<string>, map<InstrField, Quartiles>>>)
    requires |tables| >= 2
    ensures r == InstrTable(tables)
  {
    var rows: map<Option<string>, map<InstrField, Quartiles>> := map[];
    var left := tables[0].Keys;
    while left != {}
      invariant left <= tables[0].Keys
      invariant rows.Keys == tables[0].Keys - left
      invariant forall sym :: sym in rows ==> HasRow(tables, sym) && rows[sym] == InstrEntry(tables, sym)
      decreases left
    {
      var sym :| sym in left;
      var found := Shared(tables, sym);
      if !found {
        return Failure(KeyError);
      }
      rows := rows[sym := InstrEntry(tables, sym)];
      left := left - {sym};
    }
    InstrTableFrom(tables, rows);
    r := Success(rows);
  }

  /** `for sym in sums[0].mem().iterkeys(): mem[sym] = {...}`, and the same for `addr()`. */
  method BuildAccessTable(tables: seq<map<Option<string>, AccessRow>>) returns (r: Result<map<Option<string>, map<AccessField, Quartiles>>>)
    requires |tables| >= 2
    ensures r == AccessTable(tables)
  {
    var rows: map<Option<string>, map<AccessField, Quartiles>> := map[];
    var left := tables[0].Keys;
    while left != {}
      invariant left <= tables[0].Keys
      invariant rows.Keys == tables[0].Keys - left
      invariant forall sym :: sym in rows ==> HasRow(tables, sym) && rows[sym] == AccessEntry(tables, sym)
      decreases left
    {
      var sym :| sym in left;
      var found := Shared(tables, sym);
      if !found {
        return Failure(KeyError);
      }
      rows := rows[sym := AccessEntry(tables, sym)];
      left := left - {sym};
    }
    AccessTableFrom(tables, rows);
    r := Success(rows);
  }

  /** A table with an entry for every symbol of the first summary, each found in every summary, is the one built. */
  lemma InstrTableFrom(tables: seq<map<Option<string>, InstrRow>>, rows: map<Option<string>, map<InstrField, Quartiles>>)
    requires |tables| >= 2 && rows.Keys == tables[0].Keys
    requires forall sym :: sym in rows ==> HasRow(tables, sym) && rows[sym] == InstrEntry(tables, sym)
    ensures InstrTable(tables) == Success(rows)
  {
    assert forall sym :: sym in tables[0] ==> HasRow(tables, sym);
    Counters.MapExt(rows, InstrMap(tables));
  }

  lemma AccessTableFrom(tables: seq<map<Option<string>, AccessRow>>, rows: map<Option<string>, map<AccessField, Quartiles>>)
    requires |tables| >= 2 && rows.Keys == tables[0].Keys
    requires forall sym :: sym in rows ==> HasRow(tables, sym) && rows[sym] == AccessEntry(tables, sym)
    ensures AccessTable(tables) == Success(rows)
  {
    assert forall sym :: sym in tables[0] ==> HasRow(tables, sym);
    Counters.MapExt(rows, AccessMap(tables));
  }

  /** Whether building the column `[s.table()[sym][f] for s in sums]` finds `sym` in every summary. */
  method Shared<R>(tables: seq<map<Option<string>, R>>, sym: Option<string>) returns (found: bool)
    ensures found <==> HasRow(tables, sym)
  {
    for i := 0 to |tables|
      invariant forall j :: 0 <= j < i ==> sym in tables[j]
    {
      if sym !in tables[i] {
        return false;
      }
    }
    return true;
  }
}
