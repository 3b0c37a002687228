/**
 * The summary of one run: four grand totals and three per-symbol tables
 * (instructions, memory accesses, addresses), each count with its share in
 * percent. Values are built once from a `SymbolIps` and an
 * `AccessedAddresses` analysis and never change afterwards, so a summary is
 * a value here; the loops that fill the tables are methods specified by the
 * table functions.
 */
module Summaries {
  import opened Common
  import opened Counters
  import opened Analyses

  /** `totals()`: the dictionary with keys 'instr', 'uniq', 'mem' and 'addr'. */
  datatype TotalCounts = TotalCounts(instr: nat, uniq: nat, mem: nat, addr: nat)

  /** A row of `instr()`: keys 'instr', '%' and 'uniq'. */
  datatype InstrRow = InstrRow(instr: nat, percent: real, uniq: nat)

  /**
   * A row of `mem()` or `addr()`: keys 'mem' (or 'addr'), '%', 'read',
   * 'r%', 'write' and 'w%'. The count's share is of the grand total; the
   * shares of reads and writes are of this row's count.
   */
  datatype AccessRow = AccessRow(count: nat, percent: real, read: nat, readPercent: real, write: nat, writePercent: real)

  datatype Summary = Summary(
    totals: TotalCounts,
    instr: map<Option<string>, InstrRow>,
    mem: map<Option<string>, AccessRow>,
    addr: map<Option<string>, AccessRow>)

  /** `part*100.0/whole`, in exact arithmetic. */
  function Percent(part: nat, whole: nat): real
    requires whole != 0
  {
    (part as real) * 100.0 / (whole as real)
  }

  /** `part*100.0/whole if whole else 0`: a share of a count that may be zero. */
  function GuardedPercent(part: nat, whole: nat): real {
    if whole == 0 then 0.0 else Percent(part, whole)
  }

  /** A share is never negative, and is at most 100 exactly when the part fits in the whole. */
  lemma PercentBounds(part: nat, whole: nat)
    requires whole != 0
    ensures 0.0 <= Percent(part, whole)
    ensures Percent(part, whole) <= 100.0 <==> part <= whole
  {
    var p, w := part as real, whole as real;
    assert p * 100.0 / w == (p / w) * 100.0;
    assert p / w <= 1.0 <==> p <= w;
  }

  /**
   * The loop at summary.py:27-34: one row per symbol. Its first row divides
   * by `total`, so a non-empty table with a zero total raises.
   */
  function InstrTable<K>(counts: map<K, nat>, total: nat, uniq: map<K, nat>): (r: Result<map<K, InstrRow>>)
    requires counts.Keys <= uniq.Keys
    ensures r.Failure? <==> |counts| > 0 && total == 0
    ensures r.Failure? ==> r.error == ZeroDivisionError
    ensures r.Success? ==> r.value.Keys == counts.Keys
    ensures r.Success? ==> forall k :: k in r.value ==>
      r.value[k].instr == counts[k] && r.value[k].uniq == uniq[k]
  {
    if total == 0 then
      if |counts| > 0 then Failure(ZeroDivisionError) else Success(map[])
    else
      Success(map k | k in counts :: InstrRow(counts[k], Percent(counts[k], total), uniq[k]))
  }

  /** The row of a memory or address table. */
  function AccessRowOf(count: nat, total: nat, read: nat, write: nat): AccessRow
    requires total != 0
  {
    AccessRow(count, Percent(count, total), read, GuardedPercent(read, count), write, GuardedPercent(write, count))
  }

  /**
   * The loops at summary.py:37-49 and 52-64: one row per symbol, reads and
   * writeCounts looked up with `get(sym, 0)`.
   */
  function AccessTable<K>(counts: map<K, nat>, total: nat, readCounts: map<K, nat>, writeCounts: map<K, nat>): (r: Result<map<K, AccessRow>>)
    ensures r.Failure? <==> |counts| > 0 && total == 0
    ensures r.Failure? ==> r.error == ZeroDivisionError
    ensures r.Success? ==> r.value.Keys == counts.Keys
  {
    if total == 0 then
      if |counts| > 0 then Failure(ZeroDivisionError) else Success(map[])
    else
      Success(map k | k in counts :: AccessRowOf(counts[k], total, Get(readCounts, k, 0), Get(writeCounts, k, 0)))
  }

  /** The instruction table of `Summary(ip_analysis, ...)`, from the counters of `SymbolIps`. */
  ghost function InstrTableOf(ips: map<Option<string>, map<Option<int>, nat>>): Result<map<Option<string>, InstrRow>> {
    InstrTable(Totals(ips), Sum(Totals(ips)), Sizes(ips))
  }

  /** The memory table, from the counters of `AccessedAddresses`. */
  ghost function MemTableOf(acc: map<Option<string>, map<string, map<int, nat>>>): Result<map<Option<string>, AccessRow>> {
    AccessTable(Grand(acc), Sum(Grand(acc)), KindAccesses(acc, "MemRead"), KindAccesses(acc, "MemWrite"))
  }

  /** The address table, from the counters of `AccessedAddresses`. */
  ghost function AddrTableOf(acc: map<Option<string>, map<string, map<int, nat>>>): Result<map<Option<string>, AccessRow>> {
    AccessTable(AddressCounts(acc), Sum(AddressCounts(acc)), KindAddresses(acc, "MemRead"), KindAddresses(acc, "MemWrite"))
  }

  /** The four totals. */
  ghost function TotalsOf(
    ips: map<Option<string>, map<Option<int>, nat>>,
    acc: map<Option<string>, map<string, map<int, nat>>>): TotalCounts
  {
    TotalCounts(Sum(Totals(ips)), Sum(Sizes(ips)), Sum(Grand(acc)), Sum(AddressCounts(acc)))
  }

  /** `Summary(ip_analysis, addr_analysis)`: the tables are filled in order, the first division by zero raises. */
  ghost function SummaryOf(
    ips: map<Option<string>, map<Option<int>, nat>>,
    acc: map<Option<string>, map<string, map<int, nat>>>): Result<Summary>
  {
    var instr := InstrTableOf(ips);
    var memTable := MemTableOf(acc);
    var addrTable := AddrTableOf(acc);
    if instr.Failure? then Failure(instr.error)
    else if memTable.Failure? then Failure(memTable.error)
    else if addrTable.Failure? then Failure(addrTable.error)
    else Success(Summary(TotalsOf(ips, acc), instr.value, memTable.value, addrTable.value))
  }

  /** `Summary.__init__`: query both analyses, then fill the three tables. */
  method BuildSummary(ipAnalysis: SymbolIps, addrAnalysis: AccessedAddresses) returns (r: Result<Summary>)
    ensures r == SummaryOf(ipAnalysis.syms, addrAnalysis.syms)
  {
    var symIps := ipAnalysis.SymbolIpCounts();
    var totalIps := SumOf(symIps);
    var symUniqIps := ipAnalysis.SymbolUniqueIps();

    var mem := addrAnalysis.NumMemoryAccesses();
    var addr := addrAnalysis.NumAddresses();
    var totalMem := SumOf(mem);
    var totalAddr := SumOf(addr);

    var memRead := addrAnalysis.NumReadAccesses();
    var memWrite := addrAnalysis.NumWriteAccesses();
    var addrRead := addrAnalysis.NumReadAddresses();
    var addrWrite := addrAnalysis.NumWriteAddresses();

    var uniqTotal := SumOf(symUniqIps);
    var totals := TotalCounts(totalIps, uniqTotal, totalMem, totalAddr);

    var instr := InstrRows(symIps, totalIps, symUniqIps);
    if instr.Failure? {
      return Failure(instr.error);
    }
    var memTable := AccessRows(mem, totalMem, memRead, memWrite);
    if memTable.Failure? {
      return Failure(memTable.error);
    }
    var addrTable := AccessRows(addr, totalAddr, addrRead, addrWrite);
    if addrTable.Failure? {
      return Failure(addrTable.error);
    }
    r := Success(Summary(totals, instr.value, memTable.value, addrTable.value));
  }

  /** `for sym, ips in sym_ips.iteritems(): instr_summary[sym] = {...}`. */
  method InstrRows<K>(counts: map<K, nat>, total: nat, uniq: map<K, nat>) returns (r: Result<map<K, InstrRow>>)
    requires counts.Keys <= uniq.Keys
    ensures r == InstrTable(counts, total, uniq)
  {
    var rows: map<K, InstrRow> := map[];
    var left := counts.Keys;
    while left != {}
      invariant left <= counts.Keys
      invariant rows.Keys == counts.Keys - left
      invariant left != counts.Keys ==> total != 0
      invariant forall k :: k in rows ==> total != 0 && rows[k] == InstrRow(counts[k], Percent(counts[k], total), uniq[k])
      decreases |left|
    {
      var k :| k in left;
      if total == 0 {
        return Failure(ZeroDivisionError);
      }
      rows := rows[k := InstrRow(counts[k], Percent(counts[k], total), uniq[k])];
      left := left - {k};
    }
    if total == 0 {
      assert rows == map[];
    } else {
      MapExt(rows, InstrTable(counts, total, uniq).value);
    }
    r := Success(rows);
  }

  /** `for sym, mems in mem.iteritems(): mem_summary[sym] = {...}`, and the same loop for addresses. */
  method AccessRows<K>(counts: map<K, nat>, total: nat, readCounts: map<K, nat>, writeCounts: map<K, nat>) returns (r: Result<map<K, AccessRow>>)
    ensures r == AccessTable(counts, total, readCounts, writeCounts)
  {
    var rows: map<K, AccessRow> := map[];
    var left := counts.Keys;
    while left != {}
      invariant left <= counts.Keys
      invariant rows.Keys == counts.Keys - left
      invariant left != counts.Keys ==> total != 0
      invariant forall k :: k in rows ==> total != 0 && rows[k] == AccessRowOf(counts[k], total, Get(readCounts, k, 0), Get(writeCounts, k, 0))
      decreases |left|
    {
      var k :| k in left;
      if total == 0 {
        return Failure(ZeroDivisionError);
      }
      var read := Get(readCounts, k, 0);
      var write := Get(writeCounts, k, 0);
      rows := rows[k := AccessRowOf(counts[k], total, read, write)];
      left := left - {k};
    }
    if total == 0 {
      assert rows == map[];
    } else {
      MapExt(rows, AccessTable(counts, total, readCounts, writeCounts).value);
    }
    r := Success(rows);
  }

  /**
   * `addr()` as written: it returns `self._addr`, but `__init__` stored the
   * table under the private name `__addr`, so the attribute does not exist.
   */
  function AddrAsWritten(s: Summary): Result<map<Option<string>, AccessRow>> {
    Failure(AttributeError)
  }

  /** `addr()` as intended: the address table built by `__init__`. */
  function Addr(s: Summary): Result<map<Option<string>, AccessRow>> {
    Success(s.addr)
  }

  /** Whatever the summary holds, `addr()` as written raises instead of returning the address table. */
  lemma AddrAsWrittenRaises(s: Summary)
    ensures AddrAsWritten(s) == Failure(AttributeError)
    ensures AddrAsWritten(s) != Addr(s)
  {
  }

  /** As intended, `addr()` of a summary of two analyses is its address table, one row per symbol with accesses. */
  lemma AddrOfSummary(
    ips: map<Option<string>, map<Option<int>, nat>>,
    acc: map<Option<string>, map<string, map<int, nat>>>)
    requires Nested(ips) && Nested3(acc)
    ensures SummaryOf(ips, acc).Success?
    ensures Addr(SummaryOf(ips, acc).value) == AddrTableOf(acc)
    ensures Addr(SummaryOf(ips, acc).value).Success? && Addr(SummaryOf(ips, acc).value).value.Keys == acc.Keys
  {
    NoZeroDivision(ips, acc);
    AddrTableBuilt(acc);
  }

  // ---------------------------------------------------------------------
  // What a summary says about the run

  /** A nested counter's per-key totals are all positive. */
  lemma TotalsPositive<K1, K2>(m: map<K1, map<K2, nat>>)
    requires Nested(m)
    ensures Positive(Totals(m))
  {
    forall k | k in m
      ensures Totals(m)[k] >= 1
    {
      SumAtLeastSize(m[k]);
    }
  }

  /** A three-level counter's per-key totals are all positive. */
  lemma GrandPositive<K1, K2, K3>(m: map<K1, map<K2, map<K3, nat>>>)
    requires Nested3(m)
    ensures Positive(Grand(m))
  {
    forall k | k in m
      ensures Grand(m)[k] >= 1
    {
      TotalsPositive(m[k]);
      SumAtLeastSize(Totals(m[k]));
    }
  }

  /** Counters an analysis can produce make a positive total, so the instruction table is built. */
  lemma InstrTableBuilt(ips: map<Option<string>, map<Option<int>, nat>>)
    requires Nested(ips)
    ensures InstrTableOf(ips).Success?
    ensures InstrTableOf(ips).value.Keys == ips.Keys
  {
    TotalsPositive(ips);
    SumAtLeastSize(Totals(ips));
  }

  /** Counters an analysis can produce make a positive total, so the memory table is built. */
  lemma MemTableBuilt(acc: map<Option<string>, map<string, map<int, nat>>>)
    requires Nested3(acc)
    ensures MemTableOf(acc).Success?
    ensures MemTableOf(acc).value.Keys == acc.Keys
  {
    GrandPositive(acc);
    SumAtLeastSize(Grand(acc));
  }

  /** Every symbol has an address, so the address total is positive and the address table is built. */
  lemma AddrTableBuilt(acc: map<Option<string>, map<string, map<int, nat>>>)
    requires Nested3(acc)
    ensures AddrTableOf(acc).Success?
    ensures AddrTableOf(acc).value.Keys == acc.Keys
  {
    var addr := AddressCounts(acc);
    forall k | k in acc
      ensures addr[k] >= 1
    {
      AddressesWithinAccesses(acc, k, "MemRead");
    }
    SumAtLeastSize(addr);
  }

  /**
   * Counters that the analyses can produce (every count at least one) make
   * every unguarded division's total non-zero, so building the summary never
   * raises; the tables have the keys of `symbol_ips()`,
   * `num_memory_accesses()` and `num_addresses()`.
   */
  lemma NoZeroDivision(
    ips: map<Option<string>, map<Option<int>, nat>>,
    acc: map<Option<string>, map<string, map<int, nat>>>)
    requires Nested(ips) && Nested3(acc)
    ensures InstrTableOf(ips).Success? && MemTableOf(acc).Success? && AddrTableOf(acc).Success?
    ensures SummaryOf(ips, acc) == Success(Summary(TotalsOf(ips, acc), InstrTableOf(ips).value, MemTableOf(acc).value, AddrTableOf(acc).value))
  {
    InstrTableBuilt(ips);
    MemTableBuilt(acc);
    AddrTableBuilt(acc);
  }

  /**
   * A summary of two analyses that saw a whole trace: it is built, its
   * instruction total is the number of `instruction()` calls and its memory
   * total the number of micro-ops with an address.
   */
  lemma SummaryOfAnalyses(ipAnalysis: SymbolIps, addrAnalysis: AccessedAddresses)
    requires ipAnalysis.Valid() && addrAnalysis.Valid()
    ensures SummaryOf(ipAnalysis.syms, addrAnalysis.syms).Success?
    ensures SummaryOf(ipAnalysis.syms, addrAnalysis.syms).value.totals.instr == |ipAnalysis.seen|
    ensures SummaryOf(ipAnalysis.syms, addrAnalysis.syms).value.totals.mem == |addrAnalysis.seen|
  {
    SymbolIpsCounts(ipAnalysis);
    TallyNested(ipAnalysis.seen);
    AccessTotal(addrAnalysis);
    NoZeroDivision(ipAnalysis.syms, addrAnalysis.syms);
  }

  /** The '%' column of the instruction table. */
  function InstrPercents<K>(rows: map<K, InstrRow>): (r: map<K, real>)
    ensures r.Keys == rows.Keys
  {
    map k | k in rows :: rows[k].percent
  }

  lemma InstrPercentAt<K>(counts: map<K, nat>, total: nat, uniq: map<K, nat>, k: K)
    requires counts.Keys <= uniq.Keys && total != 0 && k in counts
    ensures InstrTable(counts, total, uniq).value[k].percent == Percent(counts[k], total)
  {
  }

  /** A share is a count scaled by `100/total`. */
  lemma PercentAsTimes(part: nat, whole: nat)
    requires whole != 0
    ensures Percent(part, whole) == Times(part, 100.0 / (whole as real))
  {
    TimesIsMul(part, 100.0 / (whole as real));
    var x, t := part as real, whole as real;
    assert x * 100.0 / t == x * (100.0 / t);
  }

  /** The '%' column is the instruction counts scaled by `100/total`. */
  lemma InstrPercentsScale<K>(counts: map<K, nat>, total: nat, uniq: map<K, nat>)
    requires counts.Keys <= uniq.Keys && total != 0
    ensures InstrPercents(InstrTable(counts, total, uniq).value) == Scale(counts, 100.0 / (total as real))
  {
    var c := 100.0 / (total as real);
    var percents := InstrPercents(InstrTable(counts, total, uniq).value);
    forall k | k in percents
      ensures percents[k] == Scale(counts, c)[k]
    {
      InstrPercentAt(counts, total, uniq, k);
      PercentAsTimes(counts[k], total);
      ScaleAt(counts, c, k);
    }
    MapExt(percents, Scale(counts, c));
  }

  /** In exact arithmetic the '%' column of a non-empty instruction table adds up to 100. */
  lemma InstrPercentsSum<K>(counts: map<K, nat>, uniq: map<K, nat>)
    requires counts.Keys <= uniq.Keys && Sum(counts) > 0
    ensures InstrTable(counts, Sum(counts), uniq).Success?
    ensures SumReal(InstrPercents(InstrTable(counts, Sum(counts), uniq).value)) == 100.0
  {
    var total := Sum(counts);
    var c := 100.0 / (total as real);
    InstrPercentsScale(counts, total, uniq);
    ScaledSum(counts, c);
    WholeShare(total);
  }

  /** The whole is 100 percent of itself. */
  lemma WholeShare(total: nat)
    requires total != 0
    ensures Times(total, 100.0 / (total as real)) == 100.0
  {
    TimesIsMul(total, 100.0 / (total as real));
    var t := total as real;
    assert t * (100.0 / t) == 100.0;
  }

  /** The instruction table of an analysis: `1 <= uniq <= instr` in every row. */
  lemma InstrRowBounds(ips: map<Option<string>, map<Option<int>, nat>>, k: Option<string>)
    requires Nested(ips) && k in ips
    ensures InstrTableOf(ips).Success? && k in InstrTableOf(ips).value
    ensures 1 <= InstrTableOf(ips).value[k].uniq <= InstrTableOf(ips).value[k].instr
  {
    InstrTableBuilt(ips);
    SizesWithinTotals(ips, k);
  }

  /**
   * The memory table of an analysis: reads and writes of a symbol are at
   * most its accesses, so their shares of the symbol's accesses add up to at
   * most 100.
   */
  lemma MemRowBounds(acc: map<Option<string>, map<string, map<int, nat>>>, k: Option<string>)
    requires Nested3(acc) && k in acc
    ensures MemTableOf(acc).Success? && k in MemTableOf(acc).value
    ensures var row := MemTableOf(acc).value[k];
      row.read + row.write <= row.count && row.readPercent + row.writePercent <= 100.0
  {
    MemTableBuilt(acc);
    MemKindsWithin(acc, k);
    GrandTotalPositive(acc, k);
    MemRowFrom(acc, k);
  }

  lemma MemRowFrom(acc: map<Option<string>, map<string, map<int, nat>>>, k: Option<string>)
    requires k in acc && Sum(Grand(acc)) != 0
    requires Get(KindAccesses(acc, "MemRead"), k, 0) + Get(KindAccesses(acc, "MemWrite"), k, 0) <= Grand(acc)[k]
    ensures var row := MemTableOf(acc).value[k];
      row.read + row.write <= row.count && row.readPercent + row.writePercent <= 100.0
  {
    AccessTableSplit(Grand(acc), Sum(Grand(acc)), KindAccesses(acc, "MemRead"), KindAccesses(acc, "MemWrite"), k);
  }

  lemma MemKindsWithin(acc: map<Option<string>, map<string, map<int, nat>>>, k: Option<string>)
    requires Nested3(acc) && k in acc
    ensures Get(KindAccesses(acc, "MemRead"), k, 0) + Get(KindAccesses(acc, "MemWrite"), k, 0) <= Grand(acc)[k]
  {
    ReadWriteWithinAccesses(acc, k);
  }

  lemma GrandTotalPositive(acc: map<Option<string>, map<string, map<int, nat>>>, k: Option<string>)
    requires Nested3(acc) && k in acc
    ensures Sum(Grand(acc)) != 0
  {
    GrandPositive(acc);
    SumAtLeastEntry(Grand(acc), k);
  }

  /** A row whose reads and writes together fit in its count. */
  lemma AccessTableSplit<K>(counts: map<K, nat>, total: nat, readCounts: map<K, nat>, writeCounts: map<K, nat>, k: K)
    requires total != 0 && k in counts
    requires Get(readCounts, k, 0) + Get(writeCounts, k, 0) <= counts[k]
    ensures AccessTable(counts, total, readCounts, writeCounts).value[k].read + AccessTable(counts, total, readCounts, writeCounts).value[k].write
      <= AccessTable(counts, total, readCounts, writeCounts).value[k].count
    ensures AccessTable(counts, total, readCounts, writeCounts).value[k].readPercent + AccessTable(counts, total, readCounts, writeCounts).value[k].writePercent <= 100.0
  {
    AccessRowAt(counts, total, readCounts, writeCounts, k);
    if counts[k] != 0 {
      SharesWithin(Get(readCounts, k, 0), Get(writeCounts, k, 0), counts[k]);
    }
  }

  /** A row whose reads and writes each fit in its count. */
  lemma AccessTableWithin<K>(counts: map<K, nat>, total: nat, readCounts: map<K, nat>, writeCounts: map<K, nat>, k: K)
    requires total != 0 && k in counts
    requires Get(readCounts, k, 0) <= counts[k] && Get(writeCounts, k, 0) <= counts[k]
    ensures AccessTable(counts, total, readCounts, writeCounts).value[k].read <= AccessTable(counts, total, readCounts, writeCounts).value[k].count
    ensures AccessTable(counts, total, readCounts, writeCounts).value[k].write <= AccessTable(counts, total, readCounts, writeCounts).value[k].count
    ensures AccessTable(counts, total, readCounts, writeCounts).value[k].readPercent <= 100.0
    ensures AccessTable(counts, total, readCounts, writeCounts).value[k].writePercent <= 100.0
  {
    AccessRowAt(counts, total, readCounts, writeCounts, k);
    AccessRowShares(counts[k], total, Get(readCounts, k, 0), Get(writeCounts, k, 0));
  }

  lemma AccessRowAt<K>(counts: map<K, nat>, total: nat, readCounts: map<K, nat>, writeCounts: map<K, nat>, k: K)
    requires total != 0 && k in counts
    ensures AccessTable(counts, total, readCounts, writeCounts).value[k] == AccessRowOf(counts[k], total, Get(readCounts, k, 0), Get(writeCounts, k, 0))
  {
  }

  /** A row whose reads and writes each fit in its count has shares of at most 100. */
  lemma AccessRowShares(count: nat, total: nat, read: nat, write: nat)
    requires total != 0 && read <= count && write <= count
    ensures AccessRowOf(count, total, read, write).readPercent <= 100.0
    ensures AccessRowOf(count, total, read, write).writePercent <= 100.0
  {
    if count != 0 {
      PercentBounds(read, count);
      PercentBounds(write, count);
    }
  }

  /** Two parts of a positive whole that fit in it have shares adding up to at most 100. */
  lemma SharesWithin(read: nat, write: nat, count: nat)
    requires count != 0 && read + write <= count
    ensures GuardedPercent(read, count) + GuardedPercent(write, count) <= 100.0
  {
    PercentAsTimes(read, count);
    PercentAsTimes(write, count);
    PercentAsTimes(read + write, count);
    TimesAdd(read, write, 100.0 / (count as real));
    PercentBounds(read + write, count);
  }

  /**
   * The address table of an analysis: the read addresses and the write
   * addresses of a symbol are each at most all its addresses, so each share
   * is at most 100.
   */
  lemma AddrRowBounds(acc: map<Option<string>, map<string, map<int, nat>>>, k: Option<string>)
    requires Nested3(acc) && k in acc
    ensures AddrTableOf(acc).Success? && k in AddrTableOf(acc).value
    ensures AddrTableOf(acc).value[k].read <= AddrTableOf(acc).value[k].count
    ensures AddrTableOf(acc).value[k].write <= AddrTableOf(acc).value[k].count
    ensures AddrTableOf(acc).value[k].readPercent <= 100.0
    ensures AddrTableOf(acc).value[k].writePercent <= 100.0
  {
    AddrTableBuilt(acc);
    KindAddressesWithin(acc, k);
    AccessTableWithin(AddressCounts(acc), Sum(AddressCounts(acc)), KindAddresses(acc, "MemRead"), KindAddresses(acc, "MemWrite"), k);
  }

  lemma KindAddressesWithin(acc: map<Option<string>, map<string, map<int, nat>>>, k: Option<string>)
    requires Nested3(acc) && k in acc
    ensures KindAddresses(acc, "MemRead")[k] <= AddressCounts(acc)[k]
    ensures KindAddresses(acc, "MemWrite")[k] <= AddressCounts(acc)[k]
  {
    AddressesWithinAccesses(acc, k, "MemRead");
    AddressesWithinAccesses(acc, k, "MemWrite");
  }
}
