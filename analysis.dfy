/**
 * The analyses the parser feeds: each receives every instruction and every
 * micro-op of a trace, in file order, and keeps counters or a trace in
 * memory. The counters are dictionaries of dictionaries; each analysis
 * also keeps, as ghost state, the history of keys it has counted, and its
 * counters are always the tally of that history.
 */
module Analyses {
  import opened Common
  import opened Counters
  import opened MicroOps
  import opened Instructions

  /** `TraceBuilder`: the instruction objects in call order, with their micro-ops attached. */
  class TraceBuilder {
    var instructions: seq<Instruction>

    constructor ()
      ensures instructions == []
    {
      instructions := [];
    }

    /** `instruction(instr)`: append the object itself. */
    method OnInstruction(instr: Instruction)
      modifies this
      ensures instructions == old(instructions) + [instr]
    {
      instructions := instructions + [instr];
    }

    /** `microop(instr, op)`: attach the micro-op to its instruction; `None.add_micro_op` raises. */
    method OnMicroOp(instr: Instruction?, op: MicroOp) returns (out: Outcome)
      modifies instr
      ensures out.Raised? <==> instr == null
      ensures out.Raised? ==> out.error == AttributeError
      ensures instr != null ==> instr.microOps == old(instr.microOps) + [op]
    {
      if instr == null {
        return Raised(AttributeError);
      }
      instr.AddMicroOp(op);
      out := Ok;
    }

    method Results() returns (r: seq<Instruction>)
      ensures r == instructions
    {
      r := instructions;
    }
  }

  /** `SourceLines`: instructions per source line and address, optionally for one symbol only. */
  class SourceLines {
    const fn: Option<string>
    var lines: map<Option<string>, map<Option<int>, nat>>
    /** The (source line, address) of every instruction counted so far. */
    ghost var counted: seq<(Option<string>, Option<int>)>

    ghost predicate Valid()
      reads this
    {
      lines == Tally(counted)
    }

    constructor (fn: Option<string>)
      ensures this.fn == fn && lines == map[] && counted == []
      ensures Valid()
    {
      this.fn := fn;
      lines := map[];
      counted := [];
    }

    /** With a non-empty filter, an instruction of another symbol is not counted. */
    predicate Skips(instr: Instruction) {
      TruthyStr(fn) && instr.symbol != fn
    }

    /** `instruction(instr)`: count `lines[source_line][address]` unless the filter skips it. */
    method OnInstruction(instr: Instruction)
      modifies this
      ensures old(Valid()) ==> Valid()
      ensures Skips(instr) ==> lines == old(lines) && counted == old(counted)
      ensures !Skips(instr) ==>
        && lines == Bump2(old(lines), instr.sourceLine, instr.address)
        && counted == old(counted) + [(instr.sourceLine, instr.address)]
    {
      if TruthyStr(fn) && !(instr.symbol == fn) {
        return;
      }
      lines := Bump2(lines, instr.sourceLine, instr.address);
      counted := counted + [(instr.sourceLine, instr.address)];
      assert counted[..|counted| - 1] == old(counted);
    }

    method Results() returns (r: map<Option<string>, map<Option<int>, nat>>)
      ensures r == lines
    {
      r := lines;
    }
  }

  /**
   * Every count of `SourceLines` is the number of counted instructions with
   * that source line and address, and the counts add up to the number of
   * instructions the filter let through.
   */
  lemma SourceLinesCounts(a: SourceLines)
    requires a.Valid()
    ensures forall line, addr :: Get(Get(a.lines, line, map[]), addr, 0) == multiset(a.counted)[(line, addr)]
    ensures Sum(Totals(a.lines)) == |a.counted|
    ensures Nested(a.lines)
  {
    TallyCounts(a.counted);
    TallyTotal(a.counted);
    TallyNested(a.counted);
  }

  /** `SymbolIps`: instructions per symbol and address. */
  class SymbolIps {
    var syms: map<Option<string>, map<Option<int>, nat>>
    /** The (symbol, address) of every instruction seen so far. */
    ghost var seen: seq<(Option<string>, Option<int>)>

    ghost predicate Valid()
      reads this
    {
      syms == Tally(seen)
    }

    constructor ()
      ensures syms == map[] && seen == []
      ensures Valid()
    {
      syms := map[];
      seen := [];
    }

    /** `instruction(instr)`: count `syms[symbol][address]`, a None symbol under its own key. */
    method OnInstruction(instr: Instruction)
      modifies this
      ensures old(Valid()) ==> Valid()
      ensures syms == Bump2(old(syms), instr.symbol, instr.address)
      ensures seen == old(seen) + [(instr.symbol, instr.address)]
    {
      syms := Bump2(syms, instr.symbol, instr.address);
      seen := seen + [(instr.symbol, instr.address)];
      assert seen[..|seen| - 1] == old(seen);
    }

    method Results() returns (r: map<Option<string>, map<Option<int>, nat>>)
      ensures r == syms
    {
      r := syms;
    }

    /** `symbol_ips()`: the instruction count of each symbol. */
    method SymbolIpCounts() returns (r: map<Option<string>, nat>)
      ensures r == Totals(syms)
    {
      r := TotalsOf(syms);
    }

    /** `symbol_unique_ips()`: the number of distinct addresses of each symbol. */
    function SymbolUniqueIps(): map<Option<string>, nat>
      reads this
    {
      Sizes(syms)
    }
  }

  /**
   * `symbol_ips()` counts instructions: the per-symbol counts sum to the
   * number of `instruction()` calls, and each (symbol, address) count is the
   * number of calls with that pair.
   */
  lemma SymbolIpsCounts(a: SymbolIps)
    requires a.Valid()
    ensures Sum(Totals(a.syms)) == |a.seen|
    ensures forall sym, addr :: Get(Get(a.syms, sym, map[]), addr, 0) == multiset(a.seen)[(sym, addr)]
    ensures a.syms.Keys == Firsts(a.seen)
  {
    TallyTotal(a.seen);
    TallyCounts(a.seen);
  }

  /** `symbol_unique_ips()` has the keys of `symbol_ips()`, and `1 <= unique <= ips` per symbol. */
  lemma UniqueWithinIps(a: SymbolIps)
    requires a.Valid()
    ensures a.SymbolUniqueIps().Keys == Totals(a.syms).Keys
    ensures forall k :: k in a.syms ==> 1 <= a.SymbolUniqueIps()[k] <= Totals(a.syms)[k]
  {
    TallyNested(a.seen);
    forall k | k in a.syms
      ensures 1 <= a.SymbolUniqueIps()[k] <= Totals(a.syms)[k]
    {
      SizesWithinTotals(a.syms, k);
    }
  }

  // ---------------------------------------------------------------------
  // Memory accesses

  /** `{k: sum(v[kind].values()) if kind in v else 0 for k, v in m.items()}`. */
  ghost function KindAccesses(m: map<Option<string>, map<string, map<int, nat>>>, kind: string): (r: map<Option<string>, nat>)
    ensures r.Keys == m.Keys
  {
    map k | k in m :: if kind in m[k] then Sum(m[k][kind]) else 0
  }

  /** `{k: len(v[kind]) if kind in v else 0 for k, v in m.items()}`. */
  function KindAddresses(m: map<Option<string>, map<string, map<int, nat>>>, kind: string): (r: map<Option<string>, nat>)
    ensures r.Keys == m.Keys
  {
    map k | k in m :: if kind in m[k] then |m[k][kind]| else 0
  }

  /** The number of distinct addresses of each symbol, over all kinds. */
  function AddressCounts(m: map<Option<string>, map<string, map<int, nat>>>): (r: map<Option<string>, nat>)
    ensures r.Keys == m.Keys
  {
    map k | k in m :: |Union(m[k])|
  }

  /** `AccessedAddresses`: the accesses of each symbol, per micro-op kind and address. */
  class AccessedAddresses {
    var syms: map<Option<string>, map<string, map<int, nat>>>
    /** The (symbol, kind, address) of every access counted so far. */
    ghost var seen: seq<(Option<string>, string, int)>

    ghost predicate Valid()
      reads this
    {
      syms == Tally3(seen)
    }

    constructor ()
      ensures syms == map[] && seen == []
      ensures Valid()
    {
      syms := map[];
      seen := [];
    }

    /**
     * `microop(instr, op)`: a micro-op without an address (None or 0) changes
     * nothing; otherwise `syms[instr.symbol][kind][address]` is counted, and
     * `None.symbol()` raises when there is no instruction.
     */
    method OnMicroOp(instr: Instruction?, op: MicroOp) returns (out: Outcome)
      modifies this
      ensures old(Valid()) ==> Valid()
      ensures out.Raised? <==> TruthyInt(op.address) && instr == null
      ensures out.Raised? ==> out.error == AttributeError
      ensures !TruthyInt(op.address) || instr == null ==> syms == old(syms) && seen == old(seen)
      ensures TruthyInt(op.address) && instr != null ==>
        && syms == Bump3(old(syms), instr.symbol, op.kind, op.address.value)
        && seen == old(seen) + [(instr.symbol, op.kind, op.address.value)]
    {
      if !TruthyInt(op.address) {
        return Ok;
      }
      if instr == null {
        return Raised(AttributeError);
      }
      syms := Bump3(syms, instr.symbol, op.kind, op.address.value);
      seen := seen + [(instr.symbol, op.kind, op.address.value)];
      assert seen[..|seen| - 1] == old(seen);
      out := Ok;
    }

    method Results() returns (r: map<Option<string>, map<string, map<int, nat>>>)
      ensures r == syms
    {
      r := syms;
    }

    /** `num_memory_accesses()`: all accesses of each symbol. */
    method NumMemoryAccesses() returns (r: map<Option<string>, nat>)
      ensures r == Grand(syms)
    {
      r := GrandOf(syms);
    }

    /** The accesses of one kind per symbol, 0 for a symbol without that kind. */
    method NumKindAccesses(kind: string) returns (r: map<Option<string>, nat>)
      ensures r == KindAccesses(syms, kind)
    {
      r := KindAccessesOf(syms, kind);
    }

    /** `num_read_accesses()`. */
    method NumReadAccesses() returns (r: map<Option<string>, nat>)
      ensures r == KindAccesses(syms, "MemRead")
    {
      r := NumKindAccesses("MemRead");
    }

    /** `num_write_accesses()`. */
    method NumWriteAccesses() returns (r: map<Option<string>, nat>)
      ensures r == KindAccesses(syms, "MemWrite")
    {
      r := NumKindAccesses("MemWrite");
    }

    /** `num_addresses()`: the set of addresses of each symbol, gathered kind by kind. */
    method NumAddresses() returns (r: map<Option<string>, nat>)
      ensures r == AddressCounts(syms)
    {
      r := AddressCountsOf(syms);
    }

    /** `num_read_addresses()`. */
    function NumReadAddresses(): map<Option<string>, nat>
      reads this
    {
      KindAddresses(syms, "MemRead")
    }

    /** `num_write_addresses()`. */
    function NumWriteAddresses(): map<Option<string>, nat>
      reads this
    {
      KindAddresses(syms, "MemWrite")
    }
  }

  /** The loop behind `num_read_accesses()` and `num_write_accesses()`. */
  method KindAccessesOf(m: map<Option<string>, map<string, map<int, nat>>>, kind: string) returns (r: map<Option<string>, nat>)
    ensures r == KindAccesses(m, kind)
  {
    r := map[];
    var left := m.Keys;
    while left != {}
      invariant left <= m.Keys
      invariant r.Keys == m.Keys - left
      invariant forall k :: k in r ==> r[k] == (if kind in m[k] then Sum(m[k][kind]) else 0)
      decreases |left|
    {
      var k :| k in left;
      var s := 0;
      if kind in m[k] {
        s := SumOf(m[k][kind]);
      }
      r := r[k := s];
      left := left - {k};
    }
    MapExt(r, KindAccesses(m, kind));
  }

  /** The loop behind `num_addresses()`. */
  method AddressCountsOf(m: map<Option<string>, map<string, map<int, nat>>>) returns (r: map<Option<string>, nat>)
    ensures r == AddressCounts(m)
  {
    r := map[];
    var left := m.Keys;
    while left != {}
      invariant left <= m.Keys
      invariant r.Keys == m.Keys - left
      invariant forall k :: k in r ==> r[k] == |Union(m[k])|
      decreases |left|
    {
      var k :| k in left;
      var addrs := GatherAddresses(m[k]);
      r := r[k := |addrs|];
      left := left - {k};
    }
    MapExt(r, AddressCounts(m));
  }

  /** `addrs = set(); for m in v.values(): addrs.update(m.keys())`. */
  method GatherAddresses(v: map<string, map<int, nat>>) returns (addrs: set<int>)
    ensures addrs == Union(v)
  {
    addrs := {};
    var done: set<string> := {};
    var left := v.Keys;
    while left != {}
      invariant left <= v.Keys && done == v.Keys - left
      invariant addrs == UnionOver(v, done)
      decreases |left|
    {
      var j :| j in left;
      UnionOverAdd(v, done, j);
      addrs := addrs + v[j].Keys;
      done := done + {j};
      left := left - {j};
    }
    UnionOverAll(v, done);
  }

  /** Each memory counter is the number of counted accesses with that symbol, kind and address. */
  lemma AccessCounts(a: AccessedAddresses)
    requires a.Valid()
    ensures forall sym, kind, addr ::
      Get(Get(Get(a.syms, sym, map[]), kind, map[]), addr, 0) == multiset(a.seen)[(sym, kind, addr)]
  {
    Tally3Counts(a.seen);
  }

  /** The memory counters add up to the number of micro-ops with an address, and none is zero. */
  lemma AccessTotal(a: AccessedAddresses)
    requires a.Valid()
    ensures Sum(Grand(a.syms)) == |a.seen|
    ensures Nested3(a.syms)
  {
    Tally3Total(a.seen);
    Tally3Nested(a.seen);
  }

  /** Reads and writes of a symbol together are at most its memory accesses. */
  lemma ReadWriteWithinAccesses(m: map<Option<string>, map<string, map<int, nat>>>, k: Option<string>)
    requires Nested3(m) && k in m
    ensures KindAccesses(m, "MemRead")[k] + KindAccesses(m, "MemWrite")[k] <= Grand(m)[k]
  {
    var t := Totals(m[k]);
    if "MemRead" in m[k] && "MemWrite" in m[k] {
      SumTwo(t, "MemRead", "MemWrite");
    } else if "MemRead" in m[k] {
      SumAtLeastEntry(t, "MemRead");
    } else if "MemWrite" in m[k] {
      SumAtLeastEntry(t, "MemWrite");
    }
  }

  /**
   * The addresses of one kind are among all the addresses of the symbol,
   * which are no more than its accesses; the addresses of one kind are no
   * more than the accesses of that kind; a symbol has at least one address.
   */
  lemma AddressesWithinAccesses(m: map<Option<string>, map<string, map<int, nat>>>, k: Option<string>, kind: string)
    requires Nested3(m) && k in m
    ensures KindAddresses(m, kind)[k] <= AddressCounts(m)[k] <= Grand(m)[k]
    ensures KindAddresses(m, kind)[k] <= KindAccesses(m, kind)[k]
    ensures 1 <= AddressCounts(m)[k]
  {
    var v := m[k];
    UnionWithinTotal(v);
    var j :| j in v;
    UnionCovers(v, j);
    if kind in v {
      UnionCovers(v, kind);
      SumAtLeastSize(v[kind]);
    }
  }
}
