/**
 * The older batch variant of the tool: `ExecTrace` reads a whole trace
 * into a list of instructions, each owning the micro-ops that follow it,
 * and then computes the statistics with loops over that list. Its line
 * decoder is the one of the streaming parser (`LineDecoder`), so the
 * trace is specified on the decoded values, line by line.
 */
module ExecTraces {
  import opened Common
  import opened Strings
  import opened Counters
  import opened MicroOps
  import opened Instructions
  import opened SymbolTables
  import opened LineDecoder
  import Summaries

  /** An instruction as a value: its constructor values and its micro-ops so far. */
  datatype Entry = Entry(fields: InstrFields, ops: seq<MicroOp>)

  /** How far a load got: the instructions read, and the exception that ended it, if any. */
  datatype Loading = Loading(entries: seq<Entry>, error: Option<Error>)

  /** `instructions[-1].add_micro_op(op)` on values; with no instruction yet the micro-op is dropped. */
  function Attach(entries: seq<Entry>, op: MicroOp): (r: seq<Entry>)
    ensures |r| == |entries|
  {
    if entries == [] then []
    else
      var last := entries[|entries| - 1];
      entries[..|entries| - 1] + [Entry(last.fields, last.ops + [op])]
  }

  /** What `__parse_line` makes of each line, the lines numbered from 1. */
  function Decodings(lines: seq<string>, symtab: SymbolTable?): (r: seq<Result<Decoded>>)
    ensures |r| == |lines|
  {
    seq(|lines|, k requires 0 <= k < |lines| => DecodeLine(lines[k], k + 1, symtab))
  }

  /** The state of `load` after the lines decoded as `ds`: the first failing line ends it. */
  function Assemble(ds: seq<Result<Decoded>>): Loading {
    if ds == [] then Loading([], None)
    else
      var prev := Assemble(ds[..|ds| - 1]);
      if prev.error.Some? then prev
      else
        match ds[|ds| - 1]
        case Failure(e) => Loading(prev.entries, Some(e))
        case Success(DecodedInstruction(f)) => Loading(prev.entries + [Entry(f, [])], None)
        case Success(DecodedMicroOp(op)) => Loading(Attach(prev.entries, op), None)
  }

  /** Every line decodes. */
  predicate Decodes(ds: seq<Result<Decoded>>) {
    forall k :: 0 <= k < |ds| ==> ds[k].Success?
  }

  /** The instruction lines, in file order. */
  function InstrLines(ds: seq<Result<Decoded>>): seq<InstrFields> {
    if ds == [] then []
    else
      InstrLines(ds[..|ds| - 1]) +
      match ds[|ds| - 1]
      case Success(DecodedInstruction(f)) => [f]
      case _ => []
  }

  /** The micro-op lines that come after some instruction line, in file order. */
  function AttachedOps(ds: seq<Result<Decoded>>): seq<MicroOp> {
    if ds == [] then []
    else
      AttachedOps(ds[..|ds| - 1]) +
      match ds[|ds| - 1]
      case Success(DecodedMicroOp(op)) => if InstrLines(ds[..|ds| - 1]) != [] then [op] else []
      case _ => []
  }

  /** The constructor values of the entries, in order. */
  function FieldsOf(entries: seq<Entry>): (r: seq<InstrFields>)
    ensures |r| == |entries|
  {
    if entries == [] then [] else FieldsOf(entries[..|entries| - 1]) + [entries[|entries| - 1].fields]
  }

  /** All micro-ops of the entries, entry by entry. */
  function OpsOf(entries: seq<Entry>): seq<MicroOp> {
    if entries == [] then [] else OpsOf(entries[..|entries| - 1]) + entries[|entries| - 1].ops
  }

  lemma FieldsOfSnoc(entries: seq<Entry>, e: Entry)
    ensures FieldsOf(entries + [e]) == FieldsOf(entries) + [e.fields]
    ensures OpsOf(entries + [e]) == OpsOf(entries) + e.ops
  {
    assert (entries + [e])[..|entries|] == entries;
  }

  /** Attaching a micro-op keeps the instructions and appends it to the micro-ops, unless there is no instruction. */
  lemma AttachOps(entries: seq<Entry>, op: MicroOp)
    ensures FieldsOf(Attach(entries, op)) == FieldsOf(entries)
    ensures OpsOf(Attach(entries, op)) == OpsOf(entries) + (if entries == [] then [] else [op])
  {
    if entries != [] {
      var init, last := entries[..|entries| - 1], entries[|entries| - 1];
      FieldsOfSnoc(init, Entry(last.fields, last.ops + [op]));
      FieldsOfSnoc(init, last);
      assert init + [last] == entries;
    }
  }

  /**
   * A load ends without an exception exactly when every line decodes; then
   * the instructions are the instruction lines in file order, and the
   * micro-ops, entry after entry, are the micro-op lines that follow some
   * instruction line: those before the first instruction are dropped.
   */
  lemma {:induction false} LoadedInOrder(ds: seq<Result<Decoded>>)
    ensures Assemble(ds).error.None? <==> Decodes(ds)
    ensures Decodes(ds) ==>
      && FieldsOf(Assemble(ds).entries) == InstrLines(ds)
      && OpsOf(Assemble(ds).entries) == AttachedOps(ds)
    decreases |ds|
  {
    if ds != [] {
      var init := ds[..|ds| - 1];
      LoadedInOrder(init);
      var prev := Assemble(init);
      if prev.error.None? {
        match ds[|ds| - 1]
        case Failure(e) =>
        case Success(DecodedInstruction(f)) =>
          FieldsOfSnoc(prev.entries, Entry(f, []));
        case Success(DecodedMicroOp(op)) =>
          AttachOps(prev.entries, op);
          assert |prev.entries| == |InstrLines(init)|;
      } else {
        assert !Decodes(init);
        var k :| 0 <= k < |init| && !init[k].Success?;
        assert !ds[k].Success?;
      }
    }
  }

  /** Once a line fails, later lines change nothing: the instructions read so far stay. */
  lemma {:induction false} LoadedSticks(ds: seq<Result<Decoded>>, n: nat)
    requires n <= |ds| && Assemble(ds[..n]).error.Some?
    ensures Assemble(ds) == Assemble(ds[..n])
    decreases |ds| - n
  {
    if n < |ds| {
      var init := ds[..|ds| - 1];
      assert init[..n] == ds[..n];
      LoadedSticks(init, n);
    } else {
      assert ds[..n] == ds;
    }
  }

  /** One more line: the step of the `load` loop on values. */
  lemma AssembleStep(ds: seq<Result<Decoded>>, k: nat)
    requires k < |ds| && Assemble(ds[..k]).error.None?
    ensures Assemble(ds[..k + 1]) ==
      match ds[k]
      case Failure(e) => Loading(Assemble(ds[..k]).entries, Some(e))
      case Success(DecodedInstruction(f)) => Loading(Assemble(ds[..k]).entries + [Entry(f, [])], None)
      case Success(DecodedMicroOp(op)) => Loading(Attach(Assemble(ds[..k]).entries, op), None)
  {
    assert ds[..k + 1][..k] == ds[..k];
  }

  /** The instructions of a list of instruction objects, as values. */
  ghost function EntriesOf(xs: seq<Instruction>): (r: seq<Entry>)
    reads set x | x in xs
    ensures |r| == |xs|
  {
    if xs == [] then []
    else
      var last := xs[|xs| - 1];
      EntriesOf(xs[..|xs| - 1]) + [Entry(last.Fields(), last.microOps)]
  }

  /** No instruction occurs twice in `xs`, stated one append at a time. */
  ghost predicate Unique(xs: seq<Instruction>)
    decreases |xs|
  {
    xs == [] || (xs[|xs| - 1] !in xs[..|xs| - 1] && Unique(xs[..|xs| - 1]))
  }

  lemma EntriesSnoc(xs: seq<Instruction>, x: Instruction)
    ensures EntriesOf(xs + [x]) == EntriesOf(xs) + [Entry(x.Fields(), x.microOps)]
  {
    assert (xs + [x])[..|xs|] == xs;
  }

  lemma {:induction false} EntriesAt(xs: seq<Instruction>, j: nat)
    requires j < |xs|
    ensures EntriesOf(xs)[j] == Entry(xs[j].Fields(), xs[j].microOps)
    decreases |xs|
  {
    if j < |xs| - 1 {
      EntriesAt(xs[..|xs| - 1], j);
    }
  }

  // ---------------------------------------------------------------------
  // The statistics, as functions of the instructions read

  /** A key of the dictionary of `unique_ips`: an address, a `'sym+offset'` string, or a symbol (`None` included). */
  datatype IpKey = IntKey(n: int) | StrKey(s: string) | NoneKey

  /** `'{}'.format(x)` of an optional name. */
  function Show(x: Option<string>): string {
    match x
    case None => "None"
    case Some(s) => s
  }

  /** The key `unique_ips` files an instruction under: its address, else `'sym+offset'`, else its symbol. */
  function IpOf(f: InstrFields): IpKey {
    if TruthyInt(f.address) then IntKey(f.address.value)
    else if TruthyInt(f.offset) then StrKey(Show(f.symbol) + "+" + IntToString(f.offset.value))
    else
      match f.symbol
      case None => NoneKey
      case Some(s) => StrKey(s)
  }

  /** The key of every instruction, in order. */
  function IpKeys(t: seq<Entry>): (r: seq<IpKey>)
    ensures |r| == |t|
  {
    if t == [] then [] else IpKeys(t[..|t| - 1]) + [IpOf(t[|t| - 1].fields)]
  }

  /** The symbols of the instructions that have a non-empty one, in order. */
  function SymbolKeys(t: seq<Entry>): (r: seq<string>)
    ensures |r| <= |t|
  {
    if t == [] then []
    else
      var f := t[|t| - 1].fields;
      SymbolKeys(t[..|t| - 1]) + if TruthyStr(f.symbol) then [f.symbol.value] else []
  }

  /** The (symbol, address) pair of each instruction with a non-empty symbol, in order. */
  function SymbolAddrs(t: seq<Entry>): seq<(string, Option<int>)> {
    if t == [] then []
    else
      var f := t[|t| - 1].fields;
      SymbolAddrs(t[..|t| - 1]) + if TruthyStr(f.symbol) then [(f.symbol.value, f.address)] else []
  }

  /** The addresses of the instructions whose symbol equals `fn`, in order. */
  function AddrsOf(t: seq<Entry>, fn: Option<string>): seq<Option<int>> {
    if t == [] then []
    else
      var f := t[|t| - 1].fields;
      AddrsOf(t[..|t| - 1], fn) + if f.symbol == fn then [f.address] else []
  }

  /** `m.address()` is set and non-zero, and `not kind or m.kind() == kind`. */
  predicate Counted(op: MicroOp, kind: Option<string>) {
    TruthyInt(op.address) && (!TruthyStr(kind) || op.kind == kind.value)
  }

  /** The addresses `addresses` counts among the micro-ops of one instruction, in order. */
  function AccessKeys(ops: seq<MicroOp>, kind: Option<string>): seq<int> {
    if ops == [] then []
    else
      var op := ops[|ops| - 1];
      AccessKeys(ops[..|ops| - 1], kind) + if Counted(op, kind) then [op.address.value] else []
  }

  /** The addresses counted over the whole trace, instruction after instruction. */
  function AllAccesses(t: seq<Entry>, kind: Option<string>): seq<int> {
    if t == [] then [] else AllAccesses(t[..|t| - 1], kind) + AccessKeys(t[|t| - 1].ops, kind)
  }

  /** The addresses counted in the instructions of symbol `s`. */
  function SymbolAccesses(t: seq<Entry>, s: string, kind: Option<string>): seq<int> {
    if t == [] then []
    else
      var e := t[|t| - 1];
      SymbolAccesses(t[..|t| - 1], s, kind) + if e.fields.symbol == Some(s) then AccessKeys(e.ops, kind) else []
  }

  /**
   * The dictionary `addresses(per_symbol=True, kind)` builds, one
   * instruction at a time: an instruction with a non-empty symbol gets its
   * symbol's counter, created empty if need be, and counts its addresses in
   * it; the others are skipped.
   */
  function PerSymbol(t: seq<Entry>, kind: Option<string>): map<string, map<int, nat>> {
    if t == [] then map[]
    else
      var prev := PerSymbol(t[..|t| - 1], kind);
      var e := t[|t| - 1];
      if TruthyStr(e.fields.symbol) then
        prev[e.fields.symbol.value := CountFrom(Get(prev, e.fields.symbol.value, map[]), AccessKeys(e.ops, kind))]
      else prev
  }

  /** One more instruction: the step of each loop over the instruction list. */
  lemma PrefixStep(t: seq<Entry>, j: nat, kind: Option<string>)
    requires j < |t|
    ensures IpKeys(t[..j + 1]) == IpKeys(t[..j]) + [IpOf(t[j].fields)]
    ensures SymbolKeys(t[..j + 1]) == SymbolKeys(t[..j]) + if TruthyStr(t[j].fields.symbol) then [t[j].fields.symbol.value] else []
    ensures SymbolAddrs(t[..j + 1]) == SymbolAddrs(t[..j]) + if TruthyStr(t[j].fields.symbol) then [(t[j].fields.symbol.value, t[j].fields.address)] else []
    ensures AllAccesses(t[..j + 1], kind) == AllAccesses(t[..j], kind) + AccessKeys(t[j].ops, kind)
  {
    assert t[..j + 1][..j] == t[..j];
  }

  lemma AddrsStep(t: seq<Entry>, j: nat, fn: Option<string>)
    requires j < |t|
    ensures AddrsOf(t[..j + 1], fn) == AddrsOf(t[..j], fn) + if t[j].fields.symbol == fn then [t[j].fields.address] else []
  {
    assert t[..j + 1][..j] == t[..j];
  }

  lemma PerSymbolStep(t: seq<Entry>, j: nat, kind: Option<string>)
    requires j < |t|
    ensures PerSymbol(t[..j + 1], kind) ==
      if TruthyStr(t[j].fields.symbol) then
        PerSymbol(t[..j], kind)[t[j].fields.symbol.value :=
          CountFrom(Get(PerSymbol(t[..j], kind), t[j].fields.symbol.value, map[]), AccessKeys(t[j].ops, kind))]
      else PerSymbol(t[..j], kind)
  {
    assert t[..j + 1][..j] == t[..j];
  }

  lemma AccessStep(ops: seq<MicroOp>, j: nat, kind: Option<string>)
    requires j < |ops|
    ensures AccessKeys(ops[..j + 1], kind) == AccessKeys(ops[..j], kind) + if Counted(ops[j], kind) then [ops[j].address.value] else []
  {
    assert ops[..j + 1][..j] == ops[..j];
  }

  /** An empty counter sums to zero. */
  lemma SumEmpty<K>()
    ensures Sum<K>(map[]) == 0
  {
  }

  /** A counter started empty: its keys are the keys counted, and its counts sum to their number. */
  lemma CountFacts<K>(keys: seq<K>)
    ensures Sum(Count(keys)) == |keys|
    ensures forall k :: k in Count(keys) <==> k in keys
    ensures |Count(keys)| <= |keys|
  {
    CountFromSum(map[], keys);
    SumEmpty<K>();
    forall k
      ensures k in Count(keys) <==> k in keys
    {
      CountFromAt(map[], keys, k);
    }
    CountFromSize(map[], keys);
  }

  /** `unique_ips()` counts at most one key per instruction. */
  lemma UniqueIpsBound(t: seq<Entry>)
    ensures |Count(IpKeys(t))| <= |t|
  {
    CountFacts(IpKeys(t));
  }

  /** A symbol is counted exactly when some instruction carries it and it is not empty. */
  lemma {:induction false} SymbolKeysAt(t: seq<Entry>, s: string)
    ensures s in SymbolKeys(t) <==> s != "" && exists i :: 0 <= i < |t| && t[i].fields.symbol == Some(s)
    decreases |t|
  {
    if t != [] {
      var init, f := t[..|t| - 1], t[|t| - 1].fields;
      var extra := if TruthyStr(f.symbol) then [f.symbol.value] else [];
      assert SymbolKeys(t) == SymbolKeys(init) + extra;
      SymbolKeysAt(init, s);
      if s in SymbolKeys(t) {
        if s in SymbolKeys(init) {
          var i :| 0 <= i < |init| && init[i].fields.symbol == Some(s);
          assert t[i] == init[i];
        } else {
          assert t[|t| - 1].fields.symbol == Some(s);
        }
      }
      if s != "" && exists i :: 0 <= i < |t| && t[i].fields.symbol == Some(s) {
        var i :| 0 <= i < |t| && t[i].fields.symbol == Some(s);
        if i < |init| {
          assert init[i] == t[i];
        } else {
          assert s in extra;
        }
      }
    }
  }

  /**
   * `symbol_ips()`: each non-empty symbol maps to the number of its
   * instructions; together the counts are the instructions with a symbol,
   * at most all of them.
   */
  lemma SymbolIpsCounts(t: seq<Entry>, s: string)
    ensures s in Count(SymbolKeys(t)) <==> s != "" && exists i :: 0 <= i < |t| && t[i].fields.symbol == Some(s)
    ensures Get(Count(SymbolKeys(t)), s, 0) == multiset(SymbolKeys(t))[s]
    ensures Sum(Count(SymbolKeys(t))) == |SymbolKeys(t)| <= |t|
  {
    CountFacts(SymbolKeys(t));
    SymbolKeysAt(t, s);
    CountFromAt(map[], SymbolKeys(t), s);
  }

  /** The instructions of a symbol are as many as the times the symbol is counted. */
  lemma {:induction false} AddrsOfSymbol(t: seq<Entry>, s: string)
    requires s != ""
    ensures |AddrsOf(t, Some(s))| == multiset(SymbolKeys(t))[s]
    decreases |t|
  {
    if t != [] {
      AddrsOfSymbol(t[..|t| - 1], s);
    }
  }

  /** `symbol_unique_ips()` files an instruction under its symbol exactly when `symbol_ips()` does. */
  lemma {:induction false} SymbolTallyKeys(t: seq<Entry>, s: string)
    ensures s in Tally(SymbolAddrs(t)) <==> s in SymbolKeys(t)
    decreases |t|
  {
    if t != [] {
      var init := t[..|t| - 1];
      var f := t[|t| - 1].fields;
      SymbolTallyKeys(init, s);
      var keys := SymbolAddrs(init);
      if TruthyStr(f.symbol) {
        var x := (f.symbol.value, f.address);
        assert SymbolKeys(t) == SymbolKeys(init) + [x.0];
        assert (keys + [x])[..|keys|] == keys;
        assert Tally(SymbolAddrs(t)) == Bump2(Tally(keys), x.0, x.1);
      } else {
        assert SymbolKeys(t) == SymbolKeys(init);
        assert SymbolAddrs(t) == keys;
      }
    }
  }

  /** The counter `symbol_unique_ips()` keeps for a symbol is the counter `count_ips(s)` returns. */
  lemma {:induction false} SymbolTallyAt(t: seq<Entry>, s: string)
    requires s != ""
    ensures Get(Tally(SymbolAddrs(t)), s, map[]) == Count(AddrsOf(t, Some(s)))
    decreases |t|
  {
    if t != [] {
      var init := t[..|t| - 1];
      var f := t[|t| - 1].fields;
      SymbolTallyAt(init, s);
      var keys := SymbolAddrs(init);
      if TruthyStr(f.symbol) {
        var x := (f.symbol.value, f.address);
        assert (keys + [x])[..|keys|] == keys;
        assert Tally(SymbolAddrs(t)) == Bump2(Tally(keys), x.0, x.1);
        if f.symbol == Some(s) {
          assert AddrsOf(t, Some(s)) == AddrsOf(init, Some(s)) + [f.address];
          CountSnoc(map[], AddrsOf(init, Some(s)), f.address);
        } else {
          assert AddrsOf(t, Some(s)) == AddrsOf(init, Some(s));
        }
      } else {
        assert SymbolAddrs(t) == keys;
        assert f.symbol != Some(s);
        assert AddrsOf(t, Some(s)) == AddrsOf(init, Some(s));
      }
    }
  }

  /**
   * `count_ips(s)` for a non-empty symbol: its counts add up to
   * `symbol_ips()[s]` (zero for a symbol never seen), and it has
   * `symbol_unique_ips()[s]` keys.
   */
  lemma CountIpsAgree(t: seq<Entry>, s: string)
    requires s != ""
    ensures Sum(Count(AddrsOf(t, Some(s)))) == Get(Count(SymbolKeys(t)), s, 0)
  {
    CountFromSum(map[], AddrsOf(t, Some(s)));
    SumEmpty<Option<int>>();
    AddrsOfSymbol(t, s);
    CountFromAt(map[], SymbolKeys(t), s);
  }

  /**
   * `symbol_unique_ips()` has the keys of `symbol_ips()`, and each symbol
   * has between one and its instruction count of distinct addresses: the
   * keys of `count_ips(s)`.
   */
  lemma UniqueWithinCounts(t: seq<Entry>, s: string)
    requires s in Count(SymbolKeys(t))
    ensures s in Sizes(Tally(SymbolAddrs(t)))
    ensures Sizes(Tally(SymbolAddrs(t)))[s] == |Count(AddrsOf(t, Some(s)))|
    ensures 1 <= Sizes(Tally(SymbolAddrs(t)))[s] <= Count(SymbolKeys(t))[s]
  {
    var keys := SymbolKeys(t);
    var addrs := AddrsOf(t, Some(s));
    CountFromAt(map[], keys, s);
    SymbolKeysAt(t, s);
    SymbolTallyKeys(t, s);
    SymbolTallyAt(t, s);
    AddrsOfSymbol(t, s);
    CountFromSize(map[], addrs);
    CountFromAt(map[], addrs, addrs[0]);
  }

  /** The keys of `symbol_unique_ips()` are those of `symbol_ips()`. */
  lemma UniqueKeys(t: seq<Entry>)
    ensures Sizes(Tally(SymbolAddrs(t))).Keys == Count(SymbolKeys(t)).Keys
  {
    CountFacts(SymbolKeys(t));
    forall s | s in Sizes(Tally(SymbolAddrs(t)))
      ensures s in Count(SymbolKeys(t))
    {
      SymbolTallyKeys(t, s);
    }
    forall s | s in Count(SymbolKeys(t))
      ensures s in Sizes(Tally(SymbolAddrs(t)))
    {
      UniqueWithinCounts(t, s);
    }
  }

  /**
   * `addresses(per_symbol=True, kind)`: a symbol's counter holds exactly
   * the counts of the addresses in that symbol's instructions, and the keys
   * are the non-empty symbols of the trace, accessed or not.
   */
  lemma {:induction false} PerSymbolAt(t: seq<Entry>, kind: Option<string>, s: string)
    ensures s in PerSymbol(t, kind) <==> s in SymbolKeys(t)
    ensures s != "" ==> Get(PerSymbol(t, kind), s, map[]) == Count(SymbolAccesses(t, s, kind))
    decreases |t|
  {
    if t != [] {
      var init := t[..|t| - 1];
      var e := t[|t| - 1];
      PerSymbolAt(init, kind, s);
      if TruthyStr(e.fields.symbol) {
        assert SymbolKeys(t) == SymbolKeys(init) + [e.fields.symbol.value];
        if e.fields.symbol.value == s {
          assert e.fields.symbol == Some(s);
          assert SymbolAccesses(t, s, kind) == SymbolAccesses(init, s, kind) + AccessKeys(e.ops, kind);
          CountFromConcat(map[], SymbolAccesses(init, s, kind), AccessKeys(e.ops, kind));
        } else {
          assert e.fields.symbol != Some(s);
          assert SymbolAccesses(t, s, kind) == SymbolAccesses(init, s, kind);
        }
      } else {
        assert SymbolKeys(t) == SymbolKeys(init);
        if s != "" {
          assert e.fields.symbol != Some(s);
          assert SymbolAccesses(t, s, kind) == SymbolAccesses(init, s, kind);
        }
      }
    }
  }

  /** A kind only selects: every count with a kind is at most the count without one. */
  lemma {:induction false} KindSelects(ops: seq<MicroOp>, kind: Option<string>)
    ensures multiset(AccessKeys(ops, kind)) <= multiset(AccessKeys(ops, None))
    decreases |ops|
  {
    if ops != [] {
      KindSelects(ops[..|ops| - 1], kind);
    }
  }

  /** A micro-op is a read or a write, not both: reads and writes together are at most all accesses. */
  lemma {:induction false} ReadsAndWrites(ops: seq<MicroOp>)
    ensures |AccessKeys(ops, Some("MemRead"))| + |AccessKeys(ops, Some("MemWrite"))| <= |AccessKeys(ops, None)|
    decreases |ops|
  {
    if ops != [] {
      ReadsAndWrites(ops[..|ops| - 1]);
    }
  }

  lemma {:induction false} SymbolKindSelects(t: seq<Entry>, s: string, kind: Option<string>)
    ensures multiset(SymbolAccesses(t, s, kind)) <= multiset(SymbolAccesses(t, s, None))
    ensures |SymbolAccesses(t, s, Some("MemRead"))| + |SymbolAccesses(t, s, Some("MemWrite"))| <= |SymbolAccesses(t, s, None)|
    decreases |t|
  {
    if t != [] {
      var e := t[|t| - 1];
      SymbolKindSelects(t[..|t| - 1], s, kind);
      KindSelects(e.ops, kind);
      ReadsAndWrites(e.ops);
    }
  }

  lemma {:induction false} AllKindSelects(t: seq<Entry>, kind: Option<string>)
    ensures multiset(AllAccesses(t, kind)) <= multiset(AllAccesses(t, None))
    decreases |t|
  {
    if t != [] {
      AllKindSelects(t[..|t| - 1], kind);
      KindSelects(t[|t| - 1].ops, kind);
    }
  }

  /**
   * Filtering by kind never raises a count: per address, over the whole
   * trace and within a symbol, the count with a kind is at most the count
   * without one.
   */
  lemma KindCountsWithin(t: seq<Entry>, kind: Option<string>, s: string, a: int)
    requires s != ""
    ensures Get(Count(AllAccesses(t, kind)), a, 0) <= Get(Count(AllAccesses(t, None)), a, 0)
    ensures Get(Get(PerSymbol(t, kind), s, map[]), a, 0) <= Get(Get(PerSymbol(t, None), s, map[]), a, 0)
  {
    AllKindSelects(t, kind);
    CountFromAt(map[], AllAccesses(t, kind), a);
    CountFromAt(map[], AllAccesses(t, None), a);
    PerSymbolAt(t, kind, s);
    PerSymbolAt(t, None, s);
    SymbolKindSelects(t, s, kind);
    CountFromAt(map[], SymbolAccesses(t, s, kind), a);
    CountFromAt(map[], SymbolAccesses(t, s, None), a);
  }

  /** Tallying appends: the pairs tallied so far, then one more. */
  lemma TallySnoc<K1, K2>(keys: seq<(K1, K2)>, x: (K1, K2))
    ensures Tally(keys + [x]) == Bump2(Tally(keys), x.0, x.1)
  {
    assert (keys + [x])[..|keys|] == keys;
  }

  /** What `addresses` returns: the per-symbol dictionary, or one counter for the whole trace. */
  datatype AddressCounts =
    | PerSymbolCounts(syms: map<string, map<int, nat>>)
    | OverallCounts(addrs: map<int, nat>)

  /** The inner loop of `addresses`, over the micro-ops of one instruction, counting into `m`. */
  method CountAccesses(m: map<int, nat>, ops: seq<MicroOp>, kind: Option<string>) returns (r: map<int, nat>)
    ensures r == CountFrom(m, AccessKeys(ops, kind))
  {
    r := m;
    for k := 0 to |ops|
      invariant r == CountFrom(m, AccessKeys(ops[..k], kind))
    {
      var op := ops[k];
      AccessStep(ops, k, kind);
      if op.address.Some? && op.address.value != 0 && (kind.None? || kind.value == "" || op.kind == kind.value) {
        CountSnoc(m, AccessKeys(ops[..k], kind), op.address.value);
        r := Bump(r, op.address.value);
      } else {
        assert AccessKeys(ops[..k + 1], kind) == AccessKeys(ops[..k], kind);
      }
    }
    assert ops[..|ops|] == ops;
  }

  // ---------------------------------------------------------------------
  // The numbers of `summary`

  /** The per-symbol dictionaries `summary` computes before it writes anything. */
  datatype TraceTables = TraceTables(
    symIps: map<string, nat>,
    uniq: map<string, nat>,
    mem: map<string, nat>,
    addr: map<string, nat>,
    memRead: map<string, nat>,
    memWrite: map<string, nat>,
    addrRead: map<string, nat>,
    addrWrite: map<string, nat>)

  /**
   * The numbers of one symbol's lines in the three tables: instructions,
   * their share, distinct addresses; memory accesses, reads and writes with
   * their shares of the accesses; addresses, read and written, with their
   * shares of the addresses.
   */
  datatype SymbolRow = SymbolRow(
    instrs: nat, percent: real, uniq: nat,
    mem: nat, memRead: nat, memReadPercent: real, memWrite: nat, memWritePercent: real,
    addr: nat, addrRead: nat, addrReadPercent: real, addrWrite: nat, addrWritePercent: real)

  /** The four totals and the rows of the report, one per symbol. */
  datatype TraceSummary = TraceSummary(
    instrs: nat, uniqueIps: nat, memAccesses: nat, addresses: nat,
    rows: map<string, SymbolRow>)

  /** The dictionaries of `summary`, from the queries it makes. */
  ghost function TablesOf(t: seq<Entry>): TraceTables {
    var symAddr := PerSymbol(t, None);
    var read := PerSymbol(t, Some("MemRead"));
    var write := PerSymbol(t, Some("MemWrite"));
    TraceTables(
      Count(SymbolKeys(t)), Sizes(Tally(SymbolAddrs(t))),
      Totals(symAddr), Sizes(symAddr),
      Totals(read), Totals(write),
      Sizes(read), Sizes(write))
  }

  /**
   * The three lines of symbol `s`: `ips*100.0/total_ips`, the other
   * counts looked up with `get(sym, 0)`, and each read or write share
   * guarded by `if mems` (or `if addrs`).
   */
  function RowOf(tb: TraceTables, total: nat, s: string): SymbolRow
    requires s in tb.symIps && s in tb.uniq && total != 0
  {
    var mems := Get(tb.mem, s, 0);
    var memReads := Get(tb.memRead, s, 0);
    var memWrites := Get(tb.memWrite, s, 0);
    var addrs := Get(tb.addr, s, 0);
    var addrReads := Get(tb.addrRead, s, 0);
    var addrWrites := Get(tb.addrWrite, s, 0);
    SymbolRow(
      tb.symIps[s], Summaries.Percent(tb.symIps[s], total), tb.uniq[s],
      mems, memReads, Summaries.GuardedPercent(memReads, mems), memWrites, Summaries.GuardedPercent(memWrites, mems),
      addrs, addrReads, Summaries.GuardedPercent(addrReads, addrs), addrWrites, Summaries.GuardedPercent(addrWrites, addrs))
  }

  /** One row for each key of `sym_ips`. */
  function RowsOf(tb: TraceTables, total: nat): (r: map<string, SymbolRow>)
    requires tb.symIps.Keys <= tb.uniq.Keys && (tb.symIps != map[] ==> total != 0)
    ensures r.Keys == tb.symIps.Keys
  {
    map s | s in tb.symIps :: RowOf(tb, total, s)
  }

  /** The dictionaries of a trace can be written out: every symbol has a unique count, and there is an instruction to share. */
  lemma TablesFacts(t: seq<Entry>)
    ensures TablesOf(t).symIps.Keys == TablesOf(t).uniq.Keys
    ensures Sum(TablesOf(t).symIps) == |SymbolKeys(t)|
    ensures TablesOf(t).symIps != map[] ==> Sum(TablesOf(t).symIps) != 0
  {
    UniqueKeys(t);
    CountFacts(SymbolKeys(t));
  }

  /** The totals and the rows written from the dictionaries. */
  ghost function SummaryFrom(tb: TraceTables): TraceSummary
    requires tb.symIps.Keys <= tb.uniq.Keys && (tb.symIps != map[] ==> Sum(tb.symIps) != 0)
  {
    TraceSummary(Sum(tb.symIps), Sum(tb.uniq), Sum(tb.mem), Sum(tb.addr), RowsOf(tb, Sum(tb.symIps)))
  }

  /** `summary()`, without its text: the totals and each symbol's row. */
  ghost function SummaryOf(t: seq<Entry>): TraceSummary {
    TablesFacts(t);
    SummaryFrom(TablesOf(t))
  }

  /** The summary written from the dictionaries of the trace. */
  lemma SummaryOfTables(t: seq<Entry>, tb: TraceTables)
    requires tb == TablesOf(t)
    ensures tb.symIps.Keys <= tb.uniq.Keys && (tb.symIps != map[] ==> Sum(tb.symIps) != 0)
    ensures SummaryOf(t) == SummaryFrom(tb)
  {
    TablesFacts(t);
  }

  /**
   * The report has a row for each non-empty symbol of the trace and none
   * other; its instruction total is the number of instructions with a
   * symbol, and each row counts its symbol's instructions and between one
   * and that many distinct addresses.
   */
  lemma SummaryInstrRows(t: seq<Entry>, s: string)
    ensures SummaryOf(t).instrs == |SymbolKeys(t)| <= |t|
    ensures s in SummaryOf(t).rows <==> s != "" && exists i :: 0 <= i < |t| && t[i].fields.symbol == Some(s)
    ensures s in SummaryOf(t).rows ==>
      && SummaryOf(t).rows[s].instrs == multiset(SymbolKeys(t))[s]
      && 1 <= SummaryOf(t).rows[s].uniq <= SummaryOf(t).rows[s].instrs
  {
    TablesFacts(t);
    SymbolIpsCounts(t, s);
    if s in SummaryOf(t).rows {
      UniqueWithinCounts(t, s);
    }
  }

  /** The '%' column of the report. */
  function Percents(rows: map<string, SymbolRow>): (r: map<string, real>)
    ensures r.Keys == rows.Keys
  {
    map s | s in rows :: rows[s].percent
  }

  /** The '%' column is the instruction counts scaled by `100/total`. */
  lemma PercentsScale(tb: TraceTables, total: nat)
    requires tb.symIps.Keys <= tb.uniq.Keys && total != 0
    ensures Percents(RowsOf(tb, total)) == Scale(tb.symIps, 100.0 / (total as real))
  {
    var c := 100.0 / (total as real);
    var percents := Percents(RowsOf(tb, total));
    forall s | s in percents
      ensures percents[s] == Scale(tb.symIps, c)[s]
    {
      Summaries.PercentAsTimes(tb.symIps[s], total);
      ScaleAt(tb.symIps, c, s);
    }
    MapExt(percents, Scale(tb.symIps, c));
  }

  /** In exact arithmetic the instruction shares of a non-empty report add up to 100. */
  lemma SummaryPercentsSum(t: seq<Entry>)
    requires SummaryOf(t).rows != map[]
    ensures SumReal(Percents(SummaryOf(t).rows)) == 100.0
  {
    var tb := TablesOf(t);
    TablesFacts(t);
    var total := Sum(tb.symIps);
    PercentsScale(tb, total);
    ScaledSum(tb.symIps, 100.0 / (total as real));
    Summaries.WholeShare(total);
  }

  /** The accesses of a symbol in the report come from its instructions' micro-ops. */
  lemma AccessesOfSymbol(t: seq<Entry>, s: string, kind: Option<string>)
    requires s in SymbolKeys(t)
    ensures s in PerSymbol(t, kind)
    ensures Totals(PerSymbol(t, kind))[s] == |SymbolAccesses(t, s, kind)|
    ensures Sizes(PerSymbol(t, kind))[s] == |Count(SymbolAccesses(t, s, kind))|
  {
    SymbolKeysAt(t, s);
    PerSymbolAt(t, kind, s);
    CountFromSum(map[], SymbolAccesses(t, s, kind));
    SumEmpty<int>();
  }

  /** Filtering by kind keeps a symbol's distinct addresses among those without a kind. */
  lemma AddressesOfKind(t: seq<Entry>, s: string, kind: Option<string>)
    requires s in SymbolKeys(t)
    ensures |Count(SymbolAccesses(t, s, kind))| <= |Count(SymbolAccesses(t, s, None))|
  {
    var a, b := SymbolAccesses(t, s, kind), SymbolAccesses(t, s, None);
    SymbolKindSelects(t, s, kind);
    forall x | x in Count(a)
      ensures x in Count(b)
    {
      CountFromAt(map[], a, x);
      CountFromAt(map[], b, x);
      assert multiset(a)[x] <= multiset(b)[x];
    }
    SubsetSize(Count(a).Keys, Count(b).Keys);
  }

  /**
   * A row's memory numbers: the accesses are those of its symbol's
   * micro-ops, reads and writes together are at most the accesses, so
   * their shares add up to at most 100; the addresses read and the
   * addresses written are each at most the addresses accessed, so each
   * share is at most 100.
   */
  lemma SummaryAccessRow(t: seq<Entry>, s: string)
    requires s in SummaryOf(t).rows
    ensures SummaryOf(t).rows[s].mem == |SymbolAccesses(t, s, None)|
    ensures SummaryOf(t).rows[s].memRead + SummaryOf(t).rows[s].memWrite <= SummaryOf(t).rows[s].mem
    ensures SummaryOf(t).rows[s].memReadPercent + SummaryOf(t).rows[s].memWritePercent <= 100.0
    ensures SummaryOf(t).rows[s].addrRead <= SummaryOf(t).rows[s].addr
    ensures SummaryOf(t).rows[s].addrWrite <= SummaryOf(t).rows[s].addr
    ensures SummaryOf(t).rows[s].addrReadPercent <= 100.0 && SummaryOf(t).rows[s].addrWritePercent <= 100.0
  {
    var row := SummaryOf(t).rows[s];
    TablesFacts(t);
    SymbolIpsCounts(t, s);
    CountFromAt(map[], SymbolKeys(t), s);
    AccessesOfSymbol(t, s, None);
    AccessesOfSymbol(t, s, Some("MemRead"));
    AccessesOfSymbol(t, s, Some("MemWrite"));
    SymbolKindSelects(t, s, None);
    AddressesOfKind(t, s, Some("MemRead"));
    AddressesOfKind(t, s, Some("MemWrite"));
    assert row == RowOf(TablesOf(t), Sum(TablesOf(t).symIps), s);
    if row.mem != 0 {
      Summaries.SharesWithin(row.memRead, row.memWrite, row.mem);
    }
    if row.addr != 0 {
      Summaries.PercentBounds(row.addrRead, row.addr);
      Summaries.PercentBounds(row.addrWrite, row.addr);
    }
  }

  /** The totals, `sum(d.values())` of four of the dictionaries, and the rows. */
  method WriteSummary(tb: TraceTables) returns (r: TraceSummary)
    requires tb.symIps.Keys <= tb.uniq.Keys && (tb.symIps != map[] ==> Sum(tb.symIps) != 0)
    ensures r == SummaryFrom(tb)
  {
    var totalIps := SumOf(tb.symIps);
    var uniqTotal := SumOf(tb.uniq);
    var memTotal := SumOf(tb.mem);
    var addrTotal := SumOf(tb.addr);
    r := TraceSummary(totalIps, uniqTotal, memTotal, addrTotal, RowsOf(tb, totalIps));
  }

  /** The dictionaries `summary` derives from the per-symbol accesses: `sum(v.values())` and `len(v.values())` per symbol. */
  method DeriveTables(
    symIps: map<string, nat>, uniq: map<string, nat>,
    symAddr: map<string, map<int, nat>>, read: map<string, map<int, nat>>, write: map<string, map<int, nat>>)
    returns (tb: TraceTables)
    ensures tb == TraceTables(symIps, uniq, Totals(symAddr), Sizes(symAddr), Totals(read), Totals(write), Sizes(read), Sizes(write))
  {
    var mem := TotalsOf(symAddr);
    var addr := Sizes(symAddr);
    var memRead := TotalsOf(read);
    var memWrite := TotalsOf(write);
    var addrRead := Sizes(read);
    var addrWrite := Sizes(write);
    tb := TraceTables(symIps, uniq, mem, addr, memRead, memWrite, addrRead, addrWrite);
  }

  /**
   * `ExecTrace`: the instruction list, and the number of the line being
   * read. The instruction objects are distinct, so attaching a micro-op to
   * the last one leaves the others as they were.
   */
  class ExecTrace {
    var instructions: seq<Instruction>
    var lineno: nat

    constructor (instructions: seq<Instruction>)
      ensures this.instructions == instructions && lineno == 0
    {
      this.instructions := instructions;
      lineno := 0;
    }

    /** The instructions as values. */
    ghost function Contents(): seq<Entry>
      reads this, set x | x in instructions
    {
      EntriesOf(instructions)
    }

    /** No instruction is in the list twice. */
    ghost predicate Distinct()
      reads this
    {
      Unique(instructions)
    }

    /** `len(trace)`. */
    function Len(): (n: nat)
      reads this
      ensures n == |instructions|
    {
      |instructions|
    }

    /** `iter(trace)`: the instructions in file order. */
    method Iter() returns (xs: seq<Instruction>)
      ensures xs == instructions
    {
      xs := instructions;
    }

    /**
     * `load(lines, symtab)`: start a new list, then for each line, numbered
     * from 1, decode it; an instruction is appended, a micro-op is added to
     * the last instruction, or dropped when there is none yet. The first
     * line that fails ends the load with its exception, keeping what was
     * read before it.
     */
    method Load(lines: seq<string>, symtab: SymbolTable?) returns (out: Outcome)
      requires symtab != null ==> symtab.Valid()
      modifies this, symtab
      ensures symtab != null ==> symtab.Valid()
      ensures Contents() == Assemble(Decodings(lines, symtab)).entries
      ensures out == match Assemble(Decodings(lines, symtab)).error case None => Ok case Some(e) => Raised(e)
      ensures Distinct()
      ensures lineno <= |lines| && (out.Ok? ==> lineno == |lines|)
      ensures out.Raised? ==> 0 < lineno && Decodings(lines, symtab)[lineno - 1].Failure?
      ensures symtab != null ==>
        Consulted(symtab.syms, symtab.lookups, symtab.base, old(symtab.syms), old(symtab.lookups), Queries(lines[..lineno]))
    {
      ghost var ds := Decodings(lines, symtab);
      instructions := [];
      lineno := 0;
      assert lines[..0] == [];
      while lineno < |lines|
        invariant lineno <= |lines|
        invariant symtab != null ==> symtab.Valid()
        invariant symtab != null ==>
          Consulted(symtab.syms, symtab.lookups, symtab.base, old(symtab.syms), old(symtab.lookups), Queries(lines[..lineno]))
        invariant Distinct() && forall x :: x in instructions ==> fresh(x)
        invariant Assemble(ds[..lineno]).error.None? && Contents() == Assemble(ds[..lineno]).entries
        decreases |lines| - lineno
      {
        ghost var k := lineno;
        label before:
        var err := LoadLine(lines[lineno], symtab, ds);
        if symtab != null {
          ConsultedLines(symtab.syms, symtab.lookups, old@before(symtab.syms), old@before(symtab.lookups),
                         old(symtab.syms), old(symtab.lookups), symtab.base, lines, k);
        }
        if err.Some? {
          AssembleStep(ds, k);
          LoadedSticks(ds, lineno);
          return Raised(err.value);
        }
      }
      assert ds[..lineno] == ds;
      out := Ok;
    }

    /**
     * One iteration of the `load` loop, for the line after the `lineno`
     * lines of `ds` read so far: a failing line leaves the instructions as
     * they were and is reported in `err`.
     */
    method LoadLine(line: string, symtab: SymbolTable?, ghost ds: seq<Result<Decoded>>) returns (err: Option<Error>)
      requires symtab != null ==> symtab.Valid()
      requires lineno < |ds| && ds[lineno] == DecodeLine(line, lineno + 1, symtab)
      requires Assemble(ds[..lineno]).error.None? && Contents() == Assemble(ds[..lineno]).entries && Distinct()
      modifies this, symtab, set x | x in instructions
      ensures symtab != null ==> symtab.Valid()
      ensures symtab != null ==>
        Consulted(symtab.syms, symtab.lookups, symtab.base, old(symtab.syms), old(symtab.lookups), Asked(line, lineno))
      ensures lineno == old(lineno) + 1 && Distinct()
      ensures instructions == old(instructions) || exists x :: fresh(x) && instructions == old(instructions) + [x]
      ensures Contents() == Assemble(ds[..lineno]).entries
      ensures Assemble(ds[..lineno]).error == err
    {
      ghost var k := lineno;
      var p := ReadLine(line, symtab, ds[k]);
      AssembleStep(ds, k);
      if p.Failure? {
        return Some(p.error);
      }
      Append(p.value, ds, k);
      err := None;
    }

    /** The start of an iteration of the `load` loop: count the line and decode it; `d` is what it decodes to. */
    method ReadLine(line: string, symtab: SymbolTable?, ghost d: Result<Decoded>) returns (p: Result<Parsed>)
      requires symtab != null ==> symtab.Valid()
      requires d == DecodeLine(line, lineno + 1, symtab)
      modifies this`lineno, symtab
      ensures symtab != null ==> symtab.Valid()
      ensures symtab != null ==>
        Consulted(symtab.syms, symtab.lookups, symtab.base, old(symtab.syms), old(symtab.lookups), Asked(line, lineno))
      ensures lineno == old(lineno) + 1 && Contents() == old(Contents())
      ensures p.Failure? <==> d.Failure?
      ensures p.Failure? ==> p.error == d.error
      ensures p.Success? && p.value.ParsedInstruction? ==>
        && d == Success(DecodedInstruction(p.value.instr.Fields()))
        && p.value.instr.microOps == [] && fresh(p.value.instr)
      ensures p.Success? && p.value.ParsedMicroOp? ==> d == Success(DecodedMicroOp(p.value.op))
    {
      lineno := lineno + 1;
      p := ParseLine(line, lineno, symtab);
    }

    /**
     * The rest of an iteration of the `load` loop, for the `k`-th line of a
     * load whose lines decode to `ds`: append an instruction, or attach a
     * micro-op to the last one.
     */
    method Append(p: Parsed, ghost ds: seq<Result<Decoded>>, ghost k: nat)
      requires k < |ds| && Assemble(ds[..k]).error.None? && Contents() == Assemble(ds[..k]).entries
      requires Distinct()
      requires p.ParsedInstruction? ==>
        && ds[k] == Success(DecodedInstruction(p.instr.Fields()))
        && p.instr.microOps == [] && p.instr !in instructions
      requires p.ParsedMicroOp? ==> ds[k] == Success(DecodedMicroOp(p.op))
      modifies this, set x | x in instructions
      ensures Distinct() && lineno == old(lineno)
      ensures instructions == old(instructions) + if p.ParsedInstruction? then [p.instr] else []
      ensures Assemble(ds[..k + 1]).error.None? && Contents() == Assemble(ds[..k + 1]).entries
    {
      AssembleStep(ds, k);
      match p {
        case ParsedInstruction(x) =>
          ghost var xs := instructions;
          instructions := instructions + [x];
          assert instructions[..|xs|] == xs;
          EntriesSnoc(xs, x);
        case ParsedMicroOp(op) =>
          if instructions != [] {
            AttachToLast(op);
          }
      }
    }

    /** `instructions[-1].add_micro_op(op)`: only the last instruction changes. */
    method AttachToLast(op: MicroOp)
      requires instructions != [] && Distinct()
      modifies instructions[|instructions| - 1]
      ensures Contents() == Attach(old(Contents()), op)
    {
      var last := instructions[|instructions| - 1];
      ghost var init := instructions[..|instructions| - 1];
      ghost var ops := last.microOps;
      assert instructions == init + [last];
      assert last !in init;
      EntriesSnoc(init, last);
      ghost var before := Contents();
      assert before == EntriesOf(init) + [Entry(last.Fields(), ops)];
      last.AddMicroOp(op);
      EntriesSnoc(init, last);
      assert Contents() == EntriesOf(init) + [Entry(last.Fields(), ops + [op])];
      assert before[..|before| - 1] == EntriesOf(init);
    }

    /** `unique_ips()`: the number of distinct keys, an instruction filed under `IpOf` of its values. */
    method UniqueIps() returns (n: nat)
      ensures n == |Count(IpKeys(Contents()))|
    {
      ghost var t := Contents();
      var ips: map<IpKey, nat> := map[];
      for j := 0 to |instructions|
        invariant ips == Count(IpKeys(t[..j]))
      {
        var x := instructions[j];
        EntriesAt(instructions, j);
        PrefixStep(t, j, None);
        CountSnoc(map[], IpKeys(t[..j]), IpOf(x.Fields()));
        ips := Bump(ips, IpOf(x.Fields()));
      }
      assert t[..|instructions|] == t;
      n := |ips|;
    }

    /** `symbol_ips()`: instructions counted per non-empty symbol. */
    method SymbolIps() returns (ips: map<string, nat>)
      ensures ips == Count(SymbolKeys(Contents()))
    {
      ghost var t := Contents();
      ips := map[];
      for j := 0 to |instructions|
        invariant ips == Count(SymbolKeys(t[..j]))
      {
        var x := instructions[j];
        EntriesAt(instructions, j);
        PrefixStep(t, j, None);
        if x.symbol.Some? && x.symbol.value != "" {
          CountSnoc(map[], SymbolKeys(t[..j]), x.symbol.value);
          ips := Bump(ips, x.symbol.value);
        } else {
          assert SymbolKeys(t[..j + 1]) == SymbolKeys(t[..j]);
        }
      }
      assert t[..|instructions|] == t;
    }

    /** `symbol_unique_ips()`: per non-empty symbol, the number of distinct addresses of its instructions. */
    method SymbolUniqueIps() returns (r: map<string, nat>)
      ensures r == Sizes(Tally(SymbolAddrs(Contents())))
    {
      ghost var t := Contents();
      var syms: map<string, map<Option<int>, nat>> := map[];
      for j := 0 to |instructions|
        invariant syms == Tally(SymbolAddrs(t[..j]))
      {
        var x := instructions[j];
        EntriesAt(instructions, j);
        PrefixStep(t, j, None);
        if x.symbol.Some? && x.symbol.value != "" {
          TallySnoc(SymbolAddrs(t[..j]), (x.symbol.value, x.address));
          syms := Bump2(syms, x.symbol.value, x.address);
        } else {
          assert SymbolAddrs(t[..j + 1]) == SymbolAddrs(t[..j]);
        }
      }
      assert t[..|instructions|] == t;
      r := Sizes(syms);
    }

    /** `count_ips(fn)`: the addresses of the instructions whose symbol equals `fn`, counted. */
    method CountIps(fn: Option<string>) returns (ips: map<Option<int>, nat>)
      ensures ips == Count(AddrsOf(Contents(), fn))
    {
      ghost var t := Contents();
      ips := map[];
      for j := 0 to |instructions|
        invariant ips == Count(AddrsOf(t[..j], fn))
      {
        var x := instructions[j];
        EntriesAt(instructions, j);
        AddrsStep(t, j, fn);
        if x.symbol == fn {
          CountSnoc(map[], AddrsOf(t[..j], fn), x.address);
          ips := Bump(ips, x.address);
        } else {
          assert AddrsOf(t[..j + 1], fn) == AddrsOf(t[..j], fn);
        }
      }
      assert t[..|instructions|] == t;
    }

    /**
     * `addresses(per_symbol, kind)`: per non-empty symbol, or over the whole
     * trace, the addresses of the micro-ops with an address (and of the
     * given kind, when one is given), counted.
     */
    method Addresses(perSymbol: bool, kind: Option<string>) returns (r: AddressCounts)
      ensures perSymbol ==> r == PerSymbolCounts(PerSymbol(Contents(), kind))
      ensures !perSymbol ==> r == OverallCounts(Count(AllAccesses(Contents(), kind)))
    {
      ghost var t := Contents();
      var syms: map<string, map<int, nat>> := map[];
      var addrs: map<int, nat> := map[];
      for j := 0 to |instructions|
        invariant perSymbol ==> syms == PerSymbol(t[..j], kind)
        invariant !perSymbol ==> addrs == Count(AllAccesses(t[..j], kind))
      {
        var x := instructions[j];
        EntriesAt(instructions, j);
        if perSymbol {
          PerSymbolStep(t, j, kind);
          if x.symbol.None? || x.symbol.value == "" {
            continue;
          }
          addrs := Get(syms, x.symbol.value, map[]);
        } else {
          PrefixStep(t, j, kind);
          CountFromConcat(map[], AllAccesses(t[..j], kind), AccessKeys(x.microOps, kind));
        }
        addrs := CountAccesses(addrs, x.microOps, kind);
        if perSymbol {
          syms := syms[x.symbol.value := addrs];
        }
      }
      assert t[..|instructions|] == t;
      r := if perSymbol then PerSymbolCounts(syms) else OverallCounts(addrs);
    }

    /**
     * The numbers of `summary()`: the queries, the four totals, and each
     * symbol's row of the three tables.
     */
    method Summary() returns (r: TraceSummary)
      ensures r == SummaryOf(Contents())
    {
      var tb := Tables();
      SummaryOfTables(Contents(), tb);
      r := WriteSummary(tb);
    }

    /** The queries of `summary()` and the dictionaries it derives from them. */
    method Tables() returns (tb: TraceTables)
      ensures tb == TablesOf(Contents())
    {
      ghost var t := Contents();
      var symIps := SymbolIps();
      assert Contents() == t;
      var symUniqIps := SymbolUniqueIps();
      assert Contents() == t;
      var symAddr := Addresses(true, None);
      assert Contents() == t;
      var read := Addresses(true, Some("MemRead"));
      assert Contents() == t;
      var write := Addresses(true, Some("MemWrite"));
      assert Contents() == t;
      tb := DeriveTables(symIps, symUniqIps, symAddr.syms, read.syms, write.syms);
    }
  }
}
