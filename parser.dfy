/**
 * The parser: it reads a trace line by line, decodes each line, and hands
 * every instruction and every micro-op to each registered analysis, in
 * registration order. A micro-op is handed over together with the most
 * recent instruction of the same load, or with no instruction when none has
 * been read yet.
 *
 * The parser keeps two ghost logs: the events it emitted (one per decoded
 * line) and the deliveries it made (one per call of an analysis).
 */
module Parsers {
  import opened Common
  import opened Counters
  import opened MicroOps
  import opened Instructions
  import opened SymbolTables
  import opened Analyses
  import opened LineDecoder

  /** A registered analysis: the base class, which ignores everything, or one of the four analyses. */
  datatype Analysis =
    | Plain
    | Trace(t: TraceBuilder)
    | Lines(l: SourceLines)
    | Ips(s: SymbolIps)
    | Accesses(x: AccessedAddresses)

  /** The object an analysis updates. */
  function Footprint(a: Analysis): set<object> {
    match a
    case Plain => {}
    case Trace(t) => {t}
    case Lines(l) => {l}
    case Ips(s) => {s}
    case Accesses(x) => {x}
  }

  /** The objects of all registered analyses. */
  ghost function ReprOf(analyses: seq<Analysis>): set<object> {
    set i, o | 0 <= i < |analyses| && o in Footprint(analyses[i]) :: o
  }

  /** What an analysis has recorded: a trace builder's list of instructions, or the ghost log behind a counter. */
  datatype Logs = Logs(
    instrs: seq<Instruction>,
    lines: seq<(Option<string>, Option<int>)>,
    ips: seq<(Option<string>, Option<int>)>,
    accesses: seq<(Option<string>, string, int)>)

  const NoLogs := Logs([], [], [], [])

  /** The records `x` followed by the records `y`. */
  function Plus(x: Logs, y: Logs): Logs {
    Logs(x.instrs + y.instrs, x.lines + y.lines, x.ips + y.ips, x.accesses + y.accesses)
  }

  /** What the analysis `a` has recorded so far. */
  ghost function LogsOf(a: Analysis): Logs
    reads Footprint(a)
  {
    match a
    case Plain => NoLogs
    case Trace(t) => Logs(t.instructions, [], [], [])
    case Lines(l) => Logs([], l.counted, [], [])
    case Ips(s) => Logs([], [], s.seen, [])
    case Accesses(x) => Logs([], [], [], x.seen)
  }

  /** The counters of the analysis are the tally of its log. */
  ghost predicate AnalysisValid(a: Analysis)
    reads Footprint(a)
  {
    match a
    case Lines(l) => l.Valid()
    case Ips(s) => s.Valid()
    case Accesses(x) => x.Valid()
    case _ => true
  }

  /** The counters of every registered analysis are the tally of its log. */
  ghost predicate AllValid(analyses: seq<Analysis>)
    reads ReprOf(analyses)
  {
    forall j :: 0 <= j < |analyses| ==> AnalysisValid(analyses[j])
  }

  /** What the logs of all registered analyses are now, position by position. */
  ghost function Snapshot(analyses: seq<Analysis>): (r: seq<Logs>)
    reads ReprOf(analyses)
    ensures |r| == |analyses|
    ensures forall j :: 0 <= j < |analyses| ==> r[j] == LogsOf(analyses[j])
  {
    seq(|analyses|, j reads ReprOf(analyses) requires 0 <= j < |analyses| => LogsOf(analyses[j]))
  }

  /**
   * What the class of `a` records for one event: a trace builder keeps the
   * instruction, `SourceLines` its (source line, address) unless the filter
   * skips it, `SymbolIps` its (symbol, address), and `AccessedAddresses`
   * the (symbol, kind, address) of a micro-op with an address and an owner.
   */
  function Entry(a: Analysis, ev: Event): Logs {
    match a
    case Plain => NoLogs
    case Trace(_) => if ev.InstrEvent? then Logs([ev.instr], [], [], []) else NoLogs
    case Lines(l) =>
      if ev.InstrEvent? && !l.Skips(ev.instr) then Logs([], [(ev.instr.sourceLine, ev.instr.address)], [], []) else NoLogs
    case Ips(_) => if ev.InstrEvent? then Logs([], [], [(ev.instr.symbol, ev.instr.address)], []) else NoLogs
    case Accesses(_) =>
      if ev.MicroEvent? && TruthyInt(ev.op.address) && ev.owner != null
      then Logs([], [], [], [(ev.owner.symbol, ev.op.kind, ev.op.address.value)])
      else NoLogs
  }

  /** What the class of `a` records for the events `evs`, in order. */
  function Record(a: Analysis, evs: seq<Event>): Logs
    decreases |evs|
  {
    if evs == [] then NoLogs else Plus(Record(a, evs[..|evs| - 1]), Entry(a, evs[|evs| - 1]))
  }

  /** The events the analysis `a` received among the calls `ds`: those made to a position that holds `a`. */
  function Received(analyses: seq<Analysis>, a: Analysis, ds: seq<Delivery>): seq<Event>
    decreases |ds|
  {
    if ds == [] then []
    else
      var d := ds[|ds| - 1];
      Received(analyses, a, ds[..|ds| - 1]) + (if d.target < |analyses| && analyses[d.target] == a then [d.event] else [])
  }

  /**
   * Since the logs `before`, every registered analysis has recorded
   * exactly what its class records for the events it received among the
   * calls `ds`, and nothing else.
   */
  ghost predicate Delivered(analyses: seq<Analysis>, before: seq<Logs>, ds: seq<Delivery>)
    reads ReprOf(analyses)
  {
    && |before| == |analyses|
    && forall j {:trigger Received(analyses, analyses[j], ds)} :: 0 <= j < |analyses| ==>
         LogsOf(analyses[j]) == Plus(before[j], Record(analyses[j], Received(analyses, analyses[j], ds)))
  }

  /** What the parser emits for one decoded line. */
  datatype Event =
    | InstrEvent(instr: Instruction)
    | MicroEvent(owner: Instruction?, op: MicroOp)

  /** One call of an analysis: the analysis at position `target` received `event`. */
  datatype Delivery = Delivery(target: nat, event: Event)

  /** The instruction a micro-op event may modify. */
  function Owned(ev: Event): set<object> {
    if ev.MicroEvent? && ev.owner != null then {ev.owner} else {}
  }

  /**
   * `a.microop(None, op)` raises AttributeError for a trace builder, and for
   * the access counter when the micro-op has an address; nothing else raises.
   */
  predicate Raises(a: Analysis, owner: Instruction?, op: MicroOp) {
    owner == null && (a.Trace? || (a.Accesses? && TruthyInt(op.address)))
  }

  /** The position of the first analysis that raises on `microop(owner, op)`, or `|analyses|`. */
  function FirstRaise(analyses: seq<Analysis>, owner: Instruction?, op: MicroOp): (r: nat)
    ensures r <= |analyses|
    ensures r < |analyses| ==> Raises(analyses[r], owner, op)
    ensures forall i :: 0 <= i < r ==> !Raises(analyses[i], owner, op)
    decreases |analyses|
  {
    if analyses == [] then 0
    else if Raises(analyses[0], owner, op) then 0
    else 1 + FirstRaise(analyses[1..], owner, op)
  }

  /** The event stops the fan-out with an exception. */
  predicate EventRaises(analyses: seq<Analysis>, ev: Event) {
    ev.MicroEvent? && FirstRaise(analyses, ev.owner, ev.op) < |analyses|
  }

  /** How many analyses are called for an event: all of them, or up to and including the one that raises. */
  function Calls(analyses: seq<Analysis>, ev: Event): (n: nat)
    ensures n <= |analyses|
    ensures !EventRaises(analyses, ev) ==> n == |analyses|
  {
    if EventRaises(analyses, ev) then FirstRaise(analyses, ev.owner, ev.op) + 1 else |analyses|
  }

  /** The calls for one event: analyses 0 to n - 1, in order. */
  function Fan(n: nat, ev: Event): (r: seq<Delivery>)
    ensures |r| == n
    ensures forall j :: 0 <= j < n ==> r[j] == Delivery(j, ev)
  {
    if n == 0 then [] else Fan(n - 1, ev) + [Delivery(n - 1, ev)]
  }

  /** The calls for a sequence of events, event after event. */
  function Deliveries(analyses: seq<Analysis>, evs: seq<Event>): seq<Delivery>
    decreases |evs|
  {
    if evs == [] then []
    else Deliveries(analyses, evs[..|evs| - 1]) + Fan(Calls(analyses, evs[|evs| - 1]), evs[|evs| - 1])
  }

  /** The `instruction` variable of `load` after the events `evs`: the last instruction, or None. */
  function LastInstr(evs: seq<Event>): Instruction?
    decreases |evs|
  {
    if evs == [] then null
    else if evs[|evs| - 1].InstrEvent? then evs[|evs| - 1].instr
    else LastInstr(evs[..|evs| - 1])
  }

  /** The event is what the line decodes to. */
  predicate Agrees(ev: Event, d: Result<Decoded>) {
    && d.Success?
    && match ev
       case InstrEvent(x) => d.value == DecodedInstruction(x.Fields())
       case MicroEvent(_, op) => d.value == DecodedMicroOp(op)
  }

  /** What each line decodes to, the lines being numbered from 1. */
  ghost function Decodes(lines: seq<string>, symtab: SymbolTable?): (r: seq<Result<Decoded>>)
    ensures |r| == |lines|
    ensures forall i :: 0 <= i < |lines| ==> r[i] == DecodeLine(lines[i], i + 1, symtab)
  {
    seq(|lines|, i requires 0 <= i < |lines| => DecodeLine(lines[i], i + 1, symtab))
  }

  /**
   * The events match the decoded lines from the first on, and each micro-op
   * carries the last instruction before it.
   */
  predicate Matches(evs: seq<Event>, ds: seq<Result<Decoded>>) {
    && |evs| <= |ds|
    && forall i :: 0 <= i < |evs| ==>
         && Agrees(evs[i], ds[i])
         && (evs[i].MicroEvent? ==> evs[i].owner == LastInstr(evs[..i]))
  }

  /** The events of a load, one per line from the first. */
  ghost predicate Follows(evs: seq<Event>, lines: seq<string>, symtab: SymbolTable?) {
    Matches(evs, Decodes(lines, symtab))
  }

  /** One call of `a.instruction(instr)` or `a.microop(owner, op)`, by the class of `a`. */
  method Dispatch(a: Analysis, ev: Event) returns (out: Outcome)
    modifies Footprint(a), Owned(ev)
    ensures out == if ev.MicroEvent? && Raises(a, ev.owner, ev.op) then Raised(AttributeError) else Ok
    ensures a.Trace? && ev.InstrEvent? ==> a.t.instructions == old(a.t.instructions) + [ev.instr]
    ensures a.Trace? && ev.MicroEvent? && ev.owner != null ==> ev.owner.microOps == old(ev.owner.microOps) + [ev.op]
    ensures a.Lines? && ev.InstrEvent? ==>
      a.l.counted == old(a.l.counted) + (if a.l.Skips(ev.instr) then [] else [(ev.instr.sourceLine, ev.instr.address)])
    ensures a.Ips? && ev.InstrEvent? ==> a.s.seen == old(a.s.seen) + [(ev.instr.symbol, ev.instr.address)]
    ensures a.Accesses? && ev.MicroEvent? ==>
      a.x.seen == old(a.x.seen) +
        (if TruthyInt(ev.op.address) && ev.owner != null then [(ev.owner.symbol, ev.op.kind, ev.op.address.value)] else [])
    ensures a.Lines? ==>
      a.l.lines == if ev.InstrEvent? && !a.l.Skips(ev.instr)
        then Bump2(old(a.l.lines), ev.instr.sourceLine, ev.instr.address) else old(a.l.lines)
    ensures a.Ips? ==>
      a.s.syms == if ev.InstrEvent? then Bump2(old(a.s.syms), ev.instr.symbol, ev.instr.address) else old(a.s.syms)
    ensures a.Accesses? ==>
      a.x.syms == if ev.MicroEvent? && TruthyInt(ev.op.address) && ev.owner != null
        then Bump3(old(a.x.syms), ev.owner.symbol, ev.op.kind, ev.op.address.value) else old(a.x.syms)
    ensures LogsOf(a) == Plus(old(LogsOf(a)), Entry(a, ev))
    ensures old(AnalysisValid(a)) ==> AnalysisValid(a)
  {
    PlusNothing(LogsOf(a));
    out := Ok;
    match ev {
      case InstrEvent(instr) =>
        match a {
          case Trace(t) => t.OnInstruction(instr);
          case Lines(l) => l.OnInstruction(instr);
          case Ips(s) => s.OnInstruction(instr);
          case _ =>
        }
      case MicroEvent(owner, op) =>
        match a {
          case Trace(t) => out := t.OnMicroOp(owner, op);
          case Accesses(x) => out := x.OnMicroOp(owner, op);
          case _ =>
        }
    }
  }

  /**
   * The `j`-th call of a fan-out for `ev`: the analysis at position `j`
   * records the event, and every analysis held elsewhere keeps its records.
   */
  method DispatchAt(analyses: seq<Analysis>, j: nat, ev: Event, ghost before: seq<Logs>) returns (out: Outcome)
    requires j < |analyses| && Delivered(analyses, before, Fan(j, ev))
    modifies ReprOf(analyses), Owned(ev)
    ensures out == if ev.MicroEvent? && Raises(analyses[j], ev.owner, ev.op) then Raised(AttributeError) else Ok
    ensures Delivered(analyses, before, Fan(j + 1, ev))
    ensures old(AllValid(analyses)) ==> AllValid(analyses)
  {
    var a := analyses[j];
    InRepr(analyses, j);
    ghost var mid := Snapshot(analyses);
    label pre:
    out := Dispatch(a, ev);
    forall i | 0 <= i < |analyses|
      ensures LogsOf(analyses[i]) == if analyses[i] == a then Plus(mid[i], Entry(a, ev)) else mid[i]
      ensures old@pre(AnalysisValid(analyses[i])) ==> AnalysisValid(analyses[i])
    {
      if analyses[i] != a {
        Separate(analyses[i], a, ev);
        Kept@pre(analyses[i]);
      }
    }
    Advance(analyses, j, ev, before, mid);
  }

  /**
   * The loop of `__emit_instruction`: each analysis in `targets`, in order,
   * gets the instruction; `before` are the logs at the start.
   */
  method DeliverInstruction(targets: seq<Analysis>, instr: Instruction, ghost before: seq<Logs>)
    requires Delivered(targets, before, [])
    modifies ReprOf(targets)
    ensures Delivered(targets, before, Fan(|targets|, InstrEvent(instr)))
    ensures old(AllValid(targets)) ==> AllValid(targets)
  {
    var ev := InstrEvent(instr);
    var j := 0;
    while j < |targets|
      invariant 0 <= j <= |targets|
      invariant Delivered(targets, before, Fan(j, ev))
      invariant old(AllValid(targets)) ==> AllValid(targets)
    {
      var _ := DispatchAt(targets, j, ev, before);
      j := j + 1;
    }
  }

  /** Where a fan-out of `op` stands after `j` calls, the last of which returned `out`. */
  predicate MicroAt(targets: seq<Analysis>, instr: Instruction?, op: MicroOp, j: nat, out: Outcome) {
    if out.Ok? then j <= FirstRaise(targets, instr, op)
    else out == Raised(AttributeError) && EventRaises(targets, MicroEvent(instr, op)) && Calls(targets, MicroEvent(instr, op)) == j
  }

  /**
   * The loop of `__emit_microop`: each analysis in `targets`, in order, gets
   * the micro-op, until one raises; `before` are the logs at the start.
   */
  method DeliverMicroop(targets: seq<Analysis>, instr: Instruction?, op: MicroOp, ghost before: seq<Logs>)
    returns (out: Outcome)
    requires Delivered(targets, before, [])
    modifies ReprOf(targets), Owned(MicroEvent(instr, op))
    ensures out == if EventRaises(targets, MicroEvent(instr, op)) then Raised(AttributeError) else Ok
    ensures Delivered(targets, before, Fan(Calls(targets, MicroEvent(instr, op)), MicroEvent(instr, op)))
    ensures old(AllValid(targets)) ==> AllValid(targets)
  {
    var ev := MicroEvent(instr, op);
    var j := 0;
    out := Ok;
    while j < |targets| && out.Ok?
      invariant 0 <= j <= |targets|
      invariant MicroAt(targets, instr, op, j, out)
      invariant Delivered(targets, before, Fan(j, ev))
      invariant old(AllValid(targets)) ==> AllValid(targets)
    {
      out := DispatchAt(targets, j, ev, before);
      if out.Raised? {
        StopsAt(targets, instr, op, j);
      } else {
        PassesRaise(targets, instr, op, j);
      }
      j := j + 1;
    }
    if out.Ok? {
      NoneStops(targets, instr, op);
    }
  }

  class Parser {
    var analyses: seq<Analysis>
    var lineno: nat
    /** Every event emitted so far. */
    ghost var events: seq<Event>
    /** Every call of an analysis made so far. */
    ghost var deliveries: seq<Delivery>

    constructor ()
      ensures analyses == [] && lineno == 0 && events == [] && deliveries == []
    {
      analyses := [];
      lineno := 0;
      events := [];
      deliveries := [];
    }

    /** `add_analysis(a)`: register one more analysis, after the others. */
    method AddAnalysis(a: Analysis)
      modifies this
      ensures analyses == old(analyses) + [a]
      ensures lineno == old(lineno) && events == old(events) && deliveries == old(deliveries)
      ensures old(AllValid(analyses)) && AnalysisValid(a) <==> AllValid(analyses)
    {
      label pre:
      var all := analyses + [a];
      analyses := all;
      forall i | 0 <= i < |all|
        ensures AnalysisValid(all[i]) == old@pre(AnalysisValid(all[i]))
      {
        Kept@pre(all[i]);
      }
      if AllValid(all) {
        forall j | 0 <= j < |all| - 1 ensures old(AnalysisValid(analyses[j])) {
          assert AnalysisValid(all[j]);
        }
        assert AnalysisValid(all[|all| - 1]);
      }
    }

    /** `analyses()`: the registered analyses, in registration order. */
    method Analyses() returns (r: seq<Analysis>)
      ensures r == analyses
    {
      r := analyses;
    }

    /** `__emit_instruction(instr)`: every analysis, in order, receives the instruction. */
    method EmitInstruction(instr: Instruction)
      modifies this, ReprOf(analyses)
      ensures analyses == old(analyses) && lineno == old(lineno)
      ensures events == old(events) + [InstrEvent(instr)]
      ensures deliveries == old(deliveries) + Fan(|analyses|, InstrEvent(instr))
      ensures Delivered(analyses, old(Snapshot(analyses)), Fan(|analyses|, InstrEvent(instr)))
      ensures old(AllValid(analyses)) ==> AllValid(analyses)
    {
      Apart(analyses, this, null, null);
      deliveries := deliveries + Fan(|analyses|, InstrEvent(instr));
      events := events + [InstrEvent(instr)];
      KeepsLogs(analyses);
      DeliveredStart(analyses);
      DeliverInstruction(analyses, instr, Snapshot(analyses));
    }

    /**
     * `__emit_microop(instr, op)`: every analysis, in order, receives the
     * micro-op, until one raises; the exception ends the fan-out.
     */
    method EmitMicroop(instr: Instruction?, op: MicroOp) returns (out: Outcome)
      modifies this, ReprOf(analyses), instr
      ensures analyses == old(analyses) && lineno == old(lineno)
      ensures events == old(events) + [MicroEvent(instr, op)]
      ensures out == if EventRaises(analyses, MicroEvent(instr, op)) then Raised(AttributeError) else Ok
      ensures deliveries == old(deliveries) + Fan(Calls(analyses, MicroEvent(instr, op)), MicroEvent(instr, op))
      ensures Delivered(analyses, old(Snapshot(analyses)), Fan(Calls(analyses, MicroEvent(instr, op)), MicroEvent(instr, op)))
      ensures old(AllValid(analyses)) ==> AllValid(analyses)
    {
      Apart(analyses, this, null, instr);
      deliveries := deliveries + Fan(Calls(analyses, MicroEvent(instr, op)), MicroEvent(instr, op));
      events := events + [MicroEvent(instr, op)];
      KeepsLogs(analyses);
      DeliveredStart(analyses);
      out := DeliverMicroop(analyses, instr, op, Snapshot(analyses));
    }

    /**
     * `load(lines, symtab)`: decode the lines in order, numbering them from
     * 1, and emit each one; the first exception, from the decoder or from an
     * analysis, ends the load. `evs` are the events emitted.
     */
    method Load(lines: seq<string>, symtab: SymbolTable?) returns (out: Outcome, ghost evs: seq<Event>)
      requires symtab != null ==> symtab.Valid()
      modifies this, ReprOf(analyses), symtab
      ensures analyses == old(analyses)
      ensures symtab != null ==> symtab.Valid() && old(symtab.syms).Keys <= symtab.syms.Keys
      ensures events == old(events) + evs
      ensures deliveries == old(deliveries) + Deliveries(analyses, evs)
      ensures Follows(evs, lines, symtab)
      ensures Ended(analyses, lines, symtab, evs, lineno, out)
      ensures Delivered(analyses, old(Snapshot(analyses)), Deliveries(analyses, evs))
      ensures old(AllValid(analyses)) ==> AllValid(analyses)
      ensures lineno <= |lines|
      ensures symtab != null ==>
        Consulted(symtab.syms, symtab.lookups, symtab.base, old(symtab.syms), old(symtab.lookups), Queries(lines[..lineno]))
    {
      ghost var before := Snapshot(analyses);
      Apart(analyses, this, symtab, null);
      out := Ok;
      lineno := 0;
      var instruction: Instruction? := null;
      evs := [];
      ghost var e0, d0 := events, deliveries;
      ghost var syms0, lookups0 := if symtab != null then symtab.syms else map[], if symtab != null then symtab.lookups else [];
      AppendNothing(e0);
      AppendNothing(d0);
      DeliveredStart(analyses);
      assert lines[..0] == [];
      while lineno < |lines|
        invariant analyses == old(analyses)
        invariant symtab != null ==> symtab.Valid() && old(symtab.syms).Keys <= symtab.syms.Keys
        invariant Progress(lines, symtab, evs, instruction, e0, d0) && out == Ok
        invariant Delivered(analyses, before, Deliveries(analyses, evs))
        invariant symtab != null ==>
          Consulted(symtab.syms, symtab.lookups, symtab.base, syms0, lookups0, Queries(lines[..lineno]))
        invariant old(AllValid(analyses)) ==> AllValid(analyses)
        invariant instruction == null || fresh(instruction)
        decreases |lines| - lineno
      {
        out, evs, instruction := LoadStep(lines, symtab, instruction, evs, e0, d0, before, syms0, lookups0);
        if out.Raised? {
          return;
        }
      }
      EndOk(analyses, lines, symtab, evs);
    }

    /** The state of a load after the events `evs`, `instruction` being the last instruction. */
    ghost predicate Progress(lines: seq<string>, symtab: SymbolTable?, evs: seq<Event>,
                             instruction: Instruction?, e0: seq<Event>, d0: seq<Delivery>)
      reads this
    {
      && lineno == |evs| <= |lines|
      && events == e0 + evs
      && deliveries == d0 + Deliveries(analyses, evs)
      && Follows(evs, lines, symtab)
      && NoneRaise(analyses, evs)
      && instruction == LastInstr(evs)
    }

    /** One iteration of the `load` loop, with the symbol-table queries of every line so far. */
    method LoadStep(lines: seq<string>, symtab: SymbolTable?, instruction: Instruction?,
                    ghost evs: seq<Event>, ghost e0: seq<Event>, ghost d0: seq<Delivery>, ghost before: seq<Logs>,
                    ghost syms0: map<int, string>, ghost lookups0: seq<int>)
      returns (out: Outcome, ghost evs': seq<Event>, next: Instruction?)
      requires Progress(lines, symtab, evs, instruction, e0, d0) && lineno < |lines|
      requires Delivered(analyses, before, Deliveries(analyses, evs))
      requires symtab != null ==> symtab.Valid()
      requires symtab != null ==>
        Consulted(symtab.syms, symtab.lookups, symtab.base, syms0, lookups0, Queries(lines[..lineno]))
      modifies this, ReprOf(analyses), symtab, instruction
      ensures analyses == old(analyses)
      ensures symtab != null ==> symtab.Valid() && old(symtab.syms).Keys <= symtab.syms.Keys
      ensures next == null || next == instruction || fresh(next)
      ensures lineno == old(lineno) + 1
      ensures symtab != null ==>
        Consulted(symtab.syms, symtab.lookups, symtab.base, syms0, lookups0, Queries(lines[..lineno]))
      ensures out.Ok? ==> Progress(lines, symtab, evs', next, e0, d0)
      ensures out.Raised? ==>
        && events == e0 + evs' && deliveries == d0 + Deliveries(analyses, evs')
        && Follows(evs', lines, symtab)
        && Ended(analyses, lines, symtab, evs', lineno, out)
      ensures Delivered(analyses, before, Deliveries(analyses, evs'))
      ensures old(AllValid(analyses)) ==> AllValid(analyses)
    {
      ghost var k := lineno;
      out, evs', next := LoadLine(lines, symtab, instruction, evs, e0, d0, before);
      if symtab != null {
        ConsultedLines(symtab.syms, symtab.lookups, old(symtab.syms), old(symtab.lookups),
                       syms0, lookups0, symtab.base, lines, k);
      }
    }

    /** One line of the `load` loop, with its effect on the logs. */
    method LoadLine(lines: seq<string>, symtab: SymbolTable?, instruction: Instruction?,
                    ghost evs: seq<Event>, ghost e0: seq<Event>, ghost d0: seq<Delivery>, ghost before: seq<Logs>)
      returns (out: Outcome, ghost evs': seq<Event>, next: Instruction?)
      requires Progress(lines, symtab, evs, instruction, e0, d0) && lineno < |lines|
      requires Delivered(analyses, before, Deliveries(analyses, evs))
      requires symtab != null ==> symtab.Valid()
      modifies this, ReprOf(analyses), symtab, instruction
      ensures analyses == old(analyses)
      ensures symtab != null ==> symtab.Valid() && old(symtab.syms).Keys <= symtab.syms.Keys
      ensures symtab != null ==>
        Consulted(symtab.syms, symtab.lookups, symtab.base, old(symtab.syms), old(symtab.lookups),
                  Asked(lines[old(lineno)], old(lineno) + 1))
      ensures next == null || next == instruction || fresh(next)
      ensures lineno == old(lineno) + 1
      ensures out.Ok? ==> Progress(lines, symtab, evs', next, e0, d0)
      ensures out.Raised? ==>
        && events == e0 + evs' && deliveries == d0 + Deliveries(analyses, evs')
        && Follows(evs', lines, symtab)
        && Ended(analyses, lines, symtab, evs', lineno, out)
      ensures Delivered(analyses, before, Deliveries(analyses, evs'))
      ensures old(AllValid(analyses)) ==> AllValid(analyses)
    {
      ghost var ev;
      ghost var d1 := Deliveries(analyses, evs);
      out, ev, next := Step(lines[lineno], symtab, instruction);
      evs' := evs;
      ghost var x: seq<Delivery> := [];
      if DecodeLine(lines[|evs|], |evs| + 1, symtab).Success? {
        AppendEvent(evs, ev, lines, symtab, analyses);
        Assoc(e0, evs, [ev]);
        Assoc(d0, Deliveries(analyses, evs), Fan(Calls(analyses, ev), ev));
        evs' := evs + [ev];
        x := Fan(Calls(analyses, ev), ev);
        if out.Raised? {
          EndRaise(analyses, lines, symtab, evs, ev);
        }
      } else {
        EndDecode(analyses, lines, symtab, evs, out.error);
        AppendNothing(d1);
      }
      assert Deliveries(analyses, evs') == d1 + x;
      Chained(analyses, before, old(Snapshot(analyses)), d1, x);
    }

    /**
     * One iteration of the `load` loop: count the line, decode it, and emit
     * it with the current instruction; `next` is the instruction after it.
     */
    method Step(line: string, symtab: SymbolTable?, instruction: Instruction?)
      returns (out: Outcome, ghost ev: Event, next: Instruction?)
      requires symtab != null ==> symtab.Valid()
      modifies this, ReprOf(analyses), symtab, instruction
      ensures analyses == old(analyses) && lineno == old(lineno) + 1
      ensures symtab != null ==> symtab.Valid() && old(symtab.syms).Keys <= symtab.syms.Keys
      ensures DecodeLine(line, lineno, symtab).Failure? ==>
        && out == Raised(DecodeLine(line, lineno, symtab).error)
        && events == old(events) && deliveries == old(deliveries) && next == instruction
      ensures DecodeLine(line, lineno, symtab).Success? ==>
        && Agrees(ev, DecodeLine(line, lineno, symtab))
        && (ev.MicroEvent? ==> ev.owner == instruction)
        && next == (if ev.InstrEvent? then ev.instr else instruction)
        && (ev.InstrEvent? ==> fresh(ev.instr))
        && events == old(events) + [ev]
        && deliveries == old(deliveries) + Fan(Calls(analyses, ev), ev)
        && out == if EventRaises(analyses, ev) then Raised(AttributeError) else Ok
      ensures Delivered(analyses, old(Snapshot(analyses)),
                        if DecodeLine(line, lineno, symtab).Success? then Fan(Calls(analyses, ev), ev) else [])
      ensures old(AllValid(analyses)) ==> AllValid(analyses)
      ensures symtab != null ==>
        Consulted(symtab.syms, symtab.lookups, symtab.base, old(symtab.syms), old(symtab.lookups), Asked(line, lineno))
    {
      Apart(analyses, this, symtab, instruction);
      next := instruction;
      lineno := lineno + 1;
      var p := ParseLine(line, lineno, symtab);
      KeepsLogs(analyses);
      if p.Failure? {
        DeliveredStart(analyses);
        ev := MicroEvent(null, MicroOp("", "", "", None, None));
        return Raised(p.error), ev, next;
      }
      match p.value {
        case ParsedInstruction(x) =>
          next := x;
          ev := InstrEvent(x);
          EmitInstruction(x);
          out := Ok;
        case ParsedMicroOp(op) =>
          ev := MicroEvent(instruction, op);
          out := EmitMicroop(instruction, op);
      }
    }
  }

  /** No event so far stopped its fan-out. */
  predicate NoneRaise(analyses: seq<Analysis>, evs: seq<Event>) {
    forall i :: 0 <= i < |evs| ==> !EventRaises(analyses, evs[i])
  }

  /**
   * How a load ends, given the events it emitted and the lines it counted:
   * only the last event may have raised; a load that returns has emitted one
   * event per line; a load that raises stopped at a line the decoder
   * rejects, with the decoder's exception and without an event for that
   * line, or at a micro-op that an analysis rejected with AttributeError.
   */
  ghost predicate Ended(analyses: seq<Analysis>, lines: seq<string>, symtab: SymbolTable?,
                        evs: seq<Event>, lineno: nat, out: Outcome) {
    && (forall i :: 0 <= i < |evs| - 1 ==> !EventRaises(analyses, evs[i]))
    && match out
       case Ok => |evs| == |lines| == lineno && NoneRaise(analyses, evs)
       case Raised(e) =>
         || (&& |evs| < |lines| && lineno == |evs| + 1
             && DecodeLine(lines[|evs|], |evs| + 1, symtab) == Failure(e)
             && NoneRaise(analyses, evs))
         || (&& 0 < |evs| == lineno
             && EventRaises(analyses, evs[|evs| - 1]) && e == AttributeError)
  }

  lemma EndOk(analyses: seq<Analysis>, lines: seq<string>, symtab: SymbolTable?, evs: seq<Event>)
    requires NoneRaise(analyses, evs) && |evs| == |lines|
    ensures Ended(analyses, lines, symtab, evs, |lines|, Ok)
  {
  }

  lemma EndDecode(analyses: seq<Analysis>, lines: seq<string>, symtab: SymbolTable?, evs: seq<Event>, e: Error)
    requires NoneRaise(analyses, evs) && |evs| < |lines|
    requires DecodeLine(lines[|evs|], |evs| + 1, symtab) == Failure(e)
    ensures Ended(analyses, lines, symtab, evs, |evs| + 1, Raised(e))
  {
  }

  lemma EndRaise(analyses: seq<Analysis>, lines: seq<string>, symtab: SymbolTable?, evs: seq<Event>, ev: Event)
    requires NoneRaise(analyses, evs) && EventRaises(analyses, ev)
    ensures Ended(analyses, lines, symtab, evs + [ev], |evs| + 1, Raised(AttributeError))
  {
    assert (evs + [ev])[|evs|] == ev;
  }

  lemma Assoc<T>(a: seq<T>, b: seq<T>, c: seq<T>)
    ensures a + b + c == a + (b + c)
  {
  }

  lemma AppendNothing<T>(a: seq<T>)
    ensures a + [] == a
  {
  }

  /** The parser, the symbol table and the instructions are not analyses. */
  lemma Apart(analyses: seq<Analysis>, p: Parser, symtab: SymbolTable?, instr: Instruction?)
    ensures p !in ReprOf(analyses)
    ensures symtab == null || symtab !in ReprOf(analyses)
    ensures instr == null || instr !in ReprOf(analyses)
  {
  }

  /**
   * The analysis at `j` recorded `ev` on top of its logs `mid`, and every
   * other one still has its logs `mid`: the logs now account for `Fan(j + 1, ev)`.
   */
  lemma Advance(analyses: seq<Analysis>, j: nat, ev: Event, before: seq<Logs>, mid: seq<Logs>)
    requires j < |analyses| && |before| == |analyses| && |mid| == |analyses|
    requires forall i :: 0 <= i < |analyses| ==>
      mid[i] == Plus(before[i], Record(analyses[i], Received(analyses, analyses[i], Fan(j, ev))))
    requires forall i :: 0 <= i < |analyses| ==>
      LogsOf(analyses[i]) == if analyses[i] == analyses[j] then Plus(mid[i], Entry(analyses[i], ev)) else mid[i]
    ensures Delivered(analyses, before, Fan(j + 1, ev))
  {
    var a := analyses[j];
    forall i | 0 <= i < |analyses|
      ensures LogsOf(analyses[i]) == Plus(before[i], Record(analyses[i], Received(analyses, analyses[i], Fan(j + 1, ev))))
    {
      var b := analyses[i];
      var r := Received(analyses, b, Fan(j, ev));
      ReceivedSnoc(analyses, b, Fan(j, ev), Delivery(j, ev));
      if b == a {
        RecordSnoc(a, r, ev);
        PlusAssoc(before[i], Record(a, r), Entry(a, ev));
      } else {
        assert r + [] == r;
      }
    }
  }

  /** An analysis whose objects did not change keeps its records and its counters. */
  twostate lemma Kept(b: Analysis)
    requires unchanged(Footprint(b))
    ensures LogsOf(b) == old(LogsOf(b))
    ensures AnalysisValid(b) == old(AnalysisValid(b))
  {
  }

  /** A step that leaves the registered objects alone leaves every log and every counter as it was. */
  twostate lemma KeepsLogs(analyses: seq<Analysis>)
    requires unchanged(ReprOf(analyses))
    ensures Snapshot(analyses) == old(Snapshot(analyses))
    ensures AllValid(analyses) == old(AllValid(analyses))
  {
  }

  /** Logs that were `mid`, itself `before` after `d1`, and then received `x`, are `before` after `d1 + x`. */
  lemma Chained(analyses: seq<Analysis>, before: seq<Logs>, mid: seq<Logs>, d1: seq<Delivery>, x: seq<Delivery>)
    requires |before| == |mid| == |analyses|
    requires forall j :: 0 <= j < |analyses| ==> mid[j] == Plus(before[j], Record(analyses[j], Received(analyses, analyses[j], d1)))
    requires Delivered(analyses, mid, x)
    ensures Delivered(analyses, before, d1 + x)
  {
    forall j | 0 <= j < |analyses|
      ensures LogsOf(analyses[j]) == Plus(before[j], Record(analyses[j], Received(analyses, analyses[j], d1 + x)))
    {
      Compose(analyses, analyses[j], before[j], d1, x);
    }
  }

  /** The object an analysis updates is one of the registered objects. */
  lemma InRepr(analyses: seq<Analysis>, j: nat)
    requires j < |analyses|
    ensures Footprint(analyses[j]) <= ReprOf(analyses)
  {
    forall o | o in Footprint(analyses[j]) ensures o in ReprOf(analyses) {
    }
  }

  /** Two different analyses update different objects, and neither is an instruction. */
  lemma Separate(b: Analysis, a: Analysis, ev: Event)
    requires b != a
    ensures Footprint(b) !! Footprint(a) + Owned(ev)
  {
  }

  /** Nothing has been received yet: every analysis is as it was. */
  lemma DeliveredStart(analyses: seq<Analysis>)
    ensures Delivered(analyses, Snapshot(analyses), [])
  {
    forall j | 0 <= j < |analyses|
      ensures LogsOf(analyses[j]) == Plus(Snapshot(analyses)[j], Record(analyses[j], Received(analyses, analyses[j], [])))
    {
      PlusNothing(LogsOf(analyses[j]));
    }
  }

  lemma PlusNothing(x: Logs)
    ensures Plus(x, NoLogs) == x
  {
    assert x.instrs + [] == x.instrs;
    assert x.lines + [] == x.lines;
    assert x.ips + [] == x.ips;
    assert x.accesses + [] == x.accesses;
  }

  lemma PlusAssoc(x: Logs, y: Logs, z: Logs)
    ensures Plus(Plus(x, y), z) == Plus(x, Plus(y, z))
  {
    Assoc(x.instrs, y.instrs, z.instrs);
    Assoc(x.lines, y.lines, z.lines);
    Assoc(x.ips, y.ips, z.ips);
    Assoc(x.accesses, y.accesses, z.accesses);
  }

  lemma RecordSnoc(a: Analysis, evs: seq<Event>, ev: Event)
    ensures Record(a, evs + [ev]) == Plus(Record(a, evs), Entry(a, ev))
  {
    SnocPrefix(evs, ev);
  }

  /** The records of two runs of events, one after the other. */
  lemma {:induction false} RecordConcat(a: Analysis, r1: seq<Event>, r2: seq<Event>)
    ensures Record(a, r1 + r2) == Plus(Record(a, r1), Record(a, r2))
    decreases |r2|
  {
    if r2 == [] {
      assert r1 + r2 == r1;
      PlusNothing(Record(a, r1));
    } else {
      var init := r2[..|r2| - 1];
      var ev := r2[|r2| - 1];
      assert r2 == init + [ev];
      assert r1 + r2 == (r1 + init) + [ev];
      RecordConcat(a, r1, init);
      RecordSnoc(a, r1 + init, ev);
      RecordSnoc(a, init, ev);
      PlusAssoc(Record(a, r1), Record(a, init), Entry(a, ev));
    }
  }

  lemma ReceivedSnoc(analyses: seq<Analysis>, a: Analysis, ds: seq<Delivery>, d: Delivery)
    ensures Received(analyses, a, ds + [d]) ==
      Received(analyses, a, ds) + (if d.target < |analyses| && analyses[d.target] == a then [d.event] else [])
  {
    SnocPrefix(ds, d);
  }

  /** What an analysis receives from two runs of calls, one after the other. */
  lemma {:induction false} ReceivedConcat(analyses: seq<Analysis>, a: Analysis, d1: seq<Delivery>, d2: seq<Delivery>)
    ensures Received(analyses, a, d1 + d2) == Received(analyses, a, d1) + Received(analyses, a, d2)
    decreases |d2|
  {
    if d2 == [] {
      assert d1 + d2 == d1;
      AppendNothing(Received(analyses, a, d1));
    } else {
      var init := d2[..|d2| - 1];
      var d := d2[|d2| - 1];
      assert d2 == init + [d];
      assert d1 + d2 == (d1 + init) + [d];
      ReceivedConcat(analyses, a, d1, init);
      ReceivedSnoc(analyses, a, d1 + init, d);
      ReceivedSnoc(analyses, a, init, d);
      var e := if d.target < |analyses| && analyses[d.target] == a then [d.event] else [];
      Assoc(Received(analyses, a, d1), Received(analyses, a, init), e);
    }
  }

  /** The records after the calls `d1` and then the calls `d2` are the records after `d1 + d2`. */
  lemma Compose(analyses: seq<Analysis>, a: Analysis, b: Logs, d1: seq<Delivery>, d2: seq<Delivery>)
    ensures Plus(Plus(b, Record(a, Received(analyses, a, d1))), Record(a, Received(analyses, a, d2))) ==
      Plus(b, Record(a, Received(analyses, a, d1 + d2)))
  {
    ReceivedConcat(analyses, a, d1, d2);
    RecordConcat(a, Received(analyses, a, d1), Received(analyses, a, d2));
    PlusAssoc(b, Record(a, Received(analyses, a, d1)), Record(a, Received(analyses, a, d2)));
  }

  /** An analysis that does not raise, before the first one that does, moves the bound on. */
  lemma PassesRaise(analyses: seq<Analysis>, owner: Instruction?, op: MicroOp, j: nat)
    requires j < |analyses| && j <= FirstRaise(analyses, owner, op)
    requires !Raises(analyses[j], owner, op)
    ensures j < FirstRaise(analyses, owner, op)
  {
  }

  /** The analysis at `j` raises and none before it did: the event raises, after `j + 1` calls. */
  lemma StopsAt(analyses: seq<Analysis>, owner: Instruction?, op: MicroOp, j: nat)
    requires j < |analyses| && j <= FirstRaise(analyses, owner, op)
    requires Raises(analyses[j], owner, op)
    ensures EventRaises(analyses, MicroEvent(owner, op))
    ensures Calls(analyses, MicroEvent(owner, op)) == j + 1
  {
  }

  /** No analysis raised: the event reaches all of them. */
  lemma NoneStops(analyses: seq<Analysis>, owner: Instruction?, op: MicroOp)
    requires |analyses| <= FirstRaise(analyses, owner, op)
    ensures !EventRaises(analyses, MicroEvent(owner, op))
    ensures Calls(analyses, MicroEvent(owner, op)) == |analyses|
  {
  }

  /** The fan-out stops exactly at the first analysis that raises. */
  lemma FirstRaiseAt(analyses: seq<Analysis>, owner: Instruction?, op: MicroOp, j: nat)
    requires j <= |analyses|
    requires forall i :: 0 <= i < j ==> !Raises(analyses[i], owner, op)
    requires j < |analyses| ==> Raises(analyses[j], owner, op)
    ensures FirstRaise(analyses, owner, op) == j
  {
  }

  /** The logs after one more event. */
  lemma AppendEvent(evs: seq<Event>, ev: Event, lines: seq<string>, symtab: SymbolTable?, analyses: seq<Analysis>)
    requires Follows(evs, lines, symtab) && |evs| < |lines|
    requires Agrees(ev, DecodeLine(lines[|evs|], |evs| + 1, symtab))
    requires ev.MicroEvent? ==> ev.owner == LastInstr(evs)
    ensures Follows(evs + [ev], lines, symtab)
    ensures Deliveries(analyses, evs + [ev]) == Deliveries(analyses, evs) + Fan(Calls(analyses, ev), ev)
    ensures LastInstr(evs + [ev]) == if ev.InstrEvent? then ev.instr else LastInstr(evs)
  {
    SnocPrefix(evs, ev);
    FollowsSnoc(evs, ev, lines, symtab);
  }

  lemma SnocPrefix<T>(s: seq<T>, x: T)
    ensures (s + [x])[..|s|] == s
    ensures (s + [x])[|s|] == x
  {
  }

  lemma FollowsSnoc(evs: seq<Event>, ev: Event, lines: seq<string>, symtab: SymbolTable?)
    requires Follows(evs, lines, symtab) && |evs| < |lines|
    requires Agrees(ev, DecodeLine(lines[|evs|], |evs| + 1, symtab))
    requires ev.MicroEvent? ==> ev.owner == LastInstr(evs)
    ensures Follows(evs + [ev], lines, symtab)
  {
    MatchesSnoc(evs, ev, Decodes(lines, symtab));
  }

  lemma MatchesSnoc(evs: seq<Event>, ev: Event, ds: seq<Result<Decoded>>)
    requires Matches(evs, ds) && |evs| < |ds|
    requires Agrees(ev, ds[|evs|])
    requires ev.MicroEvent? ==> ev.owner == LastInstr(evs)
    ensures Matches(evs + [ev], ds)
  {
    var e := evs + [ev];
    forall i | 0 <= i < |e|
      ensures Agrees(e[i], ds[i])
      ensures e[i].MicroEvent? ==> e[i].owner == LastInstr(e[..i])
    {
      if i < |evs| {
        assert e[..i] == evs[..i];
        assert e[i] == evs[i];
      } else {
        assert e[..i] == evs;
      }
    }
  }

  // ---------------------------------------------------------------------
  // What `SymbolIps` counts

  /** The analysis at `j` is registered at no other position. */
  predicate Once(analyses: seq<Analysis>, j: nat) {
    j < |analyses| && forall i :: 0 <= i < |analyses| && analyses[i] == analyses[j] ==> i == j
  }

  /** The (symbol, address) of a line that decodes to an instruction; nothing for any other line. */
  function KeyOf(d: Result<Decoded>): seq<(Option<string>, Option<int>)> {
    if d.Success? && d.value.DecodedInstruction? then [(d.value.fields.symbol, d.value.fields.address)] else []
  }

  /** The (symbol, address) of every line that decodes to an instruction, in order. */
  function InstrKeys(ds: seq<Result<Decoded>>): (r: seq<(Option<string>, Option<int>)>)
    ensures |r| <= |ds|
    decreases |ds|
  {
    if ds == [] then [] else InstrKeys(ds[..|ds| - 1]) + KeyOf(ds[|ds| - 1])
  }

  lemma InstrKeysSnoc(ds: seq<Result<Decoded>>, k: nat)
    requires k < |ds|
    ensures InstrKeys(ds[..k + 1]) == InstrKeys(ds[..k]) + KeyOf(ds[k])
  {
    assert ds[..k + 1][..k] == ds[..k];
  }

  /** An analysis registered once receives an event from a fan-out exactly when the fan-out reaches its position. */
  lemma {:induction false} ReceivedFan(analyses: seq<Analysis>, j: nat, n: nat, ev: Event)
    requires Once(analyses, j) && n <= |analyses|
    ensures Received(analyses, analyses[j], Fan(n, ev)) == if j < n then [ev] else []
    decreases n
  {
    if n == 0 {
      assert Fan(n, ev) == [];
    } else {
      var d := Delivery(n - 1, ev);
      var r := Received(analyses, analyses[j], Fan(n - 1, ev));
      assert Received(analyses, analyses[j], Fan(n, ev)) == r + (if n - 1 == j then [ev] else []) by {
        assert Fan(n, ev) == Fan(n - 1, ev) + [d];
        ReceivedSnoc(analyses, analyses[j], Fan(n - 1, ev), d);
        if n - 1 != j {
          assert analyses[n - 1] != analyses[j];
        }
      }
      ReceivedFan(analyses, j, n - 1, ev);
      if n - 1 == j {
        assert r + [ev] == [ev];
      } else {
        assert r + [] == r;
      }
    }
  }

  /**
   * What a `SymbolIps` registered once records for one event: the
   * (symbol, address) of an instruction, which reaches every analysis, and
   * nothing for a micro-op, whether or not the fan-out reaches it.
   */
  lemma IpsOfEvent(analyses: seq<Analysis>, j: nat, ev: Event, d: Result<Decoded>)
    requires Once(analyses, j) && analyses[j].Ips? && Agrees(ev, d)
    ensures Record(analyses[j], Received(analyses, analyses[j], Fan(Calls(analyses, ev), ev))).ips == KeyOf(d)
  {
    var a := analyses[j];
    ReceivedFan(analyses, j, Calls(analyses, ev), ev);
    if j < Calls(analyses, ev) {
      RecordSnoc(a, [], ev);
      assert [] + [ev] == [ev];
    }
  }

  /**
   * Whatever the analyses before it raise, a `SymbolIps` registered once
   * records the (symbol, address) of every instruction line among the
   * lines the events came from, and nothing for a micro-op line.
   */
  lemma {:induction false} IpsReceived(analyses: seq<Analysis>, j: nat, evs: seq<Event>, ds: seq<Result<Decoded>>)
    requires Once(analyses, j) && analyses[j].Ips? && Matches(evs, ds)
    ensures Record(analyses[j], Received(analyses, analyses[j], Deliveries(analyses, evs))).ips == InstrKeys(ds[..|evs|])
    decreases |evs|
  {
    var a := analyses[j];
    if evs == [] {
      assert ds[..0] == [];
    } else {
      var k := |evs| - 1;
      var init := evs[..k];
      var ev := evs[k];
      var f := Fan(Calls(analyses, ev), ev);
      var r1, r2 := Received(analyses, a, Deliveries(analyses, init)), Received(analyses, a, f);
      assert Record(a, r1).ips == InstrKeys(ds[..k]) by {
        MatchesPrefix(evs, ds);
        IpsReceived(analyses, j, init, ds);
      }
      assert Record(a, r2).ips == KeyOf(ds[k]) by {
        assert Agrees(ev, ds[k]);
        IpsOfEvent(analyses, j, ev, ds[k]);
      }
      assert Received(analyses, a, Deliveries(analyses, evs)) == r1 + r2 by {
        assert Deliveries(analyses, evs) == Deliveries(analyses, init) + f;
        ReceivedConcat(analyses, a, Deliveries(analyses, init), f);
      }
      RecordConcat(a, r1, r2);
      InstrKeysSnoc(ds, k);
    }
  }

  /** The events before the last still match the decoded lines. */
  lemma MatchesPrefix(evs: seq<Event>, ds: seq<Result<Decoded>>)
    requires Matches(evs, ds) && evs != []
    ensures Matches(evs[..|evs| - 1], ds)
  {
    var init := evs[..|evs| - 1];
    forall i | 0 <= i < |init|
      ensures Agrees(init[i], ds[i])
      ensures init[i].MicroEvent? ==> init[i].owner == LastInstr(init[..i])
    {
      assert init[i] == evs[i];
      assert init[..i] == evs[..i];
    }
  }

  /**
   * After a load that emitted `evs`, a `SymbolIps` registered once has seen,
   * on top of what it had seen before, the (symbol, address) of every
   * instruction line the load got through, in file order.
   */
  lemma LoadedSymbolIps(analyses: seq<Analysis>, before: seq<Logs>, lines: seq<string>, symtab: SymbolTable?,
                        evs: seq<Event>, j: nat)
    requires Once(analyses, j) && analyses[j].Ips?
    requires Delivered(analyses, before, Deliveries(analyses, evs))
    requires Follows(evs, lines, symtab)
    ensures analyses[j].s.seen == before[j].ips + InstrKeys(Decodes(lines, symtab)[..|evs|])
  {
    assert LogsOf(analyses[j]) == Plus(before[j], Record(analyses[j], Received(analyses, analyses[j], Deliveries(analyses, evs))));
    IpsReceived(analyses, j, evs, Decodes(lines, symtab));
  }

  /**
   * After a load that went through every line, the counts of a valid
   * `SymbolIps` registered once add up to what it counted before plus the
   * number of instruction lines, and each (symbol, address) pair is counted
   * once more for each instruction line that has it.
   */
  lemma SymbolIpsAfterLoad(analyses: seq<Analysis>, before: seq<Logs>, lines: seq<string>, symtab: SymbolTable?,
                           evs: seq<Event>, j: nat)
    requires Once(analyses, j) && analyses[j].Ips? && AnalysisValid(analyses[j])
    requires Delivered(analyses, before, Deliveries(analyses, evs))
    requires Follows(evs, lines, symtab) && |evs| == |lines|
    ensures Sum(Totals(analyses[j].s.syms)) == |before[j].ips| + |InstrKeys(Decodes(lines, symtab))|
    ensures forall sym, addr ::
              Get(Get(analyses[j].s.syms, sym, map[]), addr, 0) ==
              multiset(before[j].ips)[(sym, addr)] + multiset(InstrKeys(Decodes(lines, symtab)))[(sym, addr)]
  {
    var s := analyses[j].s;
    LoadedSymbolIps(analyses, before, lines, symtab, evs, j);
    var ds := Decodes(lines, symtab);
    assert ds[..|evs|] == ds;
    SymbolIpsCounts(s);
    assert multiset(s.seen) == multiset(before[j].ips) + multiset(InstrKeys(ds));
  }

  // ---------------------------------------------------------------------
  // The order of the calls

  lemma {:induction false} MulStep(i: nat, k: nat, n: nat)
    requires i < k
    ensures i * n + n <= k * n
    decreases k
  {
    assert (k - 1) * n + n == k * n;
    if i < k - 1 {
      MulStep(i, k - 1, n);
    }
  }

  /** Without an exception, every event reaches every analysis. */
  lemma {:induction false} DeliveriesLength(analyses: seq<Analysis>, evs: seq<Event>)
    requires NoneRaise(analyses, evs)
    ensures |Deliveries(analyses, evs)| == |evs| * |analyses|
    decreases |evs|
  {
    if evs != [] {
      var init := evs[..|evs| - 1];
      assert NoneRaise(analyses, init) by {
        forall i | 0 <= i < |init| ensures !EventRaises(analyses, init[i]) {
          assert init[i] == evs[i];
        }
      }
      DeliveriesLength(analyses, init);
      assert |evs| * |analyses| == |init| * |analyses| + |analyses|;
    }
  }

  /**
   * Without an exception, the calls go event by event in file order, and
   * for each event to analysis 0, 1, ... in registration order: call number
   * `i * |analyses| + j` is the `i`-th event delivered to the `j`-th analysis.
   */
  lemma {:induction false} DeliveriesInOrder(analyses: seq<Analysis>, evs: seq<Event>, i: nat, j: nat)
    requires NoneRaise(analyses, evs) && i < |evs| && j < |analyses|
    ensures i * |analyses| + j < |Deliveries(analyses, evs)|
    ensures Deliveries(analyses, evs)[i * |analyses| + j] == Delivery(j, evs[i])
    decreases |evs|
  {
    var n := |analyses|;
    var init := evs[..|evs| - 1];
    assert NoneRaise(analyses, init) by {
      forall k | 0 <= k < |init| ensures !EventRaises(analyses, init[k]) {
        assert init[k] == evs[k];
      }
    }
    DeliveriesLength(analyses, init);
    DeliveriesLength(analyses, evs);
    var last := evs[|evs| - 1];
    assert Deliveries(analyses, evs) == Deliveries(analyses, init) + Fan(n, last);
    if i < |init| {
      DeliveriesInOrder(analyses, init, i, j);
      MulStep(i, |init|, n);
      assert init[i] == evs[i];
    } else {
      assert i * n + j == |Deliveries(analyses, init)| + j;
    }
  }

  /**
   * The instruction `load` passes with a micro-op: null exactly when no
   * instruction came before; otherwise the latest instruction event, with
   * only micro-op events after it.
   */
  lemma {:induction false} LastInstrIsLatest(evs: seq<Event>)
    ensures LastInstr(evs) == null <==> forall i :: 0 <= i < |evs| ==> evs[i].MicroEvent?
    ensures LastInstr(evs) != null ==>
      exists i :: 0 <= i < |evs| && evs[i] == InstrEvent(LastInstr(evs)) && (forall k :: i < k < |evs| ==> evs[k].MicroEvent?)
    decreases |evs|
  {
    if evs != [] {
      var init := evs[..|evs| - 1];
      LastInstrIsLatest(init);
      if evs[|evs| - 1].InstrEvent? {
        assert evs[|evs| - 1] == InstrEvent(LastInstr(evs));
      } else {
        assert forall i :: 0 <= i < |init| ==> init[i] == evs[i];
        if LastInstr(evs) != null {
          var i :| 0 <= i < |init| && init[i] == InstrEvent(LastInstr(init)) && forall k :: i < k < |init| ==> init[k].MicroEvent?;
          assert evs[i] == InstrEvent(LastInstr(evs));
        }
      }
    }
  }
}
