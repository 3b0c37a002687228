/**
 * The decoder of one trace line, shared by the streaming parser and the
 * batch trace loader (their `__parse_line` methods are the same code).
 *
 * A line is cut at every `": "`. Field 2 is the symbol expression; when it
 * carries a micro-op index `.N` the line is a micro-op, which must have
 * exactly seven fields and whose last field holds blank-separated
 * `KEY=VALUE` tokens; otherwise it is an instruction.
 */
module LineDecoder {
  import opened Common
  import opened Strings
  import opened SymbolExpressions
  import opened MicroOps
  import opened Instructions
  import opened SymbolTables

  /** The value a line decodes to. */
  datatype Decoded = DecodedInstruction(fields: InstrFields) | DecodedMicroOp(op: MicroOp)

  /** What the decoding method hands back: a new instruction object or a micro-op record. */
  datatype Parsed = ParsedInstruction(instr: Instruction) | ParsedMicroOp(op: MicroOp)

  // ---------------------------------------------------------------------
  // The D= and A= tokens of a micro-op line

  /** The `D` and `A` entries of the `extras` dictionary. */
  datatype Extras = Extras(data: Option<int>, address: Option<int>)

  /** Token `d` has an `=` and the text before the first `=` is `key`. */
  predicate Keyed(d: string, key: string) {
    var i := Find(d, '=');
    i != -1 && d[..i] == key
  }

  /** The tokens the scan records: keys `D` and `A`. */
  predicate IsExtra(d: string) {
    Keyed(d, "D") || Keyed(d, "A")
  }

  /** The text after the first `=`. */
  function ValueText(d: string): string
    requires Find(d, '=') != -1
  {
    d[Find(d, '=') + 1..]
  }

  /** One iteration of the token loop: record a `D`/`A` value as `int(_, 16)`, ignore the rest. */
  function Step(e: Extras, d: string): Result<Extras> {
    if IsExtra(d) then
      match ParseHex(ValueText(d))
      case None => Failure(ValueError)
      case Some(v) => Success(if Keyed(d, "D") then e.(data := Some(v)) else e.(address := Some(v)))
    else Success(e)
  }

  /** The token loop over `tokens`, starting from `{'D': None, 'A': None}`. */
  function Scan(tokens: seq<string>): Result<Extras>
    decreases |tokens|
  {
    if tokens == [] then Success(Extras(None, None))
    else
      match Scan(tokens[..|tokens| - 1])
      case Failure(err) => Failure(err)
      case Success(e) => Step(e, tokens[|tokens| - 1])
  }

  /** Every `D`/`A` token carries a value `int(_, 16)` accepts. */
  predicate ExtrasParse(tokens: seq<string>) {
    forall j :: 0 <= j < |tokens| && IsExtra(tokens[j]) ==> ParseHex(ValueText(tokens[j])).Some?
  }

  /** The position of the last token with the given key. */
  function LastKeyed(tokens: seq<string>, key: string): (j: Option<nat>)
    ensures j.Some? ==> j.value < |tokens| && Keyed(tokens[j.value], key)
    ensures j.Some? ==> forall k :: j.value < k < |tokens| ==> !Keyed(tokens[k], key)
    ensures j.None? ==> forall k :: 0 <= k < |tokens| ==> !Keyed(tokens[k], key)
    decreases |tokens|
  {
    if tokens == [] then None
    else if Keyed(tokens[|tokens| - 1], key) then Some(|tokens| - 1)
    else LastKeyed(tokens[..|tokens| - 1], key)
  }

  /** The value of the last token with the given key, or None when there is none. */
  function LastValue(tokens: seq<string>, key: string): Option<int>
    requires ExtrasParse(tokens)
    requires key == "D" || key == "A"
  {
    match LastKeyed(tokens, key)
    case None => None
    case Some(j) => ParseHex(ValueText(tokens[j]))
  }

  lemma ExtrasParseInit(tokens: seq<string>)
    requires |tokens| > 0
    ensures ExtrasParse(tokens) <==>
      ExtrasParse(tokens[..|tokens| - 1])
      && (IsExtra(tokens[|tokens| - 1]) ==> ParseHex(ValueText(tokens[|tokens| - 1])).Some?)
  {
    var init := tokens[..|tokens| - 1];
    assert forall j :: 0 <= j < |init| ==> init[j] == tokens[j];
  }

  lemma LastValueInit(tokens: seq<string>, key: string)
    requires |tokens| > 0 && ExtrasParse(tokens)
    requires key == "D" || key == "A"
    requires !Keyed(tokens[|tokens| - 1], key)
    ensures ExtrasParse(tokens[..|tokens| - 1])
    ensures LastValue(tokens, key) == LastValue(tokens[..|tokens| - 1], key)
  {
    ExtrasParseInit(tokens);
    var init := tokens[..|tokens| - 1];
    assert LastKeyed(tokens, key) == LastKeyed(init, key);
    if LastKeyed(init, key).Some? {
      var j := LastKeyed(init, key).value;
      assert tokens[j] == init[j];
    }
  }

  /**
   * The token loop records the LAST `D` and the LAST `A` token, leaves a key
   * that never occurs as None, ignores every other token, and fails with
   * ValueError exactly when some `D`/`A` value is not a hexadecimal number.
   */
  lemma {:induction false} ScanLastWins(tokens: seq<string>)
    ensures Scan(tokens).Failure? <==> !ExtrasParse(tokens)
    ensures Scan(tokens).Failure? ==> Scan(tokens).error == ValueError
    ensures Scan(tokens).Success? ==>
      ExtrasParse(tokens) && Scan(tokens).value == Extras(LastValue(tokens, "D"), LastValue(tokens, "A"))
    decreases |tokens|
  {
    if tokens != [] {
      var init := tokens[..|tokens| - 1];
      var d := tokens[|tokens| - 1];
      ScanLastWins(init);
      ExtrasParseInit(tokens);
      if ExtrasParse(tokens) {
        if !Keyed(d, "D") { LastValueInit(tokens, "D"); }
        if !Keyed(d, "A") { LastValueInit(tokens, "A"); }
      }
    }
  }

  // ---------------------------------------------------------------------
  // Decoding a line

  /** Fields 0 to 2 and the symbol expression, or the error that stops decoding there. */
  function Expression(line: string, lineno: nat): (r: Result<SymbolFields>)
    ensures r.Success? ==> ValidFields(r.value)
  {
    var fields := Split(line, ": ");
    if |fields| < 3 then Failure(IndexError)
    else
      var m := Match(fields[2]);
      if m.None? then Failure(UnknownSymbolFormat(lineno, fields[2]))
      else
        MatchSound(fields[2]);
        MatchValidFields(m.value);
        Success(Fields(m.value))
  }

  lemma MatchValidFields(m: SymbolMatch)
    requires WellFormed(m)
    ensures ValidFields(Fields(m))
  {
  }

  /** The address `getsym` is asked about, if the line gets that far: a non-zero `0x` address. */
  function Queried(line: string, lineno: nat): Option<nat> {
    var e := Expression(line, lineno);
    if e.Success? && TruthyInt(e.value.address) then e.value.address else None
  }

  /** The addresses `getsym` is asked about while decoding one line: the queried address, if any. */
  function Asked(line: string, lineno: nat): (qs: seq<int>)
    ensures |qs| <= 1
    ensures forall i :: 0 <= i < |qs| ==> qs[i] != 0
  {
    match Queried(line, lineno)
    case Some(a) => [a]
    case None => []
  }

  /** The addresses `getsym` is asked about while decoding `lines`, numbered from 1, in order. */
  function Queries(lines: seq<string>): seq<int>
    decreases |lines|
  {
    if lines == [] then []
    else Queries(lines[..|lines| - 1]) + Asked(lines[|lines| - 1], |lines|)
  }

  /** One more line asks about what it asks about, after the lines before it. */
  lemma QueriesStep(lines: seq<string>, k: nat)
    requires k < |lines|
    ensures Queries(lines[..k + 1]) == Queries(lines[..k]) + Asked(lines[k], k + 1)
  {
    assert lines[..k + 1][..k] == lines[..k];
  }

  /** The table after the lines before `k` and after line `k` is the table after the lines up to `k`. */
  lemma ConsultedLines(syms: map<int, string>, lookups: seq<int>, syms1: map<int, string>, lookups1: seq<int>,
                       syms0: map<int, string>, lookups0: seq<int>, base: int, lines: seq<string>, k: nat)
    requires k < |lines|
    requires Consulted(syms1, lookups1, base, syms0, lookups0, Queries(lines[..k]))
    requires Consulted(syms, lookups, base, syms1, lookups1, Asked(lines[k], k + 1))
    ensures Consulted(syms, lookups, base, syms0, lookups0, Queries(lines[..k + 1]))
  {
    QueriesStep(lines, k);
    ConsultedTrans(syms, lookups, syms1, lookups1, syms0, lookups0, base, Queries(lines[..k]), Asked(lines[k], k + 1));
  }

  /** `sym`: the table's name for a non-zero address when there is a table, else the `@name` group. */
  function Symbol(f: SymbolFields, symtab: SymbolTable?): Option<string> {
    if TruthyInt(f.address) && symtab != null then Some(symtab.Resolve(f.address.value)) else f.name
  }

  /** An instruction line: tick from field 0, cpu from field 1, asm from field 3. */
  function DecodeInstruction(fields: seq<string>, f: SymbolFields, sym: Option<string>): Result<Decoded>
    requires |fields| >= 3
  {
    var cpu := DropLast(fields[1]);
    var tick := ParseInt(fields[0]);
    if tick.None? then Failure(ValueError)
    else if |fields| < 4 then Failure(IndexError)
    else Success(DecodedInstruction(InstrFields(tick.value, cpu, sym, None, f.offset, f.address, Strip(fields[3]))))
  }

  /** A micro-op line: seven fields, the mnemonic, asm and kind from fields 3 to 5, extras from 6. */
  function DecodeMicroOp(line: string, lineno: nat, fields: seq<string>): Result<Decoded> {
    if |fields| != 7 then Failure(UnknownMicroOpFormat(lineno, line))
    else
      match Scan(Split(fields[6], " "))
      case Failure(err) => Failure(err)
      case Success(x) =>
        Success(DecodedMicroOp(MicroOp(Strip(fields[3]), DropLast(fields[4]), DropLast(fields[5]), x.data, x.address)))
  }

  /** `__parse_line(line)` as a value: the decoded record or the exception it raises. */
  function DecodeLine(line: string, lineno: nat, symtab: SymbolTable?): Result<Decoded> {
    match Expression(line, lineno)
    case Failure(err) => Failure(err)
    case Success(f) =>
      var fields := Split(line, ": ");
      if f.index.None? then DecodeInstruction(fields, f, Symbol(f, symtab))
      else DecodeMicroOp(line, lineno, fields)
  }

  /** Field 2 decides the kind: the line is an instruction exactly when there is no `.N` index. */
  lemma DecodeKind(line: string, lineno: nat, symtab: SymbolTable?)
    requires DecodeLine(line, lineno, symtab).Success?
    ensures Expression(line, lineno).Success?
    ensures DecodeLine(line, lineno, symtab).value.DecodedInstruction? <==> Expression(line, lineno).value.index.None?
  {
  }

  /** The two IOError conditions, each in both directions, with the line number they carry. */
  lemma DecodeFormatErrors(line: string, lineno: nat, symtab: SymbolTable?)
    ensures var r := DecodeLine(line, lineno, symtab); var fields := Split(line, ": ");
      (r.Failure? && r.error.UnknownSymbolFormat?) <==> (|fields| >= 3 && Match(fields[2]).None?)
    ensures var r := DecodeLine(line, lineno, symtab); var fields := Split(line, ": ");
      r.Failure? && r.error.UnknownSymbolFormat? ==> r.error == UnknownSymbolFormat(lineno, fields[2])
    ensures var r := DecodeLine(line, lineno, symtab); var e := Expression(line, lineno);
      (r.Failure? && r.error.UnknownMicroOpFormat?) <==>
      (e.Success? && e.value.index.Some? && |Split(line, ": ")| != 7)
    ensures var r := DecodeLine(line, lineno, symtab);
      r.Failure? && r.error.UnknownMicroOpFormat? ==> r.error == UnknownMicroOpFormat(lineno, line)
  {
    var fields := Split(line, ": ");
    var e := Expression(line, lineno);
    if e.Success? && e.value.index.Some? && |fields| == 7 {
      ScanLastWins(Split(fields[6], " "));
    }
  }

  /** The symbol of a decoded instruction: looked up for a non-zero address when there is a table. */
  lemma DecodeSymbol(line: string, lineno: nat, symtab: SymbolTable?)
    requires DecodeLine(line, lineno, symtab).Success?
    requires DecodeLine(line, lineno, symtab).value.DecodedInstruction?
    ensures var i := DecodeLine(line, lineno, symtab).value.fields; var f := Expression(line, lineno).value;
      && i.offset == f.offset && i.address == f.address && i.sourceLine.None?
      && (TruthyInt(i.address) && symtab != null ==> i.symbol == Some(symtab.Resolve(i.address.value)))
      && (!TruthyInt(i.address) || symtab == null ==> i.symbol == f.name)
  {
  }

  // ---------------------------------------------------------------------
  // Decoding what a simulator writes

  /** `s` holds no `": "`. */
  predicate NoSeparator(s: string) {
    NoneBefore(s, ": ", |s|)
  }

  /** A field without `": "` is cut off cleanly, even when it ends in a colon. */
  lemma SplitField(p: string, rest: string)
    requires NoSeparator(p)
    ensures Split(p + ": " + rest, ": ") == [p] + Split(rest, ": ")
  {
    var s := p + ": " + rest;
    assert s[|p|..|p| + 2] == ": ";
    forall i | 0 <= i < |p|
      ensures !OccursAt(s, ": ", i)
    {
      if i + 2 <= |p| {
        assert !OccursAt(p, ": ", i);
        assert s[i..i + 2] == p[i..i + 2];
      } else {
        assert s[i..i + 2][1] == s[i + 1] == ':';
      }
    }
    SplitAt(s, ": ", |p|);
    assert s[..|p|] == p;
    assert s[|p| + 2..] == rest;
  }

  /** Fields free of the separator come back out of `split(": ")` unchanged. */
  lemma {:induction false} SplitJoin(pieces: seq<string>)
    requires |pieces| >= 1
    requires forall k :: 0 <= k < |pieces| ==> NoSeparator(pieces[k])
    ensures Split(Join(pieces, ": "), ": ") == pieces
    decreases |pieces|
  {
    if |pieces| == 1 {
      SplitNone(pieces[0], ": ");
    } else {
      SplitJoin(pieces[1..]);
      SplitField(pieces[0], Join(pieces[1..], ": "));
    }
  }

  /** A string without a colon holds no `": "`. */
  lemma NoColon(s: string)
    requires ':' !in s
    ensures NoSeparator(s)
  {
    forall i | 0 <= i < |s|
      ensures !OccursAt(s, ": ", i)
    {
      if i + 2 <= |s| {
        assert s[i..i + 2][0] == s[i];
        assert s[i] in s;
      }
    }
  }

  lemma IntNoColon(n: int)
    ensures ':' !in IntToString(n)
  {
  }

  lemma StripNewline(asm: string)
    requires asm != [] ==> !IsSpace(asm[0]) && !IsSpace(asm[|asm| - 1])
    ensures Strip(asm + "\n") == asm
  {
    var t := asm + "\n";
    assert t[..|t| - 1] == asm;
    if asm != [] {
      assert LeadingSpaces(t) == 0;
      assert TrailingSpaces(asm) == 0;
    }
  }

  /** The instruction line a simulator writes: tick, cpu, symbol expression and padding, asm. */
  function InstructionLine(tick: int, cpu: string, f: SymbolFields, pad: string, asm: string): string
    requires ValidFields(f)
  {
    Join([IntToString(tick), cpu + " ", Serialize(f) + pad, asm + "\n"], ": ")
  }

  /**
   * Decoding an instruction line gives back the tick, the cpu, the offset and
   * the address it was written from, the asm text, the `@name` (or the table's
   * name for a non-zero address), and no source line.
   */
  lemma DecodeInstructionLine(tick: int, cpu: string, f: SymbolFields, pad: string, asm: string,
                              lineno: nat, symtab: SymbolTable?)
    requires ValidFields(f) && f.index.None? && Delimits(pad)
    requires NoSeparator(cpu + " ") && NoSeparator(Serialize(f) + pad) && NoSeparator(asm + "\n")
    requires asm != [] ==> !IsSpace(asm[0]) && !IsSpace(asm[|asm| - 1])
    ensures DecodeLine(InstructionLine(tick, cpu, f, pad, asm), lineno, symtab) ==
      Success(DecodedInstruction(InstrFields(tick, cpu, Symbol(f, symtab), None, f.offset, f.address, asm)))
  {
    var pieces := [IntToString(tick), cpu + " ", Serialize(f) + pad, asm + "\n"];
    IntNoColon(tick);
    NoColon(IntToString(tick));
    SplitJoin(pieces);
    DecodeSerialize(f, pad);
    ParseIntRoundTrip(tick);
    StripNewline(asm);
    assert DropLast(cpu + " ") == cpu;
  }

  /** The micro-op line a simulator writes: seven fields. */
  function MicroOpLine(tick: string, cpu: string, f: SymbolFields, pad: string,
                       op: string, asm: string, kind: string, details: string): string
    requires ValidFields(f)
  {
    Join([tick, cpu, Serialize(f) + pad, op, asm, kind, details], ": ")
  }

  /**
   * Decoding a micro-op line gives back its mnemonic (stripped), asm and kind
   * (each without its last character) and the last `D=`/`A=` values of its
   * details, when every such value is hexadecimal; fields 0 and 1 are not read.
   */
  lemma DecodeMicroOpLine(tick: string, cpu: string, f: SymbolFields, pad: string,
                          op: string, asm: string, kind: string, details: string,
                          lineno: nat, symtab: SymbolTable?)
    requires ValidFields(f) && f.index.Some? && Delimits(pad)
    requires NoSeparator(tick) && NoSeparator(cpu) && NoSeparator(Serialize(f) + pad)
    requires NoSeparator(op) && NoSeparator(asm) && NoSeparator(kind) && NoSeparator(details)
    requires ExtrasParse(Split(details, " "))
    ensures DecodeLine(MicroOpLine(tick, cpu, f, pad, op, asm, kind, details), lineno, symtab) ==
      Success(DecodedMicroOp(MicroOp(Strip(op), DropLast(asm), DropLast(kind),
        LastValue(Split(details, " "), "D"), LastValue(Split(details, " "), "A"))))
  {
    var line := MicroOpLine(tick, cpu, f, pad, op, asm, kind, details);
    MicroOpLineFields(tick, cpu, f, pad, op, asm, kind, details, lineno);
    ScanLastWins(Split(details, " "));
    assert DecodeLine(line, lineno, symtab) == DecodeMicroOp(line, lineno, [tick, cpu, Serialize(f) + pad, op, asm, kind, details]);
  }

  /** A micro-op line splits back into its seven fields, and field 2 into its symbol expression. */
  lemma MicroOpLineFields(tick: string, cpu: string, f: SymbolFields, pad: string,
                          op: string, asm: string, kind: string, details: string, lineno: nat)
    requires ValidFields(f) && Delimits(pad)
    requires NoSeparator(tick) && NoSeparator(cpu) && NoSeparator(Serialize(f) + pad)
    requires NoSeparator(op) && NoSeparator(asm) && NoSeparator(kind) && NoSeparator(details)
    ensures Split(MicroOpLine(tick, cpu, f, pad, op, asm, kind, details), ": ") ==
      [tick, cpu, Serialize(f) + pad, op, asm, kind, details]
    ensures Expression(MicroOpLine(tick, cpu, f, pad, op, asm, kind, details), lineno) == Success(f)
  {
    SplitJoin([tick, cpu, Serialize(f) + pad, op, asm, kind, details]);
    DecodeSerialize(f, pad);
  }

  /**
   * `__parse_line` as written: it calls `Instruction(tick, cpu, sym,
   * offset, address, asm)` with one argument fewer than the constructor
   * takes, so once the arguments have been evaluated the call raises
   * TypeError. Micro-op lines and the errors before the call are unchanged.
   */
  function DecodeLineAsWritten(line: string, lineno: nat, symtab: SymbolTable?): (r: Result<Decoded>)
    ensures r.Success? ==> r.value.DecodedMicroOp? && r == DecodeLine(line, lineno, symtab)
    ensures r.Failure? ==> DecodeLine(line, lineno, symtab).Failure? || r.error == TypeError
  {
    match DecodeLine(line, lineno, symtab)
    case Success(DecodedInstruction(_)) => Failure(TypeError)
    case d => d
  }

  /**
   * Every instruction line a simulator writes makes the decoder as written
   * raise TypeError, where the intended decoder returns its values with no
   * source line.
   */
  lemma DecodeLineAsWrittenRaises(tick: int, cpu: string, f: SymbolFields, pad: string, asm: string,
                                  lineno: nat, symtab: SymbolTable?)
    requires ValidFields(f) && f.index.None? && Delimits(pad)
    requires NoSeparator(cpu + " ") && NoSeparator(Serialize(f) + pad) && NoSeparator(asm + "\n")
    requires asm != [] ==> !IsSpace(asm[0]) && !IsSpace(asm[|asm| - 1])
    ensures DecodeLineAsWritten(InstructionLine(tick, cpu, f, pad, asm), lineno, symtab) == Failure(TypeError)
    ensures DecodeLine(InstructionLine(tick, cpu, f, pad, asm), lineno, symtab).Success?
  {
    DecodeInstructionLine(tick, cpu, f, pad, asm, lineno, symtab);
  }

  // ---------------------------------------------------------------------
  // The decoding method

  /** Once the loop has raised, the whole loop raises ValueError. */
  lemma ScanFailureSticks(tokens: seq<string>, k: nat)
    requires k <= |tokens| && Scan(tokens[..k]).Failure?
    ensures Scan(tokens) == Failure(ValueError)
  {
    ScanLastWins(tokens[..k]);
    ScanLastWins(tokens);
    var j :| 0 <= j < k && IsExtra(tokens[..k][j]) && ParseHex(ValueText(tokens[..k][j])).None?;
    assert tokens[..k][j] == tokens[j];
  }

  /** The token loop: fill `extras` from the `KEY=VALUE` tokens of field 6. */
  method ScanDetails(details: seq<string>) returns (r: Result<Extras>)
    ensures r == Scan(details)
  {
    var extras := Extras(None, None);
    var k := 0;
    while k < |details|
      invariant 0 <= k <= |details|
      invariant Scan(details[..k]) == Success(extras)
    {
      var d := details[k];
      assert details[..k + 1][..k] == details[..k];
      assert Scan(details[..k + 1]) == Step(extras, d);
      var eq := Find(d, '=');
      if eq != -1 {
        var key := d[..eq];
        if key == "D" || key == "A" {
          var v := ParseHex(d[eq + 1..]);
          if v.None? {
            assert Scan(details[..k + 1]).Failure?;
            ScanFailureSticks(details, k + 1);
            return Failure(ValueError);
          }
          if key == "D" {
            extras := extras.(data := v);
          } else {
            extras := extras.(address := v);
          }
        }
      }
      k := k + 1;
    }
    assert details[..k] == details;
    r := Success(extras);
  }

  /**
   * `__parse_line(line, symtab)`: decode one line. A non-zero address is
   * looked up in the table (when there is one) before the kind of the line
   * is known, so the cache grows even for micro-op lines and for lines that
   * fail further on; the instruction it returns is a new object without
   * micro-ops.
   */
  method ParseLine(line: string, lineno: nat, symtab: SymbolTable?) returns (r: Result<Parsed>)
    requires symtab != null ==> symtab.Valid()
    modifies symtab
    ensures symtab != null ==> symtab.Valid()
    ensures symtab != null && Queried(line, lineno).Some? ==>
      var a := Queried(line, lineno).value; symtab.syms == old(symtab.syms)[a := symtab.Resolve(a)]
    ensures symtab != null && Queried(line, lineno).None? ==> symtab.syms == old(symtab.syms)
    ensures symtab != null ==>
      Consulted(symtab.syms, symtab.lookups, symtab.base, old(symtab.syms), old(symtab.lookups), Asked(line, lineno))
    ensures r.Failure? <==> DecodeLine(line, lineno, symtab).Failure?
    ensures r.Failure? ==> r.error == DecodeLine(line, lineno, symtab).error
    ensures r.Success? ==> (r.value.ParsedInstruction? <==> DecodeLine(line, lineno, symtab).value.DecodedInstruction?)
    ensures r.Success? && r.value.ParsedInstruction? ==>
      && fresh(r.value.instr)
      && r.value.instr.Fields() == DecodeLine(line, lineno, symtab).value.fields
      && r.value.instr.microOps == []
    ensures r.Success? && r.value.ParsedMicroOp? ==> r.value.op == DecodeLine(line, lineno, symtab).value.op
  {
    var fields := Split(line, ": ");
    if |fields| < 3 {
      return Failure(IndexError);
    }
    var m := Match(fields[2]);
    if m.None? {
      return Failure(UnknownSymbolFormat(lineno, fields[2]));
    }
    MatchSound(fields[2]);
    var f := Fields(m.value);
    var sym := f.name;
    if TruthyInt(f.address) && symtab != null {
      var s := symtab.GetSym(f.address.value);
      sym := Some(s);
    }
    assert sym == Symbol(f, symtab);
    if f.index.None? {
      var cpu := DropLast(fields[1]);
      var tick := ParseInt(fields[0]);
      if tick.None? {
        return Failure(ValueError);
      }
      if |fields| < 4 {
        return Failure(IndexError);
      }
      var instr := new Instruction(tick.value, cpu, sym, None, f.offset, f.address, Strip(fields[3]));
      r := Success(ParsedInstruction(instr));
    } else {
      if |fields| != 7 {
        return Failure(UnknownMicroOpFormat(lineno, line));
      }
      var extras := ScanDetails(Split(fields[6], " "));
      if extras.Failure? {
        return Failure(extras.error);
      }
      var kind := DropLast(fields[5]);
      var op := Strip(fields[3]);
      r := Success(ParsedMicroOp(MicroOp(op, DropLast(fields[4]), kind, extras.value.data, extras.value.address)));
    }
  }
}
