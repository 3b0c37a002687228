# exectrace, modelled in Dafny

This project models gem5's `util/exectrace` in Dafny. That toolkit reads the
execution traces gem5's CPU models write, one line per instruction and one per
micro-op, and turns them into statistics. The model covers:

- **Line decoder** (`linedecoder.dfy`, with `symbolexpr.dfy` and
  `strings.dfy`). A line is cut at every `": "`. Field 2 must match the
  anchored symbol expression `(@name(+digits)?|0xHEX)(.digits)?`. A line with
  a `.N` index is a micro-op, which needs exactly seven fields and takes its
  `D=`/`A=` values from the `KEY=VALUE` tokens of field 6. Any other line is
  an instruction. `Parser.__parse_line` and `ExecTrace.__parse_line` are the
  same code, so both loaders use this one decoder.
- **Streaming parser** (`parser.dfy`). `load` hands each decoded line to every
  registered analysis, in registration order. A micro-op goes together with
  the most recent instruction, or with `None` before the first one. Ghost
  logs record every event and every call of an analysis.
- **Analyses** (`analysis.dfy`). `TraceBuilder`, `SourceLines`, `SymbolIps`
  and `AccessedAddresses` are classes whose nested counters are updated in
  place. Each keeps a ghost log of what it counted, and its counters are
  proved to be the multiset of that log.
- **Summary** (`summary.dfy`): the totals and the per-symbol instruction,
  memory and address tables, computed from two analyses.
- **Aggregate** (`aggregate.dfy`): the quartiles of every figure over several
  summaries.
- **Symbol table** (`symboltable.dfy`): a memoising cache in front of the
  external `addr2line` lookup.
- **Instruction** (`instruction.dfy`) and **micro-op** (`microop.dfy`)
  records.
- **Batch trace** (`exectrace.dfy`): `ExecTrace.load` and the statistics it
  computes with loops over the instruction list.

Shared pieces:

- `common.dfy` holds Python's `None` as `Option`, and the exceptions as
  `Result` and `Outcome`.
- `counters.dfy` holds the counting dictionaries (`d[k] = d.get(k, 0) + 1`
  and its nested forms) and the sums over them.

How the model states things:

- Floating-point shares and medians are exact `real`s.
- Python integers are unbounded, as Dafny's `int` is.
- The trace file is a sequence of lines.
- The `addr2line` call is a function value held by the symbol table.

## Model

| member | source | states |
|---|---|---|
| Strings.Split | util/exectrace/parser.py:54 | `str.split(sep)` always gives at least one piece |
| Strings.JoinSplit | util/exectrace/parser.py:54 | joining the pieces of a split with the separator gives back the original line |
| Strings.SplitPiecesFree | util/exectrace/parser.py:54 | no piece of a split contains the separator |
| Strings.SplitAt | util/exectrace/parser.py:54 | a split cuts at the leftmost occurrence of the separator and continues after it |
| Strings.SplitNone | util/exectrace/parser.py:54 | a string without the separator splits into itself alone |
| Strings.SplitFirstPrefix | util/exectrace/symboltable.py:11 | the first piece of a split is a prefix of the split string |
| Strings.Strip | util/exectrace/parser.py:77 | `strip()` returns the middle of the string, with no whitespace at either end, after removing only whitespace at both ends |
| Strings.StripNoSpace | util/exectrace/parser.py:95 | a string with no whitespace at its ends is its own strip |
| Strings.Find | util/exectrace/parser.py:88 | `find('=')` is -1 exactly when there is no `=`, and is otherwise the index of the first `=` |
| Strings.DropLast | util/exectrace/parser.py:70 | `s[:-1]` plus the last character is `s`; the empty string stays empty |
| Strings.DecimalRoundTrip | util/exectrace/parser.py:72 | reading back the decimal digits written for `n` gives `n` |
| Strings.HexRoundTrip | util/exectrace/parser.py:62 | reading back the hex digits written for `n` gives `n` |
| Strings.ParseIntRoundTrip | util/exectrace/parser.py:72 | `int(str(n)) == n` for every integer, negative ones included |
| Strings.ParseDigits | util/exectrace/parser.py:61 | `int()` of a non-empty digit run is its decimal value |
| Strings.ParseNegative | util/exectrace/parser.py:72 | `int()` of a minus sign and digits is the negated value |
| Strings.ParseSpacedSign | util/exectrace/parser.py:72 | as Python 2's `int()` does, whitespace between the sign and the digits is skipped: `int('- 5') == -5` and `int('+\t5') == 5` |
| Strings.ParseHexSpacedSign | util/exectrace/parser.py:92 | whitespace between the sign and a `0x` literal is skipped too: `int('-\t0x10', 16) == -16` |
| SymbolExpressions.Span | util/exectrace/parser.py:22-23 | the longest run of one character class is never longer than the string |
| SymbolExpressions.SpanMaximal | util/exectrace/parser.py:22-23 | every character of the run is in the class and the next one is not, so the greedy repetition stops there |
| SymbolExpressions.DigitGroupSound | util/exectrace/parser.py:22-23 | an optional `+digits`/`.digits` group is absent or non-empty digits, and with its mark it is exactly the text at that position |
| SymbolExpressions.NameGroupSound | util/exectrace/parser.py:22-23 | the `@name` group is a non-empty run of `[^\+\.\s]`, and with its `@` it is the start of the field |
| SymbolExpressions.AddressGroupSound | util/exectrace/parser.py:22-23 | the address group is `0x` followed by at least one hex digit |
| SymbolExpressions.MatchNameSound | util/exectrace/parser.py:56-60 | a match of the first alternative has a name and no address, and consumes a prefix of the field |
| SymbolExpressions.MatchAddressSound | util/exectrace/parser.py:56-60 | a match of the second alternative has an address and no name, and consumes a prefix of the field |
| SymbolExpressions.MatchSound | util/exectrace/parser.py:56-60 | every match has exactly one of name and address, non-empty groups, and groups that spell a prefix of the field (the pattern is anchored at the start only) |
| SymbolExpressions.DigitGroupRender | util/exectrace/parser.py:22-23 | a digit group followed by neither a digit nor its mark is read back whole |
| SymbolExpressions.NameGroupRender | util/exectrace/parser.py:22-23 | a name followed by a character outside the name class ends the name group there |
| SymbolExpressions.MatchRenderName | util/exectrace/parser.py:56-60 | the text of a name match, followed by a blank or nothing, matches back to the same groups |
| SymbolExpressions.MatchRenderAddress | util/exectrace/parser.py:56-60 | the text of an address match, followed by a blank or nothing, matches back to the same groups |
| SymbolExpressions.MatchRender | util/exectrace/parser.py:56-60 | round trip: the text of any well-formed match, followed by a blank or nothing, matches back to exactly those groups |
| SymbolExpressions.GroupConversions | util/exectrace/parser.py:61-63 | `int(offset)`, `int(index)` and `int(addr, 16)` of matched groups never fail and give the digit values |
| SymbolExpressions.DecodeSerialize | util/exectrace/parser.py:56-63 | round trip: the expression written for (name, offset, address, index) decodes back to the same values |
| LineDecoder.LastKeyed | util/exectrace/parser.py:87-92 | gives the position of the last token with the key, with no later token carrying it, or none when no token has it |
| LineDecoder.ScanLastWins | util/exectrace/parser.py:82-92 | the token loop raises ValueError exactly when some `D=`/`A=` value is not hex; otherwise it records the last `D` and the last `A` value, ignores other keys and `=`-less tokens, and leaves missing keys None |
| LineDecoder.ScanFailureSticks | util/exectrace/parser.py:87-92 | once a token raises, the whole loop raises ValueError |
| LineDecoder.ScanDetails | util/exectrace/parser.py:82-92 | the token loop, with its `extras` dictionary, computes the scan specification |
| LineDecoder.Expression | util/exectrace/parser.py:54-63 | a decoded symbol expression always has valid fields (one of name or address) |
| LineDecoder.DecodeKind | util/exectrace/parser.py:69-78 | a decoded line is an instruction exactly when the `.N` index group is absent |
| LineDecoder.DecodeFormatErrors | util/exectrace/parser.py:57-81 | IOError "unknown symbol format" is raised exactly when field 2 does not match, and carries the line number and field; "unknown micro op format" is raised exactly when an indexed line does not have 7 fields, and carries the line number and line |
| LineDecoder.DecodeSymbol | util/exectrace/parser.py:61-76 | an instruction's offset and address are the decoded groups, and its source line is absent; its symbol is the table's name when the address is non-zero and a table is given, else the `@name` group |
| LineDecoder.SplitJoin | util/exectrace/parser.py:54 | fields without `": "` join and split back to themselves |
| LineDecoder.DecodeInstructionLine | util/exectrace/parser.py:69-77 | an instruction line built from tick, cpu, expression and asm decodes to tick, cpu without its last character, the symbol, the offset, the address and the stripped asm |
| LineDecoder.DecodeMicroOpLine | util/exectrace/parser.py:79-102 | a seven-field micro-op line decodes to the stripped op from field 3, asm and kind from fields 4 and 5 each without their last character, and the last `D` and `A` values |
| LineDecoder.MicroOpLineFields | util/exectrace/parser.py:54-60 | a micro-op line splits back into its seven fields, and field 2 decodes to its expression |
| LineDecoder.DecodeLineAsWritten | util/exectrace/parser.py:71-77 | as written, decoding succeeds only for micro-op lines; it otherwise fails where the intended decoder fails, or with TypeError |
| LineDecoder.DecodeLineAsWrittenRaises | util/exectrace/parser.py:71-77 | on every well-formed instruction line, the code as written raises TypeError where the intended decoder succeeds |
| LineDecoder.ParseLine | util/exectrace/parser.py:53-102 | `__parse_line` raises exactly when the decoder specification fails, with the same error; it returns a fresh instruction with the decoded values and no micro-ops, or the decoded micro-op; it asks the symbol table about the line's non-zero address only, adds only that entry, and runs the external tool once exactly when that address was not cached |
| SymbolTables.FirstLine | util/exectrace/symboltable.py:11 | `output.split('\n')[0]` holds no newline and is a prefix of the output |
| SymbolTables.SymbolTable.constructor | util/exectrace/symboltable.py:2-5 | a new table has the given path and base and an empty cache |
| SymbolTables.MissesOnce | util/exectrace/symboltable.py:7-12 | the cache's promise over any sequence of questions: the tool never runs twice for one address, runs at `addr - base` exactly for the addresses asked about that were not cached, and runs at most once per question |
| SymbolTables.ConsultedTrans | util/exectrace/symboltable.py:7-12 | asking about one list of addresses and then another consults the table as asking about both lists in turn does |
| LineDecoder.ConsultedLines | util/exectrace/parser.py:36-38 | after the lines before line `k` and then line `k`, the table has been asked about the non-zero addresses of all those lines, in order |
| SymbolTables.SymbolTable.GetSym | util/exectrace/symboltable.py:7-12 | the answer is the first line of the tool's output at `addr - base`, with no check that `addr >= base`; a hit returns the cached name and makes no lookup; a miss makes exactly one lookup and stores its result under `addr`; existing entries never change and only `addr` can be added |
| Instructions.Instruction.constructor | util/exectrace/instruction.py:2-10 | the scalar values are the constructor arguments, and there are no micro-ops and length 0 |
| Instructions.Instruction.AddMicroOp | util/exectrace/instruction.py:12-16 | appends the micro-op at the end, adds exactly 1 to the length, and leaves the scalar values as they were |
| Instructions.Instruction.Iter | util/exectrace/instruction.py:18-19 | iteration yields the micro-ops in insertion order |
| Analyses.TraceBuilder.constructor | util/exectrace/analysis.py:11-12 | a new builder holds no instructions |
| Analyses.TraceBuilder.OnInstruction | util/exectrace/analysis.py:14-15 | appends the instruction object itself |
| Analyses.TraceBuilder.OnMicroOp | util/exectrace/analysis.py:17-18 | appends the micro-op to the given instruction; raises AttributeError exactly when there is none |
| Analyses.TraceBuilder.Results | util/exectrace/analysis.py:20-21 | returns the instructions in call order |
| Analyses.SourceLines.constructor | util/exectrace/analysis.py:25-27 | a new analysis keeps its filter and has no counts |
| Analyses.SourceLines.OnInstruction | util/exectrace/analysis.py:29-34 | with a non-empty filter, an instruction of another symbol changes nothing; otherwise `lines[source_line][address]` goes up by 1 and the log grows by that pair |
| Analyses.SourceLines.Results | util/exectrace/analysis.py:36-37 | returns the counters |
| Analyses.SourceLinesCounts | util/exectrace/analysis.py:29-34 | each counter is the number of counted instructions with that line and address; the counters add up to the number counted, and none is zero |
| Analyses.SymbolIps.constructor | util/exectrace/analysis.py:41-42 | a new analysis has no counts |
| Analyses.SymbolIps.OnInstruction | util/exectrace/analysis.py:44-47 | increments exactly `syms[symbol][address]`, creating it if needed, with a None symbol under its own key; nothing else changes |
| Analyses.SymbolIps.Results | util/exectrace/analysis.py:49-50 | returns the counters |
| Analyses.SymbolIps.SymbolIpCounts | util/exectrace/analysis.py:52-53 | `symbol_ips()` is the per-symbol sum of the counters |
| Analyses.SymbolIpsCounts | util/exectrace/analysis.py:44-53 | the values of `symbol_ips()` add up to the number of `instruction()` calls; each counter is the number of calls with that symbol and address; the keys are the symbols seen |
| Analyses.UniqueWithinIps | util/exectrace/analysis.py:52-56 | `symbol_unique_ips()` has the keys of `symbol_ips()`, and `1 <= unique <= ips` for every key |
| Analyses.KindAccesses | util/exectrace/analysis.py:78-86 | the per-kind access count has a key for every symbol, 0 when the symbol lacks that kind |
| Analyses.KindAddresses | util/exectrace/analysis.py:97-105 | the per-kind address count has a key for every symbol, 0 when the symbol lacks that kind |
| Analyses.AddressCounts | util/exectrace/analysis.py:88-95 | the distinct-address count has a key for every symbol |
| Analyses.AccessedAddresses.constructor | util/exectrace/analysis.py:60-61 | a new analysis has no counts |
| Analyses.AccessedAddresses.OnMicroOp | util/exectrace/analysis.py:63-69 | a micro-op whose address is None or 0 changes nothing; otherwise exactly `syms[instr.symbol][kind][addr]` goes up by 1; with no instruction it raises AttributeError |
| Analyses.AccessedAddresses.Results | util/exectrace/analysis.py:71-72 | returns the counters |
| Analyses.AccessedAddresses.NumMemoryAccesses | util/exectrace/analysis.py:74-76 | the accesses of each symbol over all kinds and addresses |
| Analyses.AccessedAddresses.NumKindAccesses | util/exectrace/analysis.py:78-86 | the accesses of one kind per symbol, 0 for a symbol without that kind |
| Analyses.AccessedAddresses.NumReadAccesses | util/exectrace/analysis.py:78-81 | the `MemRead` accesses per symbol, 0 when there are none |
| Analyses.AccessedAddresses.NumWriteAccesses | util/exectrace/analysis.py:83-86 | the `MemWrite` accesses per symbol, 0 when there are none |
| Analyses.AccessedAddresses.NumAddresses | util/exectrace/analysis.py:88-95 | the number of distinct addresses per symbol, over the union of its kinds |
| Analyses.KindAccessesOf | util/exectrace/analysis.py:78-86 | the loop over the symbols computes the per-kind access counts |
| Analyses.AddressCountsOf | util/exectrace/analysis.py:88-95 | the loop over the symbols computes the distinct-address counts |
| Analyses.GatherAddresses | util/exectrace/analysis.py:91-93 | the set built kind by kind is the union of the address sets of all kinds |
| Analyses.AccessCounts | util/exectrace/analysis.py:63-69 | each counter is the number of counted accesses with that symbol, kind and address |
| Analyses.AccessTotal | util/exectrace/analysis.py:63-76 | the memory counters add up to the number of counted micro-ops, and no counter is zero |
| Analyses.ReadWriteWithinAccesses | util/exectrace/analysis.py:74-86 | a symbol's reads plus writes are at most its memory accesses |
| Analyses.AddressesWithinAccesses | util/exectrace/analysis.py:88-105 | per symbol, the addresses of one kind are at most the distinct addresses, which are at most the accesses (and at least 1); the addresses of a kind are at most its accesses |
| Parsers.FirstRaise | util/exectrace/parser.py:49-51 | gives the position of the first analysis that raises on a micro-op; no earlier analysis raises |
| Parsers.Calls | util/exectrace/parser.py:46-51 | an event reaches every analysis unless one raises, and never more than all of them |
| Parsers.Fan | util/exectrace/parser.py:46-51 | the calls for one event go to analyses 0 to n - 1, in order |
| Parsers.Decodes | util/exectrace/parser.py:36-38 | gives the text decoder's result for each line, the lines numbered from 1 |
| Parsers.Dispatch | util/exectrace/analysis.py:2-69 | a call of `instruction` or `microop` has the effect of the analysis's class on its log and on its real counters (`lines`, `syms`), keeps its counters the tally of its log, and raises AttributeError exactly when that class raises |
| Parsers.DispatchAt | util/exectrace/parser.py:46-51 | the call of the analysis at position `j` adds that event to its records; every analysis held at other positions keeps its records and its counters |
| Parsers.DeliverInstruction | util/exectrace/parser.py:45-47 | the loop over the analyses gives the instruction to each, in registration order, and keeps every counter the tally of its log |
| Parsers.DeliverMicroop | util/exectrace/parser.py:49-51 | the loop gives the micro-op to each analysis in order until one raises; it raises AttributeError exactly when one does, after that call, and keeps every counter the tally of its log |
| Parsers.StopsAt | util/exectrace/parser.py:50-51 | an analysis that raises, with none before it raising, ends the fan-out after its own call |
| Parsers.NoneStops | util/exectrace/parser.py:50-51 | when no analysis raises, the micro-op reaches all of them |
| Parsers.Advance | util/exectrace/parser.py:46-51 | the records after call `j` of a fan-out are the records for calls 0 to `j` |
| Parsers.Chained | util/exectrace/parser.py:36-43 | the records after two runs of calls, one after the other, are the records for both runs |
| Parsers.Parser.constructor | util/exectrace/parser.py:5-24 | a new parser has no analyses and empty logs |
| Parsers.Parser.AddAnalysis | util/exectrace/parser.py:26-27 | registers the analysis after the others, and changes nothing else; all the counters are tallies of their logs afterwards exactly when they were before and the new analysis's are |
| Parsers.Parser.Analyses | util/exectrace/parser.py:29-30 | returns the registered analyses in registration order |
| Parsers.Parser.EmitInstruction | util/exectrace/parser.py:45-47 | every analysis, in registration order, receives the instruction and records what its class records for it; every counter stays the tally of its log |
| Parsers.Parser.EmitMicroop | util/exectrace/parser.py:49-51 | the analyses receive the micro-op in order up to the first that raises, and record what their classes record for it; the call raises exactly when one does; every counter stays the tally of its log |
| Parsers.Parser.Step | util/exectrace/parser.py:37-43 | one line: a decode failure raises it and emits nothing; an instruction becomes the new owner and goes to every analysis; a micro-op goes with the current owner; the symbol table is asked about the line's non-zero address only |
| Parsers.Parser.LoadLine | util/exectrace/parser.py:36-43 | one iteration of the loop keeps the load invariant, or ends the load with its exception; the analyses' records grow by the calls of that line |
| Parsers.Parser.LoadStep | util/exectrace/parser.py:36-43 | one iteration, with the symbol table asked about the non-zero addresses of every line read so far |
| Parsers.Parser.Load | util/exectrace/parser.py:32-43 | the events are the decoded lines in file order; each micro-op's owner is the most recent instruction, or None; every event goes to the analyses in registration order; the load ends after every line, or at the first line that fails to decode, or at the first event an analysis raises on; each analysis has recorded exactly what its class records for the events it received; every counter stays the tally of its log; the symbol table was asked about the non-zero addresses of the lines read, in order |
| Parsers.EndOk | util/exectrace/parser.py:36-43 | a load whose every line went through ends normally |
| Parsers.EndDecode | util/exectrace/parser.py:38 | a line that fails to decode ends the load with that error |
| Parsers.EndRaise | util/exectrace/parser.py:43 | an analysis that raises ends the load with AttributeError |
| Parsers.FirstRaiseAt | util/exectrace/parser.py:50-51 | the fan-out stops exactly at the first analysis that raises |
| Parsers.AppendEvent | util/exectrace/parser.py:36-43 | one more event extends the delivery log by its fan-out, and moves the owner when it is an instruction |
| Parsers.DeliveriesLength | util/exectrace/parser.py:36-51 | without an exception, every event reaches every analysis: the log has events times analyses calls |
| Parsers.DeliveriesInOrder | util/exectrace/parser.py:36-51 | without an exception, call `i * n + j` is event `i` delivered to analysis `j`: events in file order, analyses in registration order |
| Parsers.ReceivedFan | util/exectrace/parser.py:46-51 | an analysis registered once receives an event from a fan-out exactly when the fan-out reaches its position |
| Parsers.IpsReceived | util/exectrace/parser.py:36-47 | whatever raises, a `SymbolIps` registered once records the (symbol, address) of every instruction line the events came from, in file order, and nothing for micro-op lines |
| Parsers.LoadedSymbolIps | util/exectrace/parser.py:32-47 | after a load, a `SymbolIps` registered once has seen what it saw before plus the (symbol, address) of each instruction line the load got through, in file order |
| Parsers.SymbolIpsAfterLoad | util/exectrace/parser.py:32-47 | after a load of every line, the counts of a `SymbolIps` registered once add up to its earlier count plus the number of instruction lines, and each (symbol, address) count grows by the number of instruction lines with that pair |
| Parsers.LastInstrIsLatest | util/exectrace/parser.py:35-43 | the owner handed to a micro-op is None exactly when no instruction came before, and otherwise the most recent instruction |
| Summaries.PercentBounds | util/exectrace/summary.py:31 | a share is never negative, and is at most 100 exactly when the part fits in the whole |
| Summaries.InstrTable | util/exectrace/summary.py:27-34 | the instruction table has the keys of `symbol_ips()` and copies each count and unique count; it raises ZeroDivisionError exactly when it is non-empty and the total is 0 |
| Summaries.AccessTable | util/exectrace/summary.py:37-64 | a memory or address table has the keys of its counts, and raises ZeroDivisionError exactly when it is non-empty and the total is 0 |
| Summaries.AccessRowAt | util/exectrace/summary.py:39-62 | each row holds the symbol's count and its share of the grand total; reads and writes default to 0, and their shares are of the symbol's own count, not the grand total, or 0 when that count is 0 |
| Summaries.AccessRowShares | util/exectrace/summary.py:45-62 | reads and writes that each fit in the symbol's count have shares of at most 100 |
| Summaries.InstrRows | util/exectrace/summary.py:28-33 | the loop over `sym_ips` builds the instruction table |
| Summaries.AccessRows | util/exectrace/summary.py:38-63 | the loops over `mem` and `addr` build the memory and address tables |
| Summaries.BuildSummary | util/exectrace/summary.py:2-64 | `__init__` queries both analyses and builds the totals and the three tables, or raises the first division by zero |
| Summaries.AddrAsWrittenRaises | util/exectrace/summary.py:133-134 | as written, `addr()` raises AttributeError on every summary instead of returning its address table |
| Summaries.AddrOfSummary | util/exectrace/summary.py:133-134 | as intended, `addr()` of a summary of two analyses is its address table, with one row per symbol that has accesses |
| Summaries.InstrTableBuilt | util/exectrace/summary.py:4-31 | for counters an analysis can produce, `total_ips` is not 0 when there is a row, so the instruction table is built with the keys of `symbol_ips()` |
| Summaries.MemTableBuilt | util/exectrace/summary.py:9-43 | for such counters the memory table is built with the keys of `num_memory_accesses()` |
| Summaries.AddrTableBuilt | util/exectrace/summary.py:10-58 | for such counters the address table is built with the keys of `num_addresses()` |
| Summaries.NoZeroDivision | util/exectrace/summary.py:3-64 | for counters analyses produce, none of the unguarded divisions has a zero denominator, and the summary is exactly the totals and the three tables |
| Summaries.SummaryOfAnalyses | util/exectrace/summary.py:2-24 | a summary of two analyses is built; it counts one instruction per `instruction()` call and one access per counted micro-op |
| Summaries.InstrPercentsScale | util/exectrace/summary.py:31 | the '%' column is the counts scaled by `100/total` |
| Summaries.InstrPercentsSum | util/exectrace/summary.py:28-33 | in exact arithmetic, the '%' column of a non-empty instruction table adds up to 100 |
| Summaries.InstrRowBounds | util/exectrace/summary.py:29-33 | `1 <= uniq <= instr` in every row of the instruction table of an analysis |
| Summaries.MemRowBounds | util/exectrace/summary.py:39-47 | in the memory table, `read + write <= mem` and `r% + w% <= 100` |
| Summaries.AccessTableSplit | util/exectrace/summary.py:39-47 | a row whose reads and writes fit together in its count has `read + write <= count` and `r% + w% <= 100` |
| Summaries.AccessTableWithin | util/exectrace/summary.py:54-62 | a row whose reads and writes each fit in its count has each share at most 100 |
| Summaries.SharesWithin | util/exectrace/summary.py:45-47 | two parts that fit together in a whole have shares that add up to at most 100 |
| Summaries.AddrRowBounds | util/exectrace/summary.py:54-62 | in the address table, read and write are each at most addr, and each share is at most 100 |
| Summaries.KindAddressesWithin | util/exectrace/summary.py:14-55 | the read and write addresses of a symbol are each at most its distinct addresses |
| Aggregates.SortPermutes | util/exectrace/aggregate.py:98 | `sorted` returns a permutation of its argument |
| Aggregates.SortOrders | util/exectrace/aggregate.py:98 | `sorted` returns an ascending list |
| Aggregates.SortedUnique | util/exectrace/aggregate.py:98 | two ascending lists with the same values are equal, so the sort is determined by the multiset |
| Aggregates.Median | util/exectrace/aggregate.py:90-95 | raises IndexError exactly on an empty list; an odd length gives the element at `len/2`, an even length gives the mean of the elements at `len/2 - 1` and `len/2` (Python 2 floor division) |
| Aggregates.MedianWithin | util/exectrace/aggregate.py:90-95 | the median of a sorted list lies between its ends |
| Aggregates.Quarts | util/exectrace/aggregate.py:97-106 | raises IndexError exactly when there are fewer than 2 values; otherwise the medians of the sorted list, of `d[:n/2]`, and of `d[n/2:]` (even n) or `d[n/2+1:]` (odd n) |
| Aggregates.QuartsOrdered | util/exectrace/aggregate.py:97-106 | for n >= 2, `min <= lowerQ <= med <= upperQ <= max` |
| Aggregates.MediansOrdered | util/exectrace/aggregate.py:99-105 | in a sorted list of at least two values, the three medians are ordered between the ends |
| Aggregates.QuartsPermutation | util/exectrace/aggregate.py:98 | the quartiles depend only on the multiset of inputs |
| Aggregates.QuartsEvenExample | util/exectrace/aggregate.py:97-106 | `[10, 20, 30, 40]` gives (15, 25, 35) |
| Aggregates.QuartsShuffledExample | util/exectrace/aggregate.py:97-106 | `[40, 10, 30, 20]` gives the same (15, 25, 35) |
| Aggregates.QuartsOddExample | util/exectrace/aggregate.py:97-106 | `[5, 10, 15]` leaves the median out of both halves: (5, 10, 15) |
| Aggregates.TotalsTable | util/exectrace/aggregate.py:4-6 | raises IndexError exactly when there are fewer than two summaries; its keys are exactly instr, uniq, mem and addr |
| Aggregates.InstrTable | util/exectrace/aggregate.py:9-13 | the table has exactly the symbols of `sums[0]`; it raises KeyError exactly when some summary lacks one of them |
| Aggregates.InstrEntry | util/exectrace/aggregate.py:11-13 | an entry has exactly the fields instr, % and uniq |
| Aggregates.AccessTable | util/exectrace/aggregate.py:16-27 | the table has exactly the symbols of the first summary's table; it raises KeyError exactly when some summary lacks one of them |
| Aggregates.AccessEntry | util/exectrace/aggregate.py:18-27 | an entry has exactly the six fields |
| Aggregates.AggregateAsWrittenFails | util/exectrace/aggregate.py:24 | as written, no input builds an aggregate; every input the corrected constructor accepts raises AttributeError |
| Aggregates.AggregateParts | util/exectrace/aggregate.py:2-27 | a built aggregate needs at least two summaries and is made of the four tables, each of which was built |
| Aggregates.AggregateKeys | util/exectrace/aggregate.py:4-27 | the totals keys are exactly instr, uniq, mem and addr, and each table's symbols are exactly those of `sums[0]` |
| Aggregates.AggregateRowsShared | util/exectrace/aggregate.py:10-27 | an aggregate is built only when every summary has a row for each symbol of the first one |
| Aggregates.TotalsOrdered | util/exectrace/aggregate.py:4-6 | every total is an ordered triple `lowerQ <= med <= upperQ` |
| Aggregates.InstrTableAt | util/exectrace/aggregate.py:10-13 | a symbol of a built instruction table has a row in every summary, and its entry is the quartiles of that column |
| Aggregates.AccessTableAt | util/exectrace/aggregate.py:17-27 | a symbol of a built memory or address table has a row in every summary, and its entry is the quartiles of that column |
| Aggregates.InstrEntriesOrdered | util/exectrace/aggregate.py:9-13 | each instruction entry has the fields instr, % and uniq, each an ordered triple |
| Aggregates.AccessEntriesOrdered | util/exectrace/aggregate.py:16-27 | each memory and address entry has its six fields, each an ordered triple |
| Aggregates.InstrTableFrom | util/exectrace/aggregate.py:9-13 | a table with an entry for every symbol of the first summary, each found in every summary, is the table built |
| Aggregates.AccessTableFrom | util/exectrace/aggregate.py:16-27 | the same for the memory and address tables |
| Aggregates.BuildAggregate | util/exectrace/aggregate.py:2-27 | `__init__` computes the totals and then the three tables, raising the first error |
| Aggregates.BuildTotals | util/exectrace/aggregate.py:4-6 | the totals loop computes the totals table |
| Aggregates.BuildInstrTable | util/exectrace/aggregate.py:9-13 | the loop over `sums[0].instr()` computes the instruction table |
| Aggregates.BuildAccessTable | util/exectrace/aggregate.py:16-27 | the loops over `sums[0].mem()` and `sums[0].addr()` compute those tables |
| Aggregates.Shared | util/exectrace/aggregate.py:12-26 | building a column finds the symbol in every summary exactly when each has a row for it |
| ExecTraces.Attach | util/exectrace/exectrace.py:37-38 | attaching a micro-op keeps the number of instructions |
| ExecTraces.AttachOps | util/exectrace/exectrace.py:37-38 | attaching keeps the instructions, and appends the micro-op to the last one, or drops it when there is none |
| ExecTraces.LoadedInOrder | util/exectrace/exectrace.py:28-38 | a load ends without an error exactly when every line decodes; then the instructions are the instruction lines in file order, and their micro-ops are the micro-op lines that follow some instruction, in file order |
| ExecTraces.LoadedSticks | util/exectrace/exectrace.py:32-34 | once a line fails, the load ends there, keeping the instructions read so far |
| ExecTraces.AssembleStep | util/exectrace/exectrace.py:33-38 | one more line: a failure ends the load, an instruction is appended with no micro-ops, and a micro-op is attached to the last instruction |
| ExecTraces.ExecTrace.constructor | util/exectrace/exectrace.py:6-7 | a new trace holds the given instructions |
| ExecTraces.ExecTrace.Len | util/exectrace/exectrace.py:91-92 | `len(trace)` is the number of instructions |
| ExecTraces.ExecTrace.Iter | util/exectrace/exectrace.py:94-95 | iteration yields the instructions in order |
| ExecTraces.ExecTrace.Load | util/exectrace/exectrace.py:9-38 | after `load`, the instructions are what the load specification assembles from the decoded lines, and the outcome is its first error or none; the instruction objects are distinct; the symbol table was asked about the non-zero addresses of the lines read, in order |
| ExecTraces.ExecTrace.LoadLine | util/exectrace/exectrace.py:32-38 | one iteration keeps the instructions equal to the assembly of the lines read so far, appending at most one fresh object |
| ExecTraces.ExecTrace.ReadLine | util/exectrace/exectrace.py:33-89 | the line is counted and decoded: the same error as the decoder, or a fresh instruction with the decoded values, or the decoded micro-op; the symbol table is asked about the line's non-zero address only |
| ExecTraces.ExecTrace.Append | util/exectrace/exectrace.py:35-38 | an instruction is appended, and a micro-op goes to the last instruction only; the list stays the assembly of the lines so far |
| ExecTraces.ExecTrace.AttachToLast | util/exectrace/exectrace.py:38 | only the last instruction gains the micro-op |
| ExecTraces.IpKeys | util/exectrace/exectrace.py:100-106 | one key per instruction |
| ExecTraces.UniqueIpsBound | util/exectrace/exectrace.py:98-108 | `unique_ips() <= len(trace)` |
| ExecTraces.ExecTrace.UniqueIps | util/exectrace/exectrace.py:98-108 | the number of distinct keys, each instruction keyed by its address if truthy, else `'sym+offset'` if its offset is truthy, else its symbol |
| ExecTraces.SymbolKeys | util/exectrace/exectrace.py:113-115 | at most one symbol per instruction |
| ExecTraces.SymbolKeysAt | util/exectrace/exectrace.py:113-115 | a symbol is counted exactly when it is non-empty and some instruction carries it |
| ExecTraces.ExecTrace.SymbolIps | util/exectrace/exectrace.py:111-116 | `symbol_ips()` counts instructions per non-empty symbol |
| ExecTraces.SymbolIpsCounts | util/exectrace/exectrace.py:111-116 | keys are the non-empty symbols carried by instructions; each value is that symbol's number of instructions; the values add up to at most `len(trace)` |
| ExecTraces.ExecTrace.SymbolUniqueIps | util/exectrace/exectrace.py:119-126 | `symbol_unique_ips()` is, per non-empty symbol, the number of distinct addresses of its instructions |
| ExecTraces.UniqueKeys | util/exectrace/exectrace.py:119-126 | `symbol_unique_ips()` has the keys of `symbol_ips()` |
| ExecTraces.UniqueWithinCounts | util/exectrace/exectrace.py:119-126 | each unique count is the number of distinct addresses `count_ips` finds for the symbol, and `1 <= unique <= symbol_ips` |
| ExecTraces.SymbolTallyAt | util/exectrace/exectrace.py:122-134 | the counter `symbol_unique_ips()` keeps for a symbol is the counter `count_ips` returns for it |
| ExecTraces.ExecTrace.CountIps | util/exectrace/exectrace.py:129-135 | `count_ips(fn)` counts the addresses of the instructions whose symbol equals `fn` |
| ExecTraces.CountIpsAgree | util/exectrace/exectrace.py:111-135 | for a non-empty `fn`, the values of `count_ips(fn)` add up to `symbol_ips()[fn]`, or 0 when it is absent |
| ExecTraces.CountAccesses | util/exectrace/exectrace.py:147-151 | the inner loop counts the micro-ops with a truthy address and, when a kind is given, that kind |
| ExecTraces.ExecTrace.Addresses | util/exectrace/exectrace.py:138-152 | per symbol, or over the whole trace, the count of each address among the selected micro-ops |
| ExecTraces.PerSymbolAt | util/exectrace/exectrace.py:138-152 | `addresses(per_symbol=True)` has a key for every non-empty symbol, even one without accesses, and counts that symbol's accesses |
| ExecTraces.KindSelects | util/exectrace/exectrace.py:149 | a kind only selects: the accesses with a kind are a sub-multiset of those without |
| ExecTraces.ReadsAndWrites | util/exectrace/exectrace.py:149 | reads plus writes are at most all accesses |
| ExecTraces.KindCountsWithin | util/exectrace/exectrace.py:138-152 | every count with a kind is at most the count without one, overall and per symbol |
| ExecTraces.AccessesOfSymbol | util/exectrace/exectrace.py:158-166 | a symbol's `mem` is its number of accesses and its `addr` the number of its distinct addresses |
| ExecTraces.AddressesOfKind | util/exectrace/exectrace.py:160-166 | a symbol's read or write addresses are at most its addresses |
| ExecTraces.ExecTrace.Tables | util/exectrace/exectrace.py:155-166 | the dictionaries `summary` derives from its queries |
| ExecTraces.DeriveTables | util/exectrace/exectrace.py:159-166 | `sum(v.values())` and `len(v.values())` per symbol |
| ExecTraces.TablesFacts | util/exectrace/exectrace.py:155-185 | every symbol of `sym_ips` has a unique count, and `total_ips` is not 0 when there is a row |
| ExecTraces.RowsOf | util/exectrace/exectrace.py:181-219 | one row for each key of `sym_ips` |
| ExecTraces.WriteSummary | util/exectrace/exectrace.py:170-219 | the four totals and the per-symbol rows of the report |
| ExecTraces.ExecTrace.Summary | util/exectrace/exectrace.py:154-221 | the numbers of the report equal the summary specification of the loaded trace |
| ExecTraces.SummaryOfTables | util/exectrace/exectrace.py:154-221 | the report is written from the dictionaries, and none of its divisions is by zero |
| ExecTraces.SummaryInstrRows | util/exectrace/exectrace.py:172-187 | total instructions is at most `len(trace)`; a symbol has a row exactly when it is non-empty and carried by an instruction; its count is its number of instructions, and `1 <= uniq <= instrs` |
| ExecTraces.PercentsScale | util/exectrace/exectrace.py:184 | the share column is the counts scaled by `100/total` |
| ExecTraces.SummaryPercentsSum | util/exectrace/exectrace.py:181-187 | in exact arithmetic, the instruction shares of a non-empty report add up to 100 |
| ExecTraces.SummaryAccessRow | util/exectrace/exectrace.py:193-219 | per symbol: mem is its number of accesses; reads plus writes are at most mem and their shares add up to at most 100; read and write addresses are at most its addresses, with shares at most 100; each share is 0 when its denominator is 0 |

## Left out

- File access: `open` and the iteration over the file's lines in both loaders. A load takes the lines as a sequence of strings.
- The `os.popen("addr2line ...")` call in `SymbolTable.getsym`. The tool is a function value given to the table's constructor, and its output is given as text. `hex(addr - base)` formatting is not modelled: the function receives the integer offset.
- `gethotlines` and `sorted_by_values` in `exectrace.py`: they shell out to `addr2line` and print.
- `agg.py`, `parse_args`, `main` and `debug_load`: command-line glue.
- Text rendering: the `__str__` and `__table` methods of Summary and Aggregate, and the string concatenation in `ExecTrace.summary`. This includes the `%.2f` rounding, the tab layout and the order of rows by decreasing instruction count. The model keeps the numbers behind the text. Row sets are maps, so row order is not modelled.
- IEEE floating point: `*100.0/` and `/2.0` are exact reals, and no rounding is modelled.
- The commented-out full-line regex in both loaders is documentation, not code. Only the symbol-expression pattern runs, and it is modelled by a hand-written matcher.
- `self.__last_sym` (parser.py:67, exectrace.py:54) is written but never read, so the model has no such field.
- Python 2 `iteritems`/`itervalues` and dictionary order. Dictionaries are maps. Where a loop over a dictionary could raise part-way through, every key raises the same error, so the order does not change the exception.
- The base class `Analysis` (analysis.py:1-7) is the `Plain` case of the analysis datatype. Its `instruction` and `microop` do nothing. Its `results()` returns None; no caller in the core uses it, so it has no member.
- Duck-typed dispatch over any object with `instruction`/`microop` methods. The parser accepts the four analyses of `analysis.py` and the base class.
- Aliasing of returned lists and dictionaries: `analyses()`, `results()` and `__iter__` return copies as values, so changes a caller makes through them are not modelled.
- The mutable default argument `instructions=[]` of `ExecTrace.__init__`, which instances share until `load` replaces it. The constructor takes the list as a value.
- The scalar getters of `Instruction` and `MicroOp` are constant fields. The accessors `totals()`, `instr()` and `mem()` of Summary and Aggregate are datatype fields.
- `AccessedAddresses.num_read_addresses`, `num_write_addresses` and `SymbolIps.symbol_unique_ips` are functions with no contract of their own. Their properties are `Analyses.KindAddresses`, `Analyses.AddressesWithinAccesses` and `Analyses.UniqueWithinIps`.
- Parsers.Parser.Load: the records of each analysis after a load are stated as its class's records for the events it received; only `SymbolIps` has a lemma that spells them out for every input (`Parsers.LoadedSymbolIps`, `Parsers.SymbolIpsAfterLoad`). For the other classes they follow from `Parsers.Entry` and `Parsers.Received`, with no lemma of their own.
- ExecTraces.ExecTrace.Load: it uses the corrected decoder, which builds instructions with no source line. The code as written raises TypeError on every instruction line; see Findings.
- Summaries.InstrTable: it requires every symbol of `symbol_ips()` to have a unique count. In the source, a missing one would raise KeyError. That cannot happen with counters from `SymbolIps`, whose two views have the same keys (`Analyses.UniqueWithinIps`).
- Summaries.InstrRows: it has the same precondition as `Summaries.InstrTable`, for the same reason.
- Aggregates.InstrTable: it requires at least two summaries. With fewer, the totals loop has already raised IndexError (`Aggregates.TotalsTable`), so the table loops are never reached.
- Aggregates.AccessTable: it has the same precondition, for the same reason.
- Aggregates.BuildInstrTable: it has the same precondition, for the same reason.
- Aggregates.BuildAccessTable: it has the same precondition, for the same reason.
- SymbolTables.SymbolTable.GetSym: it counts the external lookups in a ghost log of the offsets passed. The tool's side effects are not modelled.

## Findings

| source | as written | input that shows it | evidently intended | confidence | as-written member | corrected member |
|---|---|---|---|---|---|---|
| util/exectrace/parser.py:71-77 (and exectrace.py:58-64) | `Instruction(tick=..., cpu=..., symbol=..., offset=..., address=..., asm=...)` omits the `line` parameter, which `Instruction.__init__` requires (instruction.py:2) | any instruction line, e.g. `100: cpu0 T0 : @main+4 : nop`: the call raises TypeError | build the instruction with no source line | not executed | LineDecoder.DecodeLineAsWritten, LineDecoder.DecodeLineAsWrittenRaises | LineDecoder.DecodeLine, LineDecoder.DecodeInstructionLine |
| util/exectrace/summary.py:133-134 | `addr()` returns `self._addr`, but `__init__` stores the table as `self.__addr`, whose name is mangled to `_Summary__addr` | any Summary `s`: `s.addr()` raises AttributeError | return `self.__addr` | not executed | Summaries.AddrAsWritten, Summaries.AddrAsWrittenRaises | Summaries.Addr, Summaries.AddrOfSummary |
| util/exectrace/aggregate.py:23-27 | the address loop starts with `sums[0].addr()`, which inherits the previous row's AttributeError | any list of at least two summaries that share their symbols: `Aggregate(sums)` raises AttributeError after the first three tables are built | aggregate the address tables as the other tables are | not executed | Aggregates.AggregateAsWritten, Aggregates.AggregateAsWrittenFails | Aggregates.AggregateOf, Aggregates.AggregateKeys |
