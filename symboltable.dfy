/**
 * The symbol table: a cache in front of the external `addr2line` lookup.
 * The lookup is a parameter of the table: given the binary's path and an
 * offset into it, it yields the tool's whole output.
 */
module SymbolTables {
  import opened Strings

  /** `output.split('\n')[0]`: the first line of the tool's output. */
  function FirstLine(output: string): (r: string)
    ensures '\n' !in r
    ensures r <= output
  {
    var pieces := Split(output, "\n");
    SplitFirstPrefix(output, "\n");
    FirstPieceFree(output);
    pieces[0]
  }

  /** The first piece of a split on a newline holds no newline. */
  lemma {:induction false} FirstPieceFree(s: string)
    ensures '\n' !in Split(s, "\n")[0]
  {
    var r := Split(s, "\n")[0];
    if '\n' in r {
      var p :| 0 <= p < |r| && r[p] == '\n';
      SplitPiecesFree(s, "\n", 0, p);
    }
  }

  /** The distinct values of a sequence. */
  function Elements(qs: seq<int>): set<int> {
    set q | q in qs
  }

  /**
   * The offsets the external tool runs at when `getsym` is asked about the
   * addresses `qs` in turn, starting with the addresses `cached`: one run for
   * each address that is neither cached nor asked about before, at
   * `address - base`.
   */
  function Misses(cached: set<int>, qs: seq<int>, base: int): seq<int>
    decreases |qs|
  {
    if qs == [] then []
    else
      var q := qs[|qs| - 1];
      var init := qs[..|qs| - 1];
      Misses(cached, init, base) + (if q in cached || q in init then [] else [q - base])
  }

  /**
   * The cache keys and the lookup log after `getsym` was asked about `qs`,
   * given the keys `syms0` and the log `lookups0` before.
   */
  predicate Consulted(syms: map<int, string>, lookups: seq<int>, base: int,
                      syms0: map<int, string>, lookups0: seq<int>, qs: seq<int>) {
    && syms.Keys == syms0.Keys + Elements(qs)
    && lookups == lookups0 + Misses(syms0.Keys, qs, base)
  }

  /** Asking about `qs` and then about `rs` consults the table as asking about `qs + rs` does. */
  lemma {:induction false} MissesConcat(cached: set<int>, qs: seq<int>, rs: seq<int>, base: int)
    ensures Misses(cached, qs + rs, base) == Misses(cached, qs, base) + Misses(cached + Elements(qs), rs, base)
    decreases |rs|
  {
    if rs == [] {
      assert qs + rs == qs;
    } else {
      var r := rs[|rs| - 1];
      var init := rs[..|rs| - 1];
      MissesConcat(cached, qs, init, base);
      assert (qs + rs)[..|qs + rs| - 1] == qs + init;
      assert (qs + rs)[|qs + rs| - 1] == r;
      assert r in qs + init <==> r in qs || r in init;
    }
  }

  /** Two consultations in a row are one consultation of both query lists. */
  lemma ConsultedTrans(syms: map<int, string>, lookups: seq<int>, syms1: map<int, string>, lookups1: seq<int>,
                       syms0: map<int, string>, lookups0: seq<int>, base: int, qs: seq<int>, rs: seq<int>)
    requires Consulted(syms1, lookups1, base, syms0, lookups0, qs)
    requires Consulted(syms, lookups, base, syms1, lookups1, rs)
    ensures Consulted(syms, lookups, base, syms0, lookups0, qs + rs)
  {
    MissesConcat(syms0.Keys, qs, rs, base);
    assert Elements(qs + rs) == Elements(qs) + Elements(rs);
  }

  /**
   * The cache's promise: the tool never runs twice for one address, and it
   * runs at `q - base` exactly for the addresses `q` asked about that were
   * not cached before.
   */
  lemma {:induction false} MissesOnce(cached: set<int>, qs: seq<int>, base: int)
    ensures forall i, k :: 0 <= i < k < |Misses(cached, qs, base)| ==> Misses(cached, qs, base)[i] != Misses(cached, qs, base)[k]
    ensures forall o :: o in Misses(cached, qs, base) <==> o + base in qs && o + base !in cached
    ensures |Misses(cached, qs, base)| <= |qs|
    decreases |qs|
  {
    if qs != [] {
      var q := qs[|qs| - 1];
      var init := qs[..|qs| - 1];
      MissesOnce(cached, init, base);
      assert qs == init + [q];
      var m := Misses(cached, init, base);
      if !(q in cached || q in init) {
        assert Misses(cached, qs, base) == m + [q - base];
        assert q - base !in m;
      }
    }
  }

  class SymbolTable {
    const path: string
    const base: int
    /** The external tool: `addr2line -fe path hex(offset)`, its output as text. */
    const lookup: (string, int) -> string
    var syms: map<int, string>
    /** The offsets handed to the external tool, in call order. */
    ghost var lookups: seq<int>

    /** Every cached name is what the tool says for its address. */
    ghost predicate Valid()
      reads this
    {
      forall a :: a in syms ==> syms[a] == Resolve(a)
    }

    /** What the table answers for `addr`: the first line of the tool's output at `addr - base`. */
    function Resolve(addr: int): string {
      FirstLine(lookup(path, addr - base))
    }

    constructor (path: string, base: int, lookup: (string, int) -> string)
      ensures this.path == path && this.base == base && this.lookup == lookup
      ensures syms == map[] && lookups == []
      ensures Valid()
    {
      this.path := path;
      this.base := base;
      this.lookup := lookup;
      syms := map[];
      lookups := [];
    }

    /**
     * `getsym(addr)`: a cached name is returned as is, without running the
     * tool; otherwise the tool runs once, at `addr - base` (which may be
     * negative), and its first line is cached and returned.
     */
    method GetSym(addr: int) returns (sym: string)
      requires Valid()
      modifies this
      ensures Valid()
      ensures sym == Resolve(addr)
      ensures addr in old(syms) ==> syms == old(syms) && lookups == old(lookups) && sym == old(syms)[addr]
      ensures addr !in old(syms) ==> syms == old(syms)[addr := sym] && lookups == old(lookups) + [addr - base]
      ensures forall a :: a in old(syms) ==> a in syms && syms[a] == old(syms)[a]
      ensures syms.Keys == old(syms.Keys) + {addr}
      ensures Consulted(syms, lookups, base, old(syms), old(lookups), [addr])
    {
      if addr !in syms {
        var output := lookup(path, addr - base);
        lookups := lookups + [addr - base];
        syms := syms[addr := FirstLine(output)];
      }
      sym := syms[addr];
    }
  }
}
