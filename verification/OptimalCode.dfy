// From the statistics of a pass to the tables of the next one: jpeg_gen_optimal_table, then both
// derived tables.  No symbol that was counted lacks a code.
module OptimalCode {
  import opened CanonicalCode
  import opened HuffmanOptimality
  import opened HuffmanLengths
  import opened HuffmanLimit
  import opened GenOptimalTable
  import opened HuffmanTableProperties
  import opened DerivedTables
  import opened TokenStream

  // How often a pass counts each symbol of a table, with the pseudo-symbol.
  ghost function Statistics(ts: seq<Token>, tab: nat): (count: seq<nat>)
    ensures |count| == NUM_SYMBOLS
  {
    seq(NUM_SYMBOLS, s requires 0 <= s < NUM_SYMBOLS => if s == PSEUDO_SYMBOL then 1 else CountSymbol(ts, tab, s))
  }

  lemma {:induction false} UsedBounds(count: seq<nat>)
    ensures Used(count) <= |count| && (forall i :: 0 <= i < |count| && count[i] == 0 ==> Used(count) <= |count| - 1)
    ensures forall i :: 0 <= i < |count| && count[i] > 0 ==> Used(count) >= 1
  {
    if count != [] {
      UsedBounds(count[..|count| - 1]);
    }
  }

  lemma {:induction false} TwoUnused(count: seq<nat>, i: nat, j: nat)
    requires i < j < |count| && count[i] == count[j] == 0
    ensures Used(count) <= |count| - 2
  {
    var init := count[..|count| - 1];
    if j < |init| {
      TwoUnused(init, i, j);
    } else {
      UsedBounds(init);
      assert init[i] == 0;
    }
  }

  lemma {:induction false} TwoUsed(count: seq<nat>, i: nat, j: nat)
    requires i < j < |count| && count[i] > 0 && count[j] > 0
    ensures Used(count) >= 2
  {
    var init := count[..|count| - 1];
    if j < |init| {
      TwoUsed(init, i, j);
    } else {
      UsedBounds(init);
      assert init[i] > 0;
    }
  }

  // Sizes of differences are at most 11, those of other values at most 10.
  predicate SizesFit(ts: seq<Token>, tab: nat) {
    forall i :: 0 <= i < |ts| && ts[i].Symbol? && ts[i].tab == tab ==> ts[i].sym < 256 && ts[i].sym % 16 <= 11
  }

  // So not all symbols occur, and jpeg_gen_optimal_table can take the counts of a table that is in use.
  lemma InUseCountable(ts: seq<Token>, tab: nat)
    requires SizesFit(ts, tab) && Occurs(ts, tab) && Sum(Statistics(ts, tab)) <= MAX_COUNT
    ensures Countable(Statistics(ts, tab))
  {
    var i :| 0 <= i < |ts| && ts[i].Symbol? && ts[i].tab == tab;
    Uncounted(ts, tab, 0x0F);
    Uncounted(ts, tab, 0x1F);
    TwoUnused(Statistics(ts, tab), 0x0F, 0x1F);
    CountPositive(ts, tab, ts[i].sym, i);
    TwoUsed(Statistics(ts, tab), ts[i].sym, PSEUDO_SYMBOL);
  }

  lemma {:induction false} OccursAt(s: seq<nat>, i: nat)
    requires i < |s|
    ensures Occurrences(s, s[i]) > 0
  {
    if i < |s| - 1 {
      OccursAt(s[..|s| - 1], i);
    }
  }

  lemma {:induction false} OccursOnce(s: seq<nat>, i: nat, j: nat)
    requires i < j < |s| && Occurrences(s, s[j]) <= 1
    ensures s[i] != s[j]
  {
    if j < |s| - 1 {
      OccursOnce(s[..|s| - 1], i, j);
    } else if s[i] == s[j] {
      OccursAt(s[..|s| - 1], i);
    }
  }

  lemma {:induction false} OccursSomewhere(s: seq<nat>, u: nat) returns (i: nat)
    requires Occurrences(s, u) > 0
    ensures i < |s| && s[i] == u
  {
    if s[|s| - 1] == u {
      i := |s| - 1;
    } else {
      i := OccursSomewhere(s[..|s| - 1], u);
    }
  }

  // A table of the counted symbols is one that both table builders accept.
  lemma UsableIsSound(count: seq<nat>, htbl: HuffTable, maxsymbol: nat)
    requires Usable(count, htbl) && maxsymbol <= 255
    requires forall s :: maxsymbol < s < 256 ==> count[s] == 0
    ensures SymbolsSound(htbl, NumCodes(htbl.bits), maxsymbol)
  {
    var list := htbl.huffval[..NumCodes(htbl.bits)];
    forall p | 0 <= p < |list|
      ensures list[p] <= maxsymbol
    {
      OccursAt(list, p);
    }
    forall p, q | 0 <= p < q < |list|
      ensures list[p] != list[q]
    {
      OccursOnce(list, p, q);
    }
  }

  lemma CountedIsCoded(count: seq<nat>, code: Code, s: nat)
    requires Usable(count, code.htbl) && Sound(code) && s < 256 && count[s] > 0
    ensures code.ehufsi[s] != 0
  {
    var p := OccursSomewhere(code.htbl.huffval[..NumCodes(code.htbl.bits)], s);
    assert code.htbl.huffval[p] == s;
  }

  lemma SoundFits(code: Code)
    requires Sound(code)
    ensures CodeFits(code)
  {
    forall s | 0 <= s < 256 && code.ehufsi[s] != 0
      ensures code.ehufsi[s] <= 16
    {
      var p :| 0 <= p < NumCodes(code.htbl.bits) && code.htbl.huffval[p] == s;
      CodeRange(code.htbl.bits, p);
    }
  }

  // finish_pass_gather and the start of the output pass, for one table.  It can only fail on a code
  // length above 32, which takes more than nine million counts.
  method MakeOptimalCode(counts: array<nat>, isDC: bool) returns (ok: bool, code: Code)
    requires counts.Length == NUM_SYMBOLS && Countable(counts[..][PSEUDO_SYMBOL := 1])
    requires isDC ==> forall s :: 16 <= s < 256 ==> counts[s] == 0
    modifies counts
    ensures ok ==> Sound(code) && CodeFits(code) && SymbolsSound(code.htbl, NumCodes(code.htbl.bits), MaxSymbol(isDC))
    ensures ok ==> forall s :: 0 <= s < 256 && old(counts[s]) > 0 ==> code.ehufsi[s] != 0
    ensures !ok ==> Sum(old(counts[..])[PSEUDO_SYMBOL := 1]) >= OVERFLOW_COUNT
  {
    ghost var count, size := counts[..][PSEUDO_SYMBOL := 1], [];
    var htbl;
    code := Code(HuffTable([], []), [], []);
    ok, htbl, size := GenOptimalTable.GenOptimalTable(counts);
    if !ok {
      if Sum(count) < OVERFLOW_COUNT {
        OverflowNeedsCounts(count, size);
      }
      return;
    }
    TableUsable(count, size);
    UsableIsSound(count, htbl, MaxSymbol(isDC));
    var okC, ehufco, ehufsi := MakeCDerivedTbl(htbl, isDC);
    code := Code(htbl, ehufco[..], ehufsi[..]);
    SoundFits(code);
    forall s | 0 <= s < 256 && count[s] > 0
      ensures code.ehufsi[s] != 0
    {
      CountedIsCoded(count, code, s);
    }
  }
}
