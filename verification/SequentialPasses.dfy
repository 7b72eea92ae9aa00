// Optimised sequential coding end to end: a statistics pass, optimal tables, an output pass, the decoder.
module SequentialPasses {
  import opened Numerals
  import opened CanonicalCode
  import opened BitWriter
  import opened HuffmanOptimality
  import opened HuffmanLengths
  import opened GenOptimalTable
  import opened HuffmanTableProperties
  import opened TokenStream
  import opened OptimalCode
  import opened ACScan
  import opened RunLength
  import opened SequentialBlock
  import opened SequentialIntervals
  import opened SequentialReading
  import opened CodedSegments
  import opened RestartStream
  import opened RestartReader
  import opened RestartIntervals
  import opened DamagedStream
  import SequentialCoder
  import SequentialDecoder

  // DC tables are 0 to 3, AC tables 4 to 7.
  const NUM_TABLES := 8
  const NUM_DC_TABLES := 4

  predicate InTables(us: seq<Unit>) {
    forall i :: 0 <= i < |us| ==> us[i].dcTab < NUM_DC_TABLES <= us[i].acTab < NUM_TABLES
  }

  // finish_pass_gather and start_pass pass over the AC tables if there are no AC coefficients.
  predicate UsedTable(us: seq<Unit>, t: nat, se: nat) {
    exists i :: 0 <= i < |us| && (us[i].dcTab == t || (se > 0 && us[i].acTab == t))
  }

  // ---- What symbols there are ----

  predicate SymbolsFit(us: seq<Unit>, se: nat, ts: seq<Token>) {
    forall i :: 0 <= i < |ts| && ts[i].Symbol? ==>
      && UsedTable(us, ts[i].tab, se)
      && ts[i].sym < 256 && ts[i].sym % 16 <= MAX_COEF_BITS + 1 && (ts[i].tab < NUM_DC_TABLES ==> ts[i].sym < 16)
  }

  lemma FitAppend(us: seq<Unit>, se: nat, ts: seq<Token>, more: seq<Token>)
    requires SymbolsFit(us, se, ts) && SymbolsFit(us, se, more)
    ensures SymbolsFit(us, se, ts + more)
  {
  }

  lemma {:induction false} RunsFit(us: seq<Unit>, tab: nat, z: Block, k: nat, se: nat, r: nat)
    requires k <= se + 1 <= 64 && InRange(z, k, se) && (k <= se ==> UsedTable(us, tab, se)) && tab >= NUM_DC_TABLES
    ensures SymbolsFit(us, se, CodeRuns(tab, z, k, se, r).tokens)
    decreases se + 1 - k, r
  {
    if k <= se {
      if z[k] == 0 {
        RunsFit(us, tab, z, k + 1, se, r + 1);
      } else if r > 15 {
        RunsFit(us, tab, z, k, se, r - 16);
        CodeZrl(tab, z, k, se, r);
        FitAppend(us, se, [Symbol(tab, 0xF0)], CodeRuns(tab, z, k, se, r - 16).tokens);
      } else {
        RunsFit(us, tab, z, k + 1, se, 0);
        CodeValue(tab, z, k, se, r);
        DivModIs(r * 16 + NumBits(z[k]), r, 16, NumBits(z[k]));
        FitAppend(us, se, [Symbol(tab, r * 16 + NumBits(z[k])), Raw(ValueBits(z[k]))], CodeRuns(tab, z, k + 1, se, 0).tokens);
      }
    }
  }

  lemma UnitFits(us: seq<Unit>, u: Unit, z: Block, se: nat, lastDc: int)
    requires u in us && InTables(us) && se <= 63 && Encodable(z, se, lastDc)
    ensures SymbolsFit(us, se, UnitTokens(u, z, se, lastDc))
  {
    assert UsedTable(us, u.dcTab, se) && (se > 0 ==> UsedTable(us, u.acTab, se));
    RunsFit(us, u.acTab, z, 1, se, 0);
    var coded := CodeRuns(u.acTab, z, 1, se, 0);
    FitAppend(us, se, coded.tokens, if coded.pending then [Symbol(u.acTab, 0)] else []);
    FitAppend(us, se, DcTokens(u.dcTab, z[0] - lastDc), AcTokens(u.acTab, z, se));
  }

  lemma {:induction false} StreamFits(all: seq<Unit>, us: seq<Unit>, se: nat, zs: seq<Block>, last: seq<int>)
    requires |us| == |zs| && se <= 63 && (forall i :: 0 <= i < |us| ==> us[i].comp < |last|)
    requires (forall i :: 0 <= i < |us| ==> us[i] in all) && InTables(all) && AllEncodable(us, se, zs, last)
    ensures SymbolsFit(all, se, StreamTokens(us, se, zs, last))
  {
    if us != [] {
      var u, last' := us[0], last[us[0].comp := zs[0][0]];
      UnitFits(all, u, zs[0], se, last[u.comp]);
      StreamFits(all, us[1..], se, zs[1..], last');
      FitAppend(all, se, UnitTokens(u, zs[0], se, last[u.comp]), StreamTokens(us[1..], se, zs[1..], last'));
    }
  }

  lemma {:induction false} McusFit(us: seq<Unit>, se: nat, mcus: seq<seq<Block>>, last: seq<int>)
    requires se <= 63 && McuShape(us, |last|, mcus) && InTables(us) && McusEncodable(us, se, mcus, last)
    ensures SymbolsFit(us, se, McuTokens(us, se, mcus, last))
    decreases |mcus|
  {
    if mcus != [] {
      StreamFits(us, us, se, mcus[0], last);
      McusFit(us, se, mcus[1..], LastAfter(us, mcus[0], last));
      FitAppend(us, se, StreamTokens(us, se, mcus[0], last), McuTokens(us, se, mcus[1..], LastAfter(us, mcus[0], last)));
    }
  }

  // ---- A table that is used has a symbol counted for it ----

  // A band yields a value or an end of block.
  lemma {:induction false} RunsOccur(tab: nat, z: Block, k: nat, se: nat, r: nat)
    requires k <= se + 1 <= 64 && (k <= se || r > 0)
    ensures CodeRuns(tab, z, k, se, r).pending || Occurs(CodeRuns(tab, z, k, se, r).tokens, tab)
    decreases se + 1 - k, r
  {
    if k <= se {
      if z[k] == 0 {
        RunsOccur(tab, z, k + 1, se, r + 1);
      } else if r > 15 {
        CodeZrl(tab, z, k, se, r);
        assert CodeRuns(tab, z, k, se, r).tokens[0] == Symbol(tab, 0xF0);
      } else {
        CodeValue(tab, z, k, se, r);
        assert CodeRuns(tab, z, k, se, r).tokens[0] == Symbol(tab, r * 16 + NumBits(z[k]));
      }
    }
  }

  lemma UnitOccurs(u: Unit, z: Block, se: nat, lastDc: int)
    requires se <= 63
    ensures Occurs(UnitTokens(u, z, se, lastDc), u.dcTab)
    ensures se > 0 ==> Occurs(UnitTokens(u, z, se, lastDc), u.acTab)
  {
    var dc, coded := DcTokens(u.dcTab, z[0] - lastDc), CodeRuns(u.acTab, z, 1, se, 0);
    assert dc[0] == Symbol(u.dcTab, NumBits(z[0] - lastDc));
    OccursIn(dc, AcTokens(u.acTab, z, se), u.dcTab);
    if se > 0 {
      RunsOccur(u.acTab, z, 1, se, 0);
      assert [Symbol(u.acTab, 0)][0].tab == u.acTab;
      OccursIn(coded.tokens, if coded.pending then [Symbol(u.acTab, 0)] else [], u.acTab);
      OccursIn(dc, AcTokens(u.acTab, z, se), u.acTab);
    }
  }

  lemma {:induction false} StreamOccurs(us: seq<Unit>, se: nat, zs: seq<Block>, last: seq<int>, i: nat)
    requires |us| == |zs| && se <= 63 && (forall i :: 0 <= i < |us| ==> us[i].comp < |last|) && i < |us|
    ensures Occurs(StreamTokens(us, se, zs, last), us[i].dcTab)
    ensures se > 0 ==> Occurs(StreamTokens(us, se, zs, last), us[i].acTab)
  {
    var u, last' := us[0], last[us[0].comp := zs[0][0]];
    var own, later := UnitTokens(u, zs[0], se, last[u.comp]), StreamTokens(us[1..], se, zs[1..], last');
    if i == 0 {
      UnitOccurs(u, zs[0], se, last[u.comp]);
    } else {
      StreamOccurs(us[1..], se, zs[1..], last', i - 1);
    }
    OccursIn(own, later, us[i].dcTab);
    if se > 0 {
      OccursIn(own, later, us[i].acTab);
    }
  }

  // ---- All intervals of a scan ----

  lemma {:induction false} FlatFits(us: seq<Unit>, se: nat, parts: seq<seq<Token>>)
    requires forall j :: 0 <= j < |parts| ==> SymbolsFit(us, se, parts[j])
    ensures SymbolsFit(us, se, Flat(parts))
  {
    if parts != [] {
      FlatFits(us, se, parts[1..]);
      FitAppend(us, se, parts[0], Flat(parts[1..]));
    }
  }

  lemma ScanFits(us: seq<Unit>, se: nat, components: nat, mcus: seq<seq<Block>>, r: nat)
    requires se <= 63 && McuShape(us, components, mcus) && InTables(us) && ScanEncodable(us, se, components, mcus, r)
    ensures SymbolsFit(us, se, ScanTokens(us, se, components, mcus, r))
  {
    var parts := Parts(mcus, r);
    PartsShaped(us, components, mcus, r);
    forall j | 0 <= j < |parts|
      ensures SymbolsFit(us, se, McuTokens(us, se, parts[j], NoPredictions(components)))
    {
      McusFit(us, se, parts[j], NoPredictions(components));
    }
    FlatFits(us, se, IntervalTokens(us, se, components, parts));
  }

  lemma ScanOccurs(us: seq<Unit>, se: nat, components: nat, mcus: seq<seq<Block>>, r: nat, t: nat)
    requires se <= 63 && McuShape(us, components, mcus) && mcus != [] && UsedTable(us, t, se)
    ensures Occurs(ScanTokens(us, se, components, mcus, r), t)
  {
    var i :| 0 <= i < |us| && (us[i].dcTab == t || (se > 0 && us[i].acTab == t));
    var parts, last := Parts(mcus, r), NoPredictions(components);
    PartsShaped(us, components, mcus, r);
    var first, tss := parts[0], IntervalTokens(us, se, components, parts);
    StreamOccurs(us, se, first[0], last, i);
    OccursIn(StreamTokens(us, se, first[0], last), McuTokens(us, se, first[1..], LastAfter(us, first[0], last)), t);
    assert tss[0] == McuTokens(us, se, first, last);
    OccursIn(tss[0], Flat(tss[1..]), t);
  }

  // So the statistics of a scan are fit for jpeg_gen_optimal_table, but for their total.
  lemma ScanCountable(us: seq<Unit>, se: nat, components: nat, mcus: seq<seq<Block>>, r: nat, t: nat)
    requires se <= 63 && McuShape(us, components, mcus) && InTables(us) && ScanEncodable(us, se, components, mcus, r)
    requires mcus != [] && UsedTable(us, t, se) && Sum(Statistics(ScanTokens(us, se, components, mcus, r), t)) <= MAX_COUNT
    ensures Countable(Statistics(ScanTokens(us, se, components, mcus, r), t))
  {
    ScanFits(us, se, components, mcus, r);
    ScanOccurs(us, se, components, mcus, r, t);
    InUseCountable(ScanTokens(us, se, components, mcus, r), t);
  }

  // ---- The passes ----

  method GatherScan(us: seq<Unit>, se: nat, components: nat, restartInterval: nat, mcus: seq<seq<Block>>)
    returns (ok: bool, counts: array2<nat>)
    requires se <= 63 && McuShape(us, components, mcus) && InTables(us)
    ensures fresh(counts) && counts.Length0 == NUM_TABLES && counts.Length1 == NUM_SYMBOLS
    ensures ok <==> ScanEncodable(us, se, components, mcus, restartInterval)
    ensures ok ==> SequentialCoder.Counted(counts, ScanTokens(us, se, components, mcus, restartInterval))
  {
    counts := new nat[NUM_TABLES, NUM_SYMBOLS]((_, _) => 0);
    var lastDcVal, togo := new int[components](_ => 0), restartInterval;
    ghost var r, done, cur := restartInterval, [], [];
    assert lastDcVal[..] == NoPredictions(components);
    CoderStarts(us, se, components, r, mcus);
    for i := 0 to |mcus|
      invariant lastDcVal.Length == components
      invariant CoderAt(us, se, components, r, mcus, i, done, cur, lastDcVal[..], togo)
      invariant SequentialCoder.Counted(counts, Flat(TokensSoFar(us, se, components, done, cur)))
    {
      ghost var restart := r > 0 && togo == 0;
      McuStep(us, se, components, r, mcus, i, done, cur, lastDcVal[..], togo, restart,
              if restart then NoPredictions(components) else lastDcVal[..]);
      ok, togo := SequentialCoder.GatherMcu(us, se, mcus[i], lastDcVal, restartInterval, togo, counts,
                                            Flat(TokensSoFar(us, se, components, done, cur)));
      if !ok {
        return;
      }
      done, cur := NextDone(r, done, cur), NextCur(r, cur, mcus[i]);
    }
    CoderEnds(us, se, components, r, mcus, done, cur, lastDcVal[..], togo);
    ok := true;
  }

  ghost predicate EncoderAt(enc: SequentialCoder.Encoder, us: seq<Unit>, mcus: seq<seq<Block>>, i: nat,
                            done: seq<seq<seq<Block>>>, cur: seq<seq<Block>>)
    reads enc, enc.lastDcVal, enc.writer
  {
    var components := enc.lastDcVal.Length;
    && enc.Valid() && enc.Counting() && |enc.codes| == NUM_TABLES
    && CoderAt(us, enc.se, components, enc.restartInterval, mcus, i, done, cur, enc.lastDcVal[..], enc.restartsToGo)
    && enc.AllTokens() == TokensSoFar(us, enc.se, components, done, cur)
  }

  method EncodeNext(enc: SequentialCoder.Encoder, us: seq<Unit>, mcus: seq<seq<Block>>, i: nat,
                    ghost done: seq<seq<seq<Block>>>, ghost cur: seq<seq<Block>>)
    returns (ok: bool)
    requires EncoderAt(enc, us, mcus, i, done, cur) && i < |mcus|
    requires McuShape(us, enc.lastDcVal.Length, mcus) && InTables(us)
    modifies enc, enc.writer, enc.lastDcVal
    ensures if ok
      then EncoderAt(enc, us, mcus, i + 1, NextDone(enc.restartInterval, done, cur), NextCur(enc.restartInterval, cur, mcus[i]))
      else enc.Valid() && !ScanEncodable(us, enc.se, enc.lastDcVal.Length, mcus, enc.restartInterval)
  {
    McuStep(us, enc.se, enc.lastDcVal.Length, enc.restartInterval, mcus, i, done, cur, enc.lastDcVal[..], enc.restartsToGo,
            enc.AtRestart(), enc.Predictions());
    ok := enc.EncodeMcu(us, mcus[i]);
  }

  method EncodeScan(codes: seq<Code>, us: seq<Unit>, se: nat, components: nat, restartInterval: nat, mcus: seq<seq<Block>>)
    returns (ok: bool, enc: SequentialCoder.Encoder)
    requires se <= 63 && McuShape(us, components, mcus) && InTables(us) && |codes| == NUM_TABLES
    requires SequentialCoder.CodesFit(codes)
    ensures fresh(enc) && fresh(enc.writer) && enc.Valid() && enc.codes == codes
    ensures ok <==> ScanEncodable(us, se, components, mcus, restartInterval)
    ensures ok ==> Shaped(us, components, Parts(mcus, restartInterval))
    ensures ok ==> enc.AllTokens() == IntervalTokens(us, se, components, Parts(mcus, restartInterval))
  {
    enc := new SequentialCoder.Encoder(codes, se, components, restartInterval);
    ghost var done, cur := [], [];
    CoderStarts(us, se, components, restartInterval, mcus);
    for i := 0 to |mcus|
      invariant fresh(enc) && fresh(enc.lastDcVal) && fresh(enc.writer) && enc.lastDcVal.Length == components
      invariant EncoderAt(enc, us, mcus, i, done, cur)
    {
      ok := EncodeNext(enc, us, mcus, i, done, cur);
      if !ok {
        return;
      }
      done, cur := NextDone(restartInterval, done, cur), NextCur(restartInterval, cur, mcus[i]);
    }
    CoderEnds(us, se, components, restartInterval, mcus, done, cur, enc.lastDcVal[..], enc.restartsToGo);
    ok := true;
  }

  // A table without symbols.
  function BlankCode(): Code {
    Code(HuffTable(seq(17, _ => 0), seq(256, _ => 0)), seq(256, _ => 0), seq(256, _ => 0))
  }

  // Each symbol that a table was counted for has a code in it.
  ghost predicate Covers(code: Code, ts: seq<Token>, t: nat) {
    && Sound(code) && (t < NUM_DC_TABLES ==> SequentialDecoder.SizesOnly(code.htbl))
    && forall s :: 0 <= s < 256 && CountSymbol(ts, t, s) > 0 ==> code.ehufsi[s] != 0
  }

  // finish_pass_gather for one table.
  method MakeCode(counts: array2<nat>, t: nat, ghost us: seq<Unit>, ghost se: nat, ghost ts: seq<Token>)
    returns (ok: bool, code: Code)
    requires SequentialCoder.Counted(counts, ts) && t < counts.Length0 && SymbolsFit(us, se, ts)
    requires Countable(Statistics(ts, t))
    ensures ok ==> Covers(code, ts, t) && CodeFits(code)
    ensures !ok ==> Sum(Statistics(ts, t)) >= OVERFLOW_COUNT
  {
    var freq := new nat[NUM_SYMBOLS](s requires 0 <= s < NUM_SYMBOLS && counts.Length1 == NUM_SYMBOLS && t < counts.Length0
                                     reads counts => counts[t, s]);
    assert freq[..][PSEUDO_SYMBOL := 1] == Statistics(ts, t);
    if t < NUM_DC_TABLES {
      forall s | 16 <= s < 256
        ensures freq[s] == 0
      {
        Uncounted(ts, t, s);
      }
    }
    ghost var count := freq[..];
    ok, code := MakeOptimalCode(freq, t < NUM_DC_TABLES);
    assert ok ==> forall s :: 0 <= s < 256 && CountSymbol(ts, t, s) > 0 ==> count[s] > 0;
  }

  // What the output pass and the decoder need of the tables.
  ghost predicate Prepared(codes: seq<Code>, us: seq<Unit>, se: nat, ts: seq<Token>) {
    SequentialCoder.CodesFit(codes) &&
    forall t :: 0 <= t < |codes| ==> IsTable(codes[t].htbl) && (UsedTable(us, t, se) ==> Covers(codes[t], ts, t))
  }

  // finish_pass_gather: one table after another, skipping those that no block uses.
  method MakeCodes(counts: array2<nat>, us: seq<Unit>, se: nat, ghost ts: seq<Token>)
    returns (ok: bool, codes: seq<Code>, ghost bad: nat)
    requires SequentialCoder.Counted(counts, ts) && counts.Length0 == NUM_TABLES && SymbolsFit(us, se, ts)
    requires forall t :: 0 <= t < NUM_TABLES && UsedTable(us, t, se) ==> Countable(Statistics(ts, t))
    ensures ok ==> |codes| == NUM_TABLES && Prepared(codes, us, se, ts)
    ensures !ok ==> UsedTable(us, bad, se) && Sum(Statistics(ts, bad)) >= OVERFLOW_COUNT
  {
    codes, bad := [], 0;
    for t := 0 to NUM_TABLES
      invariant |codes| == t && Prepared(codes, us, se, ts)
    {
      var code := BlankCode();
      if UsedTable(us, t, se) {
        ok, code := MakeCode(counts, t, us, se, ts);
        if !ok {
          return false, codes, t;
        }
      }
      codes := codes + [code];
    }
    ok := true;
  }

  lemma PreparedFor(codes: seq<Code>, us: seq<Unit>, se: nat, ts: seq<Token>)
    requires |codes| == NUM_TABLES && Prepared(codes, us, se, ts) && SymbolsFit(us, se, ts) && InTables(us)
    ensures AllCodesFor(codes, us, se) && Emittable(codes, ts) && SequentialDecoder.Usable(Tables(codes), us, se)
  {
    forall i | 0 <= i < |us|
      ensures CodesFor(codes, us[i], se) && SequentialDecoder.SizesOnly(codes[us[i].dcTab].htbl)
    {
      assert UsedTable(us, us[i].dcTab, se) && (se > 0 ==> UsedTable(us, us[i].acTab, se));
    }
    forall i | 0 <= i < |ts|
      ensures HasCode(codes, ts[i])
    {
      if ts[i].Symbol? {
        assert UsedTable(us, ts[i].tab, se);
        CountPositive(ts, ts[i].tab, ts[i].sym, i);
      }
    }
  }

  // ---- From blocks to bytes and back ----

  // What the bytes of a scan, and the tables sent before it, tell a decoder.
  ghost predicate Encoded(codes: seq<Code>, us: seq<Unit>, se: nat, components: nat, r: nat, mcus: seq<seq<Block>>,
                          segs: seq<seq<byte>>)
    requires se <= 63 && McuShape(us, components, mcus)
  {
    PartsShaped(us, components, mcus, r);
    var tss := IntervalTokens(us, se, components, Parts(mcus, r));
    && AllCodesFor(codes, us, se) && SequentialDecoder.Usable(Tables(codes), us, se)
    && (forall t :: 0 <= t < |codes| ==> IsTable(codes[t].htbl))
    && ScanEncodable(us, se, components, mcus, r) && AllEmittable(codes, tss) && Carries(codes, tss, segs)
  }

  // An interval whose beginning is found comes back, whatever follows its bits.
  lemma IntervalKept(codes: seq<Code>, us: seq<Unit>, se: nat, components: nat, r: nat, mcus: seq<seq<Block>>,
                     segs: seq<seq<byte>>, needed: seq<bool>, k: nat, pos: Position)
    requires se <= 63 && McuShape(us, components, mcus) && Encoded(codes, us, se, components, r, mcus, segs)
    requires |needed| == components && Layout(us, se, needed) && k < |Parts(mcus, r)| && k < |segs| && Found(pos, segs[k])
    ensures var g, part := Setup(Tables(codes), us, se, components), Parts(mcus, r)[k];
      Proper(g) && Clean(g, pos, |part|) && McusKept(us, se, part, IntervalRead(g, pos, |part|).mcus)
  {
    PartsShaped(us, components, mcus, r);
    var part, first := Parts(mcus, r)[k], NoPredictions(components);
    var tss := IntervalTokens(us, se, components, Parts(mcus, r));
    var ts := McuTokens(us, se, part, first);
    assert tss[k] == ts && FilledUp(Flatten(codes, ts), segs[k]);
    var n: nat :| n < 8 && BytesToBits(segs[k]) == Flatten(codes, ts) + LowBits(0x7F, 7)[..n];
    var ones, tail := LowBits(0x7F, 7)[..n], BitsAt(pos)[|BytesToBits(segs[k])|..];
    assert BitsAt(pos) == BytesToBits(segs[k]) + tail;
    Reassociate(Flatten(codes, ts), ones, tail);
    var kept := McusRoundTrip(codes, us, se, part, needed, first, first, ones + tail);
  }

  // What is wanted of the decoder's result.
  ghost predicate AllSurvive(us: seq<Unit>, se: nat, r: nat, mcus: seq<seq<Block>>, result: seq<seq<Block>>, d: Damage) {
    && |Parts(result, r)| == |Parts(mcus, r)|
    && forall k :: 0 <= k < |Parts(mcus, r)| && Survives(d, k) ==> McusKept(us, se, Parts(mcus, r)[k], Parts(result, r)[k])
  }

  lemma IntervalSurvives(codes: seq<Code>, us: seq<Unit>, se: nat, components: nat, r: nat, mcus: seq<seq<Block>>,
                         segs: seq<seq<byte>>, needed: seq<bool>, k: nat, pos: Position, part: seq<seq<Block>>, warned: bool)
    requires se <= 63 && McuShape(us, components, mcus) && Encoded(codes, us, se, components, r, mcus, segs)
    requires |needed| == components && Layout(us, se, needed) && k < |Parts(mcus, r)| && k < |segs| && Found(pos, segs[k])
    requires Proper(Setup(Tables(codes), us, se, components)) && |part| == |Parts(mcus, r)[k]|
    requires Faithful(Setup(Tables(codes), us, se, components), pos, part, warned)
    ensures McusKept(us, se, Parts(mcus, r)[k], part)
  {
    IntervalKept(codes, us, se, components, r, mcus, segs, needed, k, pos);
  }

  lemma ScanSurvives(codes: seq<Code>, us: seq<Unit>, se: nat, components: nat, r: nat, mcus: seq<seq<Block>>,
                     segs: seq<seq<byte>>, needed: seq<bool>, d: Damage, final: byte, after: seq<byte>,
                     result: seq<seq<Block>>, warned: bool)
    requires se <= 63 && McuShape(us, components, mcus) && Encoded(codes, us, se, components, r, mcus, segs)
    requires |needed| == components && Layout(us, se, needed) && |result| == |mcus|
    requires segs != [] && Received(|segs|, d, final) && Proper(Setup(Tables(codes), us, se, components))
    requires ScanRead(Setup(Tables(codes), us, se, components), At(0, Damaged(segs, final, after, d)), Parts(result, r), warned)
    ensures AllSurvive(us, se, r, mcus, result, d) && (d.Intact? ==> !warned)
  {
    var g, start := Setup(Tables(codes), us, se, components), At(0, Damaged(segs, final, after, d));
    IntervalCount(mcus, r);
    IntervalCount(result, r);
    forall k | 0 <= k < |Parts(mcus, r)| && Survives(d, k)
      ensures McusKept(us, se, Parts(mcus, r)[k], Parts(result, r)[k]) && Clean(g, Walk(start, 0, k), |Parts(result, r)[k]|)
    {
      DamageContained(segs, final, after, d, k);
      SameCut(mcus, result, r, k);
      IntervalKept(codes, us, se, components, r, mcus, segs, needed, k, Walk(start, 0, k));
      assert Faithful(g, Walk(start, 0, k), Parts(result, r)[k], warned);
      IntervalSurvives(codes, us, se, components, r, mcus, segs, needed, k, Walk(start, 0, k), Parts(result, r)[k], warned);
    }
  }

  // Statistics pass, and the tables made from it.
  method MakeTables(us: seq<Unit>, se: nat, components: nat, restartInterval: nat, mcus: seq<seq<Block>>)
    returns (ok: bool, codes: seq<Code>, ghost bad: nat)
    requires se <= 63 && McuShape(us, components, mcus) && InTables(us) && mcus != []
    requires ScanEncodable(us, se, components, mcus, restartInterval)
    requires var ts := ScanTokens(us, se, components, mcus, restartInterval);
      forall t :: 0 <= t < NUM_TABLES && UsedTable(us, t, se) ==> Sum(Statistics(ts, t)) <= MAX_COUNT
    ensures ok ==> |codes| == NUM_TABLES && Prepared(codes, us, se, ScanTokens(us, se, components, mcus, restartInterval))
    ensures !ok ==> Sum(Statistics(ScanTokens(us, se, components, mcus, restartInterval), bad)) >= OVERFLOW_COUNT
  {
    ghost var ts := ScanTokens(us, se, components, mcus, restartInterval);
    var counts;
    ok, counts := GatherScan(us, se, components, restartInterval, mcus);
    ScanFits(us, se, components, mcus, restartInterval);
    forall t | 0 <= t < NUM_TABLES && UsedTable(us, t, se)
      ensures Countable(Statistics(ts, t))
    {
      ScanCountable(us, se, components, mcus, restartInterval, t);
    }
    ok, codes, bad := MakeCodes(counts, us, se, ts);
  }

  // Output pass.
  method OutputScan(codes: seq<Code>, us: seq<Unit>, se: nat, components: nat, restartInterval: nat, mcus: seq<seq<Block>>)
    returns (bytes: seq<byte>, ghost segs: seq<seq<byte>>)
    requires se <= 63 && McuShape(us, components, mcus) && InTables(us) && |codes| == NUM_TABLES
    requires ScanEncodable(us, se, components, mcus, restartInterval)
    requires Prepared(codes, us, se, ScanTokens(us, se, components, mcus, restartInterval))
    ensures Encoded(codes, us, se, components, restartInterval, mcus, segs) && segs != [] && bytes == ScanBytes(segs)
  {
    ghost var ts := ScanTokens(us, se, components, mcus, restartInterval);
    ScanFits(us, se, components, mcus, restartInterval);
    PreparedFor(codes, us, se, ts);
    var ok, enc := EncodeScan(codes, us, se, components, restartInterval, mcus);
    FlatEmittable(codes, enc.AllTokens());
    segs := enc.FinishPass();
    bytes := enc.writer.out;
  }

  // The decoder of bytes that may have been damaged: every interval that survives is decoded, as far as
  // the decoder is to keep coefficients; and without damage there is no warning.
  method DecodeReceived(codes: seq<Code>, us: seq<Unit>, se: nat, components: nat, restartInterval: nat, n: nat,
                        input: seq<byte>, cuts: seq<nat>, ghost mcus: seq<seq<Block>>, ghost needed: seq<bool>,
                        ghost segs: seq<seq<byte>>, ghost d: Damage, ghost final: byte, ghost after: seq<byte>)
    returns (result: seq<seq<Block>>, warned: bool)
    requires se <= 63 && McuShape(us, components, mcus) && n == |mcus|
    requires Encoded(codes, us, se, components, restartInterval, mcus, segs) && segs != []
    requires |needed| == components && Layout(us, se, needed)
    requires Received(|segs|, d, final) && input == Damaged(segs, final, after, d)
    ensures |result| == n && AllSurvive(us, se, restartInterval, mcus, result, d)
    ensures d.Intact? ==> !warned
  {
    IntervalCount(mcus, restartInterval);
    DamageSupplied(segs, final, after, d);
    var ok;
    ok, result, warned := DecodeScan(Tables(codes), us, se, components, restartInterval, n, input, cuts);
    ScanSurvives(codes, us, se, components, restartInterval, mcus, segs, needed, d, final, after, result, warned);
  }

  lemma {:induction false} PartsKept(us: seq<Unit>, se: nat, r: nat, mcus: seq<seq<Block>>, result: seq<seq<Block>>)
    requires |result| == |mcus| && AllSurvive(us, se, r, mcus, result, Intact)
    ensures McusKept(us, se, mcus, result)
    decreases |mcus|
  {
    assert McusKept(us, se, Parts(mcus, r)[0], Parts(result, r)[0]) by {
      assert Survives(Intact, 0);
    }
    if r != 0 && |mcus| > r {
      var later, later' := Parts(mcus[r..], r), Parts(result[r..], r);
      forall k | 0 <= k < |later|
        ensures McusKept(us, se, later[k], later'[k])
      {
        assert Survives(Intact, k + 1) && later[k] == Parts(mcus, r)[k + 1] && later'[k] == Parts(result, r)[k + 1];
      }
      PartsKept(us, se, r, mcus[r..], result[r..]);
      McusKeptAppend(us, se, mcus[..r], result[..r], mcus[r..], result[r..]);
      assert mcus == mcus[..r] + mcus[r..] && result == result[..r] + result[r..];
    }
  }

  lemma McusKeptAppend(us: seq<Unit>, se: nat, a: seq<seq<Block>>, a': seq<seq<Block>>, b: seq<seq<Block>>, b': seq<seq<Block>>)
    requires McusKept(us, se, a, a') && McusKept(us, se, b, b')
    ensures McusKept(us, se, a + b, a' + b')
  {
  }

  // For any blocks in range and any restart interval: the output pass never meets a symbol without a
  // code; its bytes, ended by any marker and arriving in any pieces, are decoded without a warning; and
  // the decoder gives every coefficient back that it is asked to keep.  The only failure is a code length
  // above 32.
  method OptimisedSequential(us: seq<Unit>, se: nat, components: nat, restartInterval: nat, mcus: seq<seq<Block>>,
                             ghost needed: seq<bool>, marker: byte, after: seq<byte>, cuts: seq<nat>)
    returns (ok: bool, bytes: seq<byte>, result: seq<seq<Block>>, warned: bool, ghost bad: nat)
    requires se <= 63 && McuShape(us, components, mcus) && InTables(us)
    requires |needed| == components && Layout(us, se, needed)
    requires ScanEncodable(us, se, components, mcus, restartInterval)
    requires var ts := ScanTokens(us, se, components, mcus, restartInterval);
      forall t :: 0 <= t < NUM_TABLES && UsedTable(us, t, se) ==> Sum(Statistics(ts, t)) <= MAX_COUNT
    requires marker != 0 && marker != 0xFF
    ensures ok ==> McusKept(us, se, mcus, result) && !warned
    ensures !ok ==> Sum(Statistics(ScanTokens(us, se, components, mcus, restartInterval), bad)) >= OVERFLOW_COUNT
  {
    bytes, warned, bad := [], false, 0;
    if mcus == [] {
      return true, bytes, [], warned, bad;
    }
    var codes;
    ok, codes, bad := MakeTables(us, se, components, restartInterval, mcus);
    if !ok {
      return false, bytes, mcus, warned, bad;
    }
    ghost var segs;
    bytes, segs := OutputScan(codes, us, se, components, restartInterval, mcus);
    ScanBytesThen(segs, marker, after);
    result, warned := DecodeReceived(codes, us, se, components, restartInterval, |mcus|, bytes + ([0xFF, marker] + after), cuts,
                                     mcus, needed, segs, Intact, marker, after);
    PartsKept(us, se, restartInterval, mcus, result);
  }
}
