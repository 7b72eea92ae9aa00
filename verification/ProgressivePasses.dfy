// A progressive AC scan through both passes of the encoder and through the decoder.
module ProgressivePasses {
  import opened Numerals
  import opened CanonicalCode
  import opened BitWriter
  import opened HuffmanOptimality
  import opened HuffmanLengths
  import opened GenOptimalTable
  import opened HuffmanTableProperties
  import opened TokenStream
  import opened OptimalCode
  import opened ACScan
  import opened ACFirst
  import opened ACRefine
  import opened ACRefineRoundTrip
  import opened ProgressiveScan
  import opened ProgressiveIntervals
  import opened RestartStream
  import opened CodedSegments
  import opened ProgressiveSuspend
  import opened ProgressiveReading
  import opened RestartReader
  import opened RestartIntervals
  import opened DamagedStream
  import RunLength
  import ProgressiveEncoder

  // A first scan fails on coefficients that are out of range.
  ghost predicate AllRepresentable(sc: Scan, cs: seq<Block>)
    requires IsScan(sc)
  {
    sc.first ==> forall i :: 0 <= i < |cs| ==> Representable(sc, cs[i])
  }

  lemma RepresentableNext(sc: Scan, cs: seq<Block>, i: nat)
    requires IsScan(sc) && i < |cs| && AllRepresentable(sc, cs[..i])
    ensures AllRepresentable(sc, cs[..i + 1]) <==> (sc.first ==> Representable(sc, cs[i]))
    ensures AllRepresentable(sc, cs) ==> (sc.first ==> Representable(sc, cs[i]))
  {
    assert cs[..i + 1] == cs[..i] + [cs[i]];
    assert cs[..i + 1][i] == cs[i];
  }

  // The encoder has coded i blocks: the intervals done, and cur of another.
  ghost predicate EncoderAt(enc: ProgressiveEncoder.Encoder, sc: Scan, cs: seq<Block>, i: nat, done: seq<seq<Block>>,
                            cur: seq<Block>)
    reads enc, enc.counts, enc.bitBuffer, enc.writer
  {
    && IsScan(sc) && enc.Valid() && enc.Counting() && enc.tab == sc.tab
    && RunOk(enc.Pending()) && (sc.first ==> enc.be == 0)
    && CoderAt(sc, enc.restartInterval, cs, i, done, cur, enc.parts, enc.tokens, enc.Pending(), enc.restartsToGo)
  }

  // The choice of routine that start_pass makes.
  method EncodeBlock(enc: ProgressiveEncoder.Encoder, sc: Scan, c: Block) returns (ok: bool)
    requires enc.Valid() && IsScan(sc) && sc.tab == enc.tab && RunOk(enc.Pending()) && (sc.first ==> enc.be == 0)
    modifies enc.writer, enc`missingCode, enc`tokens, enc`eobrun, enc`be, enc.counts, enc.bitBuffer
    ensures enc.Valid() && (ok <==> (sc.first ==> Representable(sc, c)))
    ensures ok ==> RunOk(enc.Pending()) && (sc.first ==> enc.be == 0)
    ensures ok ==> enc.tokens == old(enc.tokens) + BlockTokens(enc.tab, old(enc.Pending()), CodeBlock(sc, c))
    ensures ok ==> enc.Pending() == NextRun(old(enc.Pending()), CodeBlock(sc, c))
  {
    if sc.first {
      ok := enc.EncodeMcuACFirst(sc, c);
    } else {
      enc.EncodeMcuACRefine(sc, c);
      ok := true;
    }
  }

  // All of the routine, with the beginning and the end that are common to all of them.
  method EncodeMcu(enc: ProgressiveEncoder.Encoder, sc: Scan, c: Block) returns (ok: bool)
    requires enc.Valid() && enc.Counting() && IsScan(sc) && sc.tab == enc.tab && RunOk(enc.Pending()) && (sc.first ==> enc.be == 0)
    modifies enc, enc.counts, enc.bitBuffer, enc.writer
    ensures enc.Valid() && (ok <==> (sc.first ==> Representable(sc, c)))
    ensures ok ==> enc.Counting() && RunOk(enc.Pending()) && (sc.first ==> enc.be == 0)
    ensures ok ==> McuEncoded(sc, enc.restartInterval, c, old(enc.parts), old(enc.tokens), old(enc.Pending()), old(enc.restartsToGo),
                              enc.parts, enc.tokens, enc.Pending(), enc.restartsToGo)
  {
    enc.BeginMcu();
    ok := EncodeBlock(enc, sc, c);
    if ok {
      enc.EndMcu();
    }
  }

  // What a call for one MCU does.
  ghost predicate McuEncoded(sc: Scan, r: nat, c: Block, parts: seq<seq<Token>>, ts: seq<Token>, run: Run, togo: nat,
                             parts': seq<seq<Token>>, ts': seq<Token>, run': Run, togo': nat)
    requires IsScan(sc)
  {
    var mid, midRun := if r > 0 && togo == 0 then [] else ts, if r > 0 && togo == 0 then FreshRun() else run;
    && Restarts(sc.tab, r, parts, ts, run, togo, parts', mid, midRun) && togo' == LeftAfter(r, togo)
    && ts' == mid + BlockTokens(sc.tab, midRun, CodeBlock(sc, c)) && run' == NextRun(midRun, CodeBlock(sc, c))
  }

  method EncodeNext(enc: ProgressiveEncoder.Encoder, sc: Scan, cs: seq<Block>, i: nat, ghost done: seq<seq<Block>>,
                    ghost cur: seq<Block>)
    returns (ok: bool)
    requires EncoderAt(enc, sc, cs, i, done, cur) && i < |cs|
    modifies enc, enc.counts, enc.bitBuffer, enc.writer
    ensures enc.Valid() && (ok <==> (sc.first ==> Representable(sc, cs[i])))
    ensures ok ==> EncoderAt(enc, sc, cs, i + 1, NextDone(enc.restartInterval, done, cur), NextCur(enc.restartInterval, cur, cs[i]))
  {
    ghost var parts, tokens, run, togo := enc.parts, enc.tokens, enc.Pending(), enc.restartsToGo;
    ok := EncodeMcu(enc, sc, cs[i]);
    if ok {
      ghost var restart := enc.restartInterval > 0 && togo == 0;
      CoderStep(sc, enc.restartInterval, cs, i, done, cur, parts, tokens, run, togo,
                enc.parts, if restart then [] else tokens, if restart then FreshRun() else run);
    }
  }

  // Every MCU of a scan, then the end of the pass.
  method EncodeScan(codes: seq<Code>, sc: Scan, gather: bool, restartInterval: nat, cs: seq<Block>)
    returns (ok: bool, enc: ProgressiveEncoder.Encoder, ghost segs: seq<seq<byte>>)
    requires IsScan(sc) && sc.tab < |codes| && CodeFits(codes[sc.tab])
    ensures ok <==> AllRepresentable(sc, cs)
    ensures fresh(enc) && fresh(enc.counts) && fresh(enc.writer) && enc.counts.Length == NUM_SYMBOLS
    ensures ok && gather ==> Statistics(AllTokens(sc, cs, restartInterval), sc.tab) == enc.counts[..][PSEUDO_SYMBOL := 1]
    ensures ok && !gather ==> segs != [] && enc.writer.out == ScanBytes(segs)
    ensures ok && !gather ==> Behind(codes, IntervalTokens(sc, Parts(cs, restartInterval)), segs)
  {
    enc := new ProgressiveEncoder.Encoder(codes, sc.tab, gather, restartInterval);
    segs := [];
    ghost var done, cur := [], [];
    CoderStarts(sc, restartInterval, cs);
    for i := 0 to |cs|
      invariant fresh(enc) && fresh(enc.counts) && fresh(enc.bitBuffer) && fresh(enc.writer) && enc.codes == codes
      invariant enc.gatherStatistics == gather && enc.restartInterval == restartInterval
      invariant EncoderAt(enc, sc, cs, i, done, cur) && AllRepresentable(sc, cs[..i])
    {
      RepresentableNext(sc, cs, i);
      ok := EncodeNext(enc, sc, cs, i, done, cur);
      if !ok {
        return;
      }
      done, cur := NextDone(restartInterval, done, cur), NextCur(restartInterval, cur, cs[i]);
    }
    assert cs[..|cs|] == cs;
    CoderEnds(sc, restartInterval, cs, done, cur, enc.parts, enc.tokens, enc.Pending(), enc.restartsToGo);
    segs := enc.FinishPass();
    if gather {
      StatisticsAre(sc, cs, restartInterval, enc.parts, enc.tokens, enc.counts[..]);
    }
    ok := true;
  }

  lemma StatisticsAre(sc: Scan, cs: seq<Block>, r: nat, parts: seq<seq<Token>>, ts: seq<Token>, counts: seq<nat>)
    requires IsScan(sc) && parts + [ts] == IntervalTokens(sc, Parts(cs, r))
    requires ProgressiveEncoder.CountsAre(counts, Flat(parts), ts, sc.tab)
    ensures Statistics(AllTokens(sc, cs, r), sc.tab) == counts[PSEUDO_SYMBOL := 1]
  {
    FlatSnoc(parts, ts);
    forall s | 0 <= s < 256
      ensures CountSymbol(AllTokens(sc, cs, r), sc.tab, s) == counts[s]
    {
      CountAppend(Flat(parts), ts, sc.tab, s);
    }
  }

  // A stream whose symbols all come from one table is emittable with a code for every counted symbol.
  lemma CountedIsEmittable(codes: seq<Code>, ts: seq<Token>, tab: nat)
    requires tab < |codes| && |codes[tab].ehufco| == |codes[tab].ehufsi| == 256
    requires OneTable(ts, tab)
    requires forall s :: 0 <= s < 256 && CountSymbol(ts, tab, s) > 0 ==> codes[tab].ehufsi[s] != 0
    ensures Emittable(codes, ts)
  {
    forall i | 0 <= i < |ts|
      ensures HasCode(codes, ts[i])
    {
      if ts[i].Symbol? {
        CountPositive(ts, tab, ts[i].sym, i);
      }
    }
  }

  predicate OneTable(ts: seq<Token>, tab: nat) {
    forall i :: 0 <= i < |ts| && ts[i].Symbol? ==>
      ts[i].tab == tab && ts[i].sym < 256 && ts[i].sym % 16 <= RunLength.MAX_COEF_BITS
  }

  lemma OneTableAppend(ts: seq<Token>, us: seq<Token>, tab: nat)
    requires OneTable(ts, tab) && OneTable(us, tab)
    ensures OneTable(ts + us, tab)
  {
  }

  lemma {:induction false} RunsOneTable(tab: nat, v: Block, k: nat, se: nat, r: nat)
    requires k <= se + 1 <= 64 && RunLength.InRange(v, k, se)
    ensures OneTable(RunLength.CodeRuns(tab, v, k, se, r).tokens, tab)
    decreases se + 1 - k, r
  {
    if k <= se {
      if v[k] == 0 {
        RunsOneTable(tab, v, k + 1, se, r + 1);
      } else if r > 15 {
        RunsOneTable(tab, v, k, se, r - 16);
      } else {
        RunsOneTable(tab, v, k + 1, se, 0);
        DivModIs(r * 16 + RunLength.NumBits(v[k]), r, 16, RunLength.NumBits(v[k]));
      }
    }
  }

  lemma BlockOneTable(sc: Scan, c: Block)
    requires IsScan(sc) && (sc.first ==> Representable(sc, c))
    ensures OneTable(CodeBlock(sc, c).tokens, sc.tab)
  {
    if sc.first {
      RunsOneTable(sc.tab, Shifted(c, sc.p), sc.ss, sc.se, 0);
    } else {
      CodeOneTable(sc, c, AbsValues(c, sc.p), sc.ss, 0, []);
    }
  }

  lemma {:induction false} CodeOneTable(sc: Scan, c: Block, a: Mags, k: nat, r: nat, br: seq<bit>)
    requires IsScan(sc) && k <= sc.se + 1
    ensures OneTable(CodeFrom(sc, c, a, k, r, br).tokens, sc.tab)
    decreases sc.se + 1 - k, r
  {
    if k <= sc.se {
      if a[k] == 0 {
        CodeOneTable(sc, c, a, k + 1, r + 1, br);
      } else if r > 15 && OneAhead(sc, a, k) {
        CodeOneTable(sc, c, a, k, r - 16, []);
      } else if a[k] > 1 {
        CodeOneTable(sc, c, a, k + 1, r, br + [a[k] % 2]);
      } else {
        CodeOneTable(sc, c, a, k + 1, 0, []);
      }
    }
  }

  lemma EobOneTable(tab: nat, e: nat, buf: seq<bit>)
    requires e <= 0x7FFF
    ensures OneTable(EobTokens(tab, e, buf), tab)
  {
    if e > 0 {
      RunCategory(e);
      DivModIs(Log2(e) * 16, Log2(e), 16, 0);
    }
  }

  lemma {:induction false} ScanOneTable(sc: Scan, run: Run, cs: seq<Block>)
    requires IsScan(sc) && RunOk(run) && AllRepresentable(sc, cs)
    ensures OneTable(ScanTokens(sc, run, cs), sc.tab)
    decreases |cs|
  {
    EobOneTable(sc.tab, run.eobrun, run.buf);
    if cs != [] {
      var coded := CodeBlock(sc, cs[0]);
      BlockOneTable(sc, cs[0]);
      RunKept(sc, run, cs[0]);
      var before := if coded.tokens == [] then run else FreshRun();
      EobOneTable(sc.tab, before.eobrun + 1, before.buf + coded.br);
      ScanOneTable(sc, NextRun(run, coded), cs[1..]);
      OneTableAppend(BlockTokens(sc.tab, run, coded), ScanTokens(sc, NextRun(run, coded), cs[1..]), sc.tab);
    }
  }

  // ---- A scan has a symbol counted for it ----

  lemma EobOccurs(tab: nat, e: nat, buf: seq<bit>)
    requires e > 0
    ensures Occurs(EobTokens(tab, e, buf), tab)
  {
    assert EobTokens(tab, e, buf)[0] == Symbol(tab, Log2(e) * 16);
  }

  lemma {:induction false} RunsOccur(tab: nat, v: Block, k: nat, se: nat, r: nat)
    requires k <= se + 1 <= 64 && RunLength.CodeRuns(tab, v, k, se, r).tokens != []
    ensures Occurs(RunLength.CodeRuns(tab, v, k, se, r).tokens, tab)
    decreases se + 1 - k, r
  {
    if k <= se {
      if v[k] == 0 {
        RunsOccur(tab, v, k + 1, se, r + 1);
      } else if r > 15 {
        assert RunLength.CodeRuns(tab, v, k, se, r).tokens[0] == Symbol(tab, 0xF0);
      } else {
        assert RunLength.CodeRuns(tab, v, k, se, r).tokens[0] == Symbol(tab, r * 16 + RunLength.NumBits(v[k]));
      }
    }
  }

  lemma {:induction false} CodeOccurs(sc: Scan, c: Block, a: Mags, k: nat, r: nat, br: seq<bit>)
    requires IsScan(sc) && k <= sc.se + 1 && CodeFrom(sc, c, a, k, r, br).tokens != []
    ensures Occurs(CodeFrom(sc, c, a, k, r, br).tokens, sc.tab)
    decreases sc.se + 1 - k, r
  {
    if k <= sc.se {
      if a[k] == 0 {
        CodeOccurs(sc, c, a, k + 1, r + 1, br);
      } else if r > 15 && OneAhead(sc, a, k) {
        assert CodeFrom(sc, c, a, k, r, br).tokens[0] == Symbol(sc.tab, 0xF0);
      } else if a[k] > 1 {
        CodeOccurs(sc, c, a, k + 1, r, br + [a[k] % 2]);
      } else {
        assert CodeFrom(sc, c, a, k, r, br).tokens[0] == Symbol(sc.tab, r * 16 + 1);
      }
    }
  }

  lemma BlockOccurs(sc: Scan, c: Block)
    requires IsScan(sc) && CodeBlock(sc, c).tokens != []
    ensures Occurs(CodeBlock(sc, c).tokens, sc.tab)
  {
    if sc.first {
      RunsOccur(sc.tab, Shifted(c, sc.p), sc.ss, sc.se, 0);
    } else {
      CodeOccurs(sc, c, AbsValues(c, sc.p), sc.ss, 0, []);
    }
  }

  // A block emits symbols of its own or joins a run, and the end of the pass emits the last run.
  lemma {:induction false} ScanOccurs(sc: Scan, run: Run, cs: seq<Block>)
    requires IsScan(sc) && (run.eobrun > 0 || cs != [])
    ensures Occurs(ScanTokens(sc, run, cs), sc.tab)
    decreases |cs|
  {
    if cs == [] {
      EobOccurs(sc.tab, run.eobrun, run.buf);
    } else {
      var coded := CodeBlock(sc, cs[0]);
      var own, later := BlockTokens(sc.tab, run, coded), ScanTokens(sc, NextRun(run, coded), cs[1..]);
      if coded.tokens != [] {
        BlockOccurs(sc, cs[0]);
        OwnOccurs(sc.tab, run, coded);
      } else {
        WithoutTokens(sc, cs[0]);
        var after := Run(run.eobrun + 1, run.buf + coded.br);
        if MustEmit(after) {
          EobOccurs(sc.tab, after.eobrun, after.buf);
          assert [] + EobTokens(sc.tab, after.eobrun, after.buf) == EobTokens(sc.tab, after.eobrun, after.buf);
        } else {
          ScanOccurs(sc, NextRun(run, coded), cs[1..]);
        }
      }
      OccursIn(own, later, sc.tab);
    }
  }

  lemma OwnOccurs(tab: nat, run: Run, coded: Coded)
    requires Occurs(coded.tokens, tab)
    ensures Occurs(BlockTokens(tab, run, coded), tab)
  {
    var head := EobTokens(tab, run.eobrun, run.buf) + coded.tokens;
    OccursIn(EobTokens(tab, run.eobrun, run.buf), coded.tokens, tab);
    OccursIn(head, EobTokens(tab, 1, coded.br), tab);
    assert BlockTokens(tab, run, coded) == head || BlockTokens(tab, run, coded) == head + EobTokens(tab, 1, [] + coded.br);
    assert [] + coded.br == coded.br;
  }

  // ---- All intervals of a scan ----

  lemma PartsRepresentable(sc: Scan, cs: seq<Block>, r: nat, j: nat)
    requires IsScan(sc) && AllRepresentable(sc, cs) && j < |Parts(cs, r)|
    ensures AllRepresentable(sc, Parts(cs, r)[j])
  {
    forall i | 0 <= i < |Parts(cs, r)[j]|
      ensures Parts(cs, r)[j][i] in cs
    {
      PartsIn(cs, r, j, i);
    }
  }

  lemma {:induction false} FlatOneTable(parts: seq<seq<Token>>, tab: nat)
    requires forall j :: 0 <= j < |parts| ==> OneTable(parts[j], tab)
    ensures OneTable(Flat(parts), tab)
  {
    if parts != [] {
      FlatOneTable(parts[1..], tab);
      OneTableAppend(parts[0], Flat(parts[1..]), tab);
    }
  }

  lemma AllOneTable(sc: Scan, cs: seq<Block>, r: nat)
    requires IsScan(sc) && AllRepresentable(sc, cs)
    ensures OneTable(AllTokens(sc, cs, r), sc.tab)
  {
    var parts := Parts(cs, r);
    forall j | 0 <= j < |parts|
      ensures OneTable(IntervalTokens(sc, parts)[j], sc.tab)
    {
      PartsRepresentable(sc, cs, r, j);
      ScanOneTable(sc, FreshRun(), parts[j]);
    }
    FlatOneTable(IntervalTokens(sc, parts), sc.tab);
  }

  // So the statistics of a scan are fit for jpeg_gen_optimal_table, but for their total.
  lemma ScanCountable(sc: Scan, cs: seq<Block>, r: nat)
    requires IsScan(sc) && cs != [] && AllRepresentable(sc, cs)
    requires Sum(Statistics(AllTokens(sc, cs, r), sc.tab)) <= MAX_COUNT
    ensures Countable(Statistics(AllTokens(sc, cs, r), sc.tab))
  {
    var tss := IntervalTokens(sc, Parts(cs, r));
    AllOneTable(sc, cs, r);
    ScanOccurs(sc, FreshRun(), Parts(cs, r)[0]);
    OccursIn(tss[0], Flat(tss[1..]), sc.tab);
    InUseCountable(AllTokens(sc, cs, r), sc.tab);
  }

  // ---- Before the scan ----

  // Coefficients that lack their last known bit can be refined.
  lemma HeldIsRefinable(sc: Scan, c: Block, z: Block)
    requires IsScan(sc) && Held(sc, c, z)
    ensures Refinable(sc, z)
  {
    if !sc.first {
      forall n | sc.ss <= n <= sc.se
        ensures z[n] % (2 * sc.p) == 0
      {
        var q := if c[n] < 0 then -(Mag(c[n], 2 * sc.p) as int) else Mag(c[n], 2 * sc.p);
        NegatedProduct(Mag(c[n], 2 * sc.p), 2 * sc.p);
        DivModIs(z[n], q, 2 * sc.p, 0);
      }
    }
  }

  // ---- From blocks to bytes and back ----

  // What the bytes of a scan, and the table sent before it, tell a decoder.
  ghost predicate Encoded(codes: seq<Code>, sc: Scan, r: nat, cs: seq<Block>, segs: seq<seq<byte>>) {
    && Setting(sc, codes) && IsTable(codes[sc.tab].htbl)
    && AllEmittable(codes, IntervalTokens(sc, Parts(cs, r))) && Carries(codes, IntervalTokens(sc, Parts(cs, r)), segs)
  }

  // An interval whose beginning is found comes out as it should, whatever follows its bits.
  lemma IntervalKept(codes: seq<Code>, sc: Scan, r: nat, cs: seq<Block>, zs: seq<Block>, segs: seq<seq<byte>>, k: nat,
                     pos: Position)
    requires Encoded(codes, sc, r, cs, segs) && k < |Parts(cs, r)| == |Parts(zs, r)| && k < |segs| && Found(pos, segs[k])
    requires AllHeld(sc, Parts(cs, r)[k], Parts(zs, r)[k])
    ensures var g := Setup(sc, codes[sc.tab].htbl);
      Proper(g) && Clean(g, pos, Parts(zs, r)[k]) &&
      IntervalRead(g, pos, Parts(zs, r)[k]).zs == Targets(sc, Parts(cs, r)[k], Parts(zs, r)[k])
  {
    var part, tss := Parts(cs, r)[k], IntervalTokens(sc, Parts(cs, r));
    var ts := ScanTokens(sc, FreshRun(), part);
    assert tss[k] == ts && FilledUp(Flatten(codes, ts), segs[k]);
    var n: nat :| n < 8 && BytesToBits(segs[k]) == Flatten(codes, ts) + LowBits(0x7F, 7)[..n];
    var ones, tail := LowBits(0x7F, 7)[..n], BitsAt(pos)[|BytesToBits(segs[k])|..];
    assert BitsAt(pos) == BytesToBits(segs[k]) + tail;
    Reassociate(Flatten(codes, ts), ones, tail);
    ScanRoundTrip(sc, codes, part, Parts(zs, r)[k], ones + tail);
  }

  // What is wanted of the decoder's result.
  ghost predicate AllSurvive(sc: Scan, r: nat, cs: seq<Block>, zs: seq<Block>, result: seq<Block>, d: Damage)
    requires IsScan(sc) && |cs| == |zs|
  {
    && |Parts(result, r)| == |Parts(cs, r)| == |Parts(zs, r)|
    && forall k :: 0 <= k < |Parts(cs, r)| && Survives(d, k) ==>
         |Parts(zs, r)[k]| == |Parts(cs, r)[k]| && Parts(result, r)[k] == Targets(sc, Parts(cs, r)[k], Parts(zs, r)[k])
  }

  lemma ScanSurvives(codes: seq<Code>, sc: Scan, r: nat, cs: seq<Block>, zs: seq<Block>, segs: seq<seq<byte>>, d: Damage,
                     final: byte, after: seq<byte>, result: seq<Block>, warned: bool)
    requires Encoded(codes, sc, r, cs, segs) && AllHeld(sc, cs, zs) && |result| == |zs| && segs != [] && Received(|segs|, d, final)
    requires Proper(Setup(sc, codes[sc.tab].htbl))
    requires ScanRead(Setup(sc, codes[sc.tab].htbl), At(0, Damaged(segs, final, after, d)), Parts(zs, r), Parts(result, r), warned)
    ensures AllSurvive(sc, r, cs, zs, result, d) && (d.Intact? ==> !warned)
  {
    var g, start := Setup(sc, codes[sc.tab].htbl), At(0, Damaged(segs, final, after, d));
    IntervalCount(cs, r);
    IntervalCount(zs, r);
    forall k | 0 <= k < |Parts(cs, r)| && Survives(d, k)
      ensures |Parts(zs, r)[k]| == |Parts(cs, r)[k]| && Parts(result, r)[k] == Targets(sc, Parts(cs, r)[k], Parts(zs, r)[k])
      ensures Clean(g, Walk(start, 0, k), Parts(zs, r)[k])
    {
      DamageContained(segs, final, after, d, k);
      PartsHeld(sc, cs, zs, r, k);
      IntervalKept(codes, sc, r, cs, zs, segs, k, Walk(start, 0, k));
      assert Faithful(g, Walk(start, 0, k), Parts(zs, r)[k], Parts(result, r)[k], warned);
    }
  }

  lemma {:induction false} PartsHeld(sc: Scan, cs: seq<Block>, zs: seq<Block>, r: nat, k: nat)
    requires IsScan(sc) && AllHeld(sc, cs, zs) && k < |Parts(cs, r)|
    ensures k < |Parts(zs, r)| && AllHeld(sc, Parts(cs, r)[k], Parts(zs, r)[k])
    decreases |cs|
  {
    if r != 0 && |cs| > r && k > 0 {
      PartsHeld(sc, cs[r..], zs[r..], r, k - 1);
    }
  }

  // Each symbol that the scan emits has a code.
  ghost predicate Covers(code: Code, sc: Scan, r: nat, cs: seq<Block>)
    requires IsScan(sc)
  {
    && Sound(code) && CodeFits(code)
    && forall s :: 0 <= s < 256 && CountSymbol(AllTokens(sc, cs, r), sc.tab, s) > 0 ==> code.ehufsi[s] != 0
  }

  // The statistics pass and the table that is made from it.
  method GatherScan(sc: Scan, restartInterval: nat, cs: seq<Block>) returns (ok: bool, code: Code)
    requires IsScan(sc) && sc.tab < 4 && cs != [] && AllRepresentable(sc, cs)
    requires Sum(Statistics(AllTokens(sc, cs, restartInterval), sc.tab)) <= MAX_COUNT
    ensures ok ==> Covers(code, sc, restartInterval, cs)
    ensures !ok ==> Sum(Statistics(AllTokens(sc, cs, restartInterval), sc.tab)) >= OVERFLOW_COUNT
  {
    var blanks := seq(4, _ => Code(HuffTable([], []), seq(256, _ => 0), seq(256, _ => 0)));
    var enc;
    ghost var segs;
    ok, enc, segs := EncodeScan(blanks, sc, true, restartInterval, cs);
    ScanCountable(sc, cs, restartInterval);
    ghost var count := enc.counts[..][PSEUDO_SYMBOL := 1];
    assert forall s :: 0 <= s < 256 ==> count[s] == CountSymbol(AllTokens(sc, cs, restartInterval), sc.tab, s);
    ok, code := MakeOptimalCode(enc.counts, false);
  }

  // The output pass with that table.
  method OutputScan(sc: Scan, code: Code, restartInterval: nat, cs: seq<Block>)
    returns (codes: seq<Code>, bytes: seq<byte>, ghost segs: seq<seq<byte>>)
    requires IsScan(sc) && sc.tab < 4 && AllRepresentable(sc, cs) && Covers(code, sc, restartInterval, cs)
    ensures Encoded(codes, sc, restartInterval, cs, segs) && segs != [] && bytes == ScanBytes(segs)
  {
    codes := seq(4, _ => code);
    AllOneTable(sc, cs, restartInterval);
    CountedIsEmittable(codes, AllTokens(sc, cs, restartInterval), sc.tab);
    FlatEmittable(codes, IntervalTokens(sc, Parts(cs, restartInterval)));
    var ok, enc;
    ok, enc, segs := EncodeScan(codes, sc, false, restartInterval, cs);
    bytes := enc.writer.out;
  }

  // The decoder of bytes that may have been damaged: every interval that survives is decoded to its
  // coefficients as far as they were to be coded; and without damage there is no warning.
  method DecodeReceived(codes: seq<Code>, sc: Scan, restartInterval: nat, zs: seq<Block>, input: seq<byte>, cuts: seq<nat>,
                        ghost cs: seq<Block>, ghost segs: seq<seq<byte>>, ghost d: Damage, ghost final: byte, ghost after: seq<byte>)
    returns (result: seq<Block>, warned: bool)
    requires Encoded(codes, sc, restartInterval, cs, segs) && segs != [] && AllHeld(sc, cs, zs)
    requires Received(|segs|, d, final) && input == Damaged(segs, final, after, d)
    ensures |result| == |zs| && AllSurvive(sc, restartInterval, cs, zs, result, d)
    ensures d.Intact? ==> !warned
  {
    IntervalCount(cs, restartInterval);
    DamageSupplied(segs, final, after, d);
    forall i | 0 <= i < |zs|
      ensures Refinable(sc, zs[i])
    {
      HeldIsRefinable(sc, cs[i], zs[i]);
    }
    var ok;
    ok, result, warned := DecodeScan(codes[sc.tab].htbl, sc, restartInterval, zs, input, cuts);
    ScanSurvives(codes, sc, restartInterval, cs, zs, segs, d, final, after, result, warned);
  }

  lemma {:induction false} PartsTargets(sc: Scan, r: nat, cs: seq<Block>, zs: seq<Block>, result: seq<Block>)
    requires IsScan(sc) && |cs| == |zs| == |result| && AllSurvive(sc, r, cs, zs, result, Intact)
    ensures result == Targets(sc, cs, zs)
    decreases |cs|
  {
    assert Survives(Intact, 0);
    if r != 0 && |cs| > r {
      var c, z, t := Parts(cs[r..], r), Parts(zs[r..], r), Parts(result[r..], r);
      forall k | 0 <= k < |c|
        ensures |z[k]| == |c[k]| && t[k] == Targets(sc, c[k], z[k])
      {
        assert Survives(Intact, k + 1);
        assert c[k] == Parts(cs, r)[k + 1] && z[k] == Parts(zs, r)[k + 1] && t[k] == Parts(result, r)[k + 1];
      }
      PartsTargets(sc, r, cs[r..], zs[r..], result[r..]);
      TargetsAppend(sc, cs[..r], zs[..r], cs[r..], zs[r..]);
      assert cs == cs[..r] + cs[r..] && zs == zs[..r] + zs[r..] && result == result[..r] + result[r..];
    }
  }

  lemma {:induction false} TargetsAppend(sc: Scan, cs: seq<Block>, zs: seq<Block>, cs': seq<Block>, zs': seq<Block>)
    requires IsScan(sc) && |cs| == |zs| && |cs'| == |zs'|
    ensures Targets(sc, cs + cs', zs + zs') == Targets(sc, cs, zs) + Targets(sc, cs', zs')
  {
    if cs == [] {
      assert cs + cs' == cs' && zs + zs' == zs';
    } else {
      assert (cs + cs')[1..] == cs[1..] + cs' && (zs + zs')[1..] == zs[1..] + zs';
      TargetsAppend(sc, cs[1..], zs[1..], cs', zs');
    }
  }

  // Statistics pass, optimal table, output pass, for any restart interval; then the bytes, ended by any
  // marker and arriving in any pieces, are decoded without a warning to every coefficient as far as it
  // was to be coded.  The only failure is a code length above 32, which takes more than nine million
  // counts.
  method OptimisedScan(sc: Scan, restartInterval: nat, cs: seq<Block>, zs: seq<Block>, marker: byte, after: seq<byte>,
                       cuts: seq<nat>)
    returns (ok: bool, bytes: seq<byte>, result: seq<Block>, warned: bool)
    requires IsScan(sc) && sc.tab < 4 && AllHeld(sc, cs, zs) && marker != 0 && marker != 0xFF
    requires Sum(Statistics(AllTokens(sc, cs, restartInterval), sc.tab)) <= MAX_COUNT
    ensures ok ==> result == Targets(sc, cs, zs) && !warned
    ensures !ok ==> Sum(Statistics(AllTokens(sc, cs, restartInterval), sc.tab)) >= OVERFLOW_COUNT
  {
    bytes, warned := [], false;
    if cs == [] {
      return true, bytes, [], warned;
    }
    var code, codes;
    ghost var segs;
    ok, code := GatherScan(sc, restartInterval, cs);
    if !ok {
      return false, bytes, zs, warned;
    }
    codes, bytes, segs := OutputScan(sc, code, restartInterval, cs);
    ScanBytesThen(segs, marker, after);
    result, warned := DecodeReceived(codes, sc, restartInterval, zs, bytes + ([0xFF, marker] + after), cuts,
                                     cs, segs, Intact, marker, after);
    PartsTargets(sc, restartInterval, cs, zs, result);
  }
}
