// A whole progressive AC scan, encoded and decoded: runs of blocks that share an end-of-band symbol,
// and correction bits that are put off until that symbol is emitted.
module ProgressiveScan {
  import opened Numerals
  import opened CanonicalCode
  import opened BitWriter
  import opened HuffmanDecode
  import opened TokenStream
  import opened ACScan
  import opened ACFirst
  import opened ACRefine
  import opened ACRefineRoundTrip
  import RunLength

  // ---- Both kinds of scan ----

  // The encoder's and the decoder's choice of routine.
  function CodeBlock(sc: Scan, c: Block): Coded
    requires IsScan(sc)
  {
    if sc.first then CodeFirst(sc, c) else CodeRefine(sc, c)
  }

  function DecodeMcu(sc: Scan, htbl: HuffTable, z: Block, eobrun: nat, s: seq<bit>): Outcome
    requires IsScan(sc) && Readable(htbl)
  {
    if sc.first then FirstMcu(sc, htbl, z, eobrun, s) else RefineMcu(sc, htbl, z, eobrun, s, NEVER)
  }

  // All that is emitted from now on for the blocks cs, with the end of the pass.
  function ScanTokens(sc: Scan, run: Run, cs: seq<Block>): seq<Token>
    requires IsScan(sc)
    decreases |cs|
  {
    if cs == [] then EobTokens(sc.tab, run.eobrun, run.buf)
    else
      var coded := CodeBlock(sc, cs[0]);
      BlockTokens(sc.tab, run, coded) + ScanTokens(sc, NextRun(run, coded), cs[1..])
  }

  // What a decoder makes of a scan when it is never forced to suspend.
  datatype Scanned = Scanned(zs: seq<Block>, s: seq<bit>, eobrun: nat) | Failed

  function ReadScan(sc: Scan, htbl: HuffTable, zs: seq<Block>, eobrun: nat, s: seq<bit>): Scanned
    requires IsScan(sc) && Readable(htbl)
  {
    if zs == [] then Scanned([], s, eobrun)
    else
      match DecodeMcu(sc, htbl, zs[0], eobrun, s)
      case Suspended(_) => Failed
      case Done(z, s', e') =>
        match ReadScan(sc, htbl, zs[1..], e', s')
        case Failed => Failed
        case Scanned(rest, s'', e'') => Scanned([z] + rest, s'', e'')
  }

  // ---- One block ----

  // Before a first scan of c the band is zero, and the coder can represent its values; before a
  // refinement scan the decoder holds the band without its last known bit.
  predicate Held(sc: Scan, c: Block, z: Block)
    requires IsScan(sc)
  {
    if sc.first then Untouched(sc, z) && Representable(sc, c)
    else forall n :: sc.ss <= n <= sc.se ==> z[n] == Trunc(c[n], 2 * sc.p)
  }

  // What the decoder should hold afterwards: the band with that bit, the rest as before.
  function Target(sc: Scan, c: Block, z: Block): Block
    requires IsScan(sc)
  {
    seq(64, n requires 0 <= n < 64 => if sc.ss <= n <= sc.se then Trunc(c[n], sc.p) else z[n])
  }

  lemma HeldIsKnown(sc: Scan, c: Block, z: Block)
    requires IsScan(sc) && Held(sc, c, z) && !sc.first
    ensures Known(sc, AbsValues(c, sc.p), z, Target(sc, c, z), sc.ss)
    ensures NewSigns(sc, c, AbsValues(c, sc.p), Target(sc, c, z))
    ensures Better(z, Target(sc, c, z), sc.ss, sc.se + 1) == Target(sc, c, z)
  {
    var a := AbsValues(c, sc.p);
    forall n | sc.ss <= n <= sc.se
      ensures OneBitLess(a[n], z[n], Target(sc, c, z)[n], sc.p)
      ensures a[n] == 1 ==> Target(sc, c, z)[n] == Signed(SignBit(c[n]), sc.p)
    {
      if a[n] > 1 {
        CorrectedBit(c[n], sc.p);
      } else {
        StillZero(c[n], sc.p);
      }
    }
  }

  ghost predicate EobCoded(sc: Scan, codes: seq<Code>, e: nat) {
    e <= 0x7FFF && (e > 0 ==> HasCode(codes, Symbol(sc.tab, Log2(e) * 16)))
  }

  // The run that a block starts, when none was pending.
  function OwnRun(coded: Coded): Run {
    if coded.pending then Run(1, coded.br) else Run(0, [])
  }

  // A block that starts without a run: its symbols, then perhaps the run that it is the first of.
  ghost predicate FreshDecodes(sc: Scan, codes: seq<Code>, c: Block, z: Block, e: nat, more: seq<bit>, rest: seq<bit>)
    requires Setting(sc, codes) && Emittable(codes, CodeBlock(sc, c).tokens) && EobCoded(sc, codes, e)
    requires if CodeBlock(sc, c).pending then e >= 1 else e == 0 && more == []
  {
    && Readable(codes[sc.tab].htbl)
    && var coded := CodeBlock(sc, c);
      DecodeMcu(sc, codes[sc.tab].htbl, z, 0,
                Flatten(codes, coded.tokens) + (EobBits(codes, sc.tab, e, coded.br + more) + rest)) ==
      Done(Target(sc, c, z), more + rest, e - OwnRun(coded).eobrun)
  }

  lemma FreshBlock(sc: Scan, codes: seq<Code>, c: Block, z: Block, e: nat, more: seq<bit>, rest: seq<bit>)
    requires Setting(sc, codes) && Held(sc, c, z) && EobCoded(sc, codes, e)
    requires Emittable(codes, CodeBlock(sc, c).tokens)
    requires if CodeBlock(sc, c).pending then e >= 1 else e == 0 && more == []
    ensures FreshDecodes(sc, codes, c, z, e, more, rest)
  {
    if sc.first {
      FreshFirst(sc, codes, c, z, e, more, rest);
    } else {
      FreshRefined(sc, codes, c, z, e, more, rest);
    }
  }

  lemma FreshRefined(sc: Scan, codes: seq<Code>, c: Block, z: Block, e: nat, more: seq<bit>, rest: seq<bit>)
    requires Setting(sc, codes) && Held(sc, c, z) && EobCoded(sc, codes, e) && !sc.first
    requires Emittable(codes, CodeBlock(sc, c).tokens)
    requires if CodeBlock(sc, c).pending then e >= 1 else e == 0 && more == []
    ensures FreshDecodes(sc, codes, c, z, e, more, rest)
  {
    var a, t, coded := AbsValues(c, sc.p), Target(sc, c, z), CodeBlock(sc, c);
    HeldIsKnown(sc, c, z);
    var rest' := EobBits(codes, sc.tab, e, coded.br + more) + rest;
    var place := BlockDecodes(sc, codes, c, a, z, t, sc.ss, [], sc.ss, 0, [], rest');
    if coded.pending {
      EobDecodes(sc, codes, a, place.z, t, place.k, place.newnz, e, more + rest);
      Reassociate(coded.br, more, rest);
      BetterTwice(z, t, sc.ss, place.k, sc.se + 1);
      EobAssociate(codes, sc.tab, e, coded.br + more, rest);
    } else {
      assert rest' == more + rest;
    }
  }

  lemma FreshFirst(sc: Scan, codes: seq<Code>, c: Block, z: Block, e: nat, more: seq<bit>, rest: seq<bit>)
    requires Setting(sc, codes) && Held(sc, c, z) && EobCoded(sc, codes, e) && sc.first
    requires Emittable(codes, CodeBlock(sc, c).tokens)
    requires if CodeBlock(sc, c).pending then e >= 1 else e == 0 && more == []
    ensures FreshDecodes(sc, codes, c, z, e, more, rest)
  {
    var coded := CodeBlock(sc, c);
    NoCorrections(sc.tab, Shifted(c, sc.p), sc.ss, sc.se, 0);
    assert coded.br + more == more;
    FirstDecodes(sc, codes, c, z, e, more, rest);
    assert Target(sc, c, z) == FirstTarget(sc, c, z);
  }

  lemma FirstDecodes(sc: Scan, codes: seq<Code>, c: Block, z: Block, e: nat, more: seq<bit>, rest: seq<bit>)
    requires Setting(sc, codes) && Untouched(sc, z) && Representable(sc, c) && EobCoded(sc, codes, e)
    requires Emittable(codes, CodeFirst(sc, c).tokens)
    requires if CodeFirst(sc, c).pending then e >= 1 else e == 0 && more == []
    ensures Readable(codes[sc.tab].htbl)
    ensures FirstMcu(sc, codes[sc.tab].htbl, z, 0, Flatten(codes, CodeFirst(sc, c).tokens) + (EobBits(codes, sc.tab, e, more) + rest)) ==
      Done(FirstTarget(sc, c, z), more + rest, if CodeFirst(sc, c).pending then e - 1 else 0)
  {
    var v, t, coded := Shifted(c, sc.p), Truncs(c, sc.p), CodeFirst(sc, c);
    TruncsScaled(sc, c);
    var s := EobBits(codes, sc.tab, e, more) + rest;
    assert Sound(codes[sc.tab]);
    var was := RunLength.ReadRuns(codes[sc.tab].htbl, z, sc.ss, sc.se, sc.se, sc.p, Flatten(codes, coded.tokens) + s);
    var i, z' := RunLength.RunsDecode(codes, sc.tab, v, t, z, sc.ss, sc.ss, sc.se, sc.se, sc.p, 0, coded, s, was);
    FilledIsTarget(sc, c, z, z');
    if coded.pending {
      FirstPending(sc, codes, z, z', i, e, more, rest, was, Flatten(codes, coded.tokens) + s);
    } else {
      assert s == more + rest;
    }
  }

  // A block that ends in a run of blocks.
  lemma FirstPending(sc: Scan, codes: seq<Code>, z: Block, z': Block, i: nat, e: nat, more: seq<bit>, rest: seq<bit>,
                     was: RunLength.Read, s: seq<bit>)
    requires Setting(sc, codes) && EobCoded(sc, codes, e) && e > 0 && i <= sc.se && Readable(codes[sc.tab].htbl)
    requires was == RunLength.ReadRuns(codes[sc.tab].htbl, z, sc.ss, sc.se, sc.se, sc.p, s)
    requires was == RunLength.ReadRuns(codes[sc.tab].htbl, z', i, sc.se, sc.se, sc.p, EobBits(codes, sc.tab, e, more) + rest)
    ensures FirstMcu(sc, codes[sc.tab].htbl, z, 0, s) == Done(z', more + rest, e - 1)
  {
    EobAssociate(codes, sc.tab, e, more, rest);
    FirstEob(sc, codes, z', i, e, more + rest);
    FirstStopped(sc, codes[sc.tab].htbl, z, s, z', Log2(e), LowBits(e, Log2(e)) + (more + rest));
  }

  lemma FirstStopped(sc: Scan, htbl: HuffTable, z: Block, s: seq<bit>, z': Block, r: nat, s': seq<bit>)
    requires IsScan(sc) && Readable(htbl) && r <= |s'|
    requires RunLength.ReadRuns(htbl, z, sc.ss, sc.se, sc.se, sc.p, s) == RunLength.AtEob(z', r, s')
    ensures FirstMcu(sc, htbl, z, 0, s) == Done(z', s'[r..], if r == 0 then 0 else Pow2(r) + BitsValue(s'[..r]) - 1)
  {
  }

  // The end of band in a first scan: a run, of which this block is the first.
  lemma FirstEob(sc: Scan, codes: seq<Code>, z: Block, i: nat, e: nat, later: seq<bit>)
    requires Setting(sc, codes) && EobCoded(sc, codes, e) && e > 0 && i <= sc.se
    ensures Readable(codes[sc.tab].htbl)
    ensures var r := Log2(e);
      RunLength.ReadRuns(codes[sc.tab].htbl, z, i, sc.se, sc.se, sc.p, EobBits(codes, sc.tab, e, later)) ==
        RunLength.AtEob(z, r, LowBits(e, r) + later)
      && (LowBits(e, r) + later)[..r] == LowBits(e, r) && (LowBits(e, r) + later)[r..] == later
      && Pow2(r) + BitsValue(LowBits(e, r)) - 1 == e - 1 && (r == 0 ==> e == 1)
  {
    var r := Log2(e);
    RunCategory(e);
    RunValue(e);
    RunLength.ReadSymbol(codes, sc.tab, r * 16, z, i, sc.se, sc.se, sc.p, LowBits(e, r) + later);
    RunLength.AfterEob(codes[sc.tab].htbl, z, i, sc.se, sc.se, sc.p, r, LowBits(e, r) + later);
  }

  lemma EobAssociate(codes: seq<Code>, tab: nat, e: nat, b: seq<bit>, rest: seq<bit>)
    requires e > 0 && HasCode(codes, Symbol(tab, Log2(e) * 16))
    ensures EobBits(codes, tab, e, b) + rest == EobBits(codes, tab, e, b + rest)
  {
    Regroup(TokenBits(codes, Symbol(tab, Log2(e) * 16)), LowBits(e, Log2(e)), b, rest);
  }

  // A block inside a run has only correction bits.
  lemma RunBlock(sc: Scan, codes: seq<Code>, c: Block, z: Block, e: nat, rest: seq<bit>)
    requires Setting(sc, codes) && Held(sc, c, z) && e > 0 && CodeBlock(sc, c).tokens == []
    ensures Readable(codes[sc.tab].htbl) && CodeBlock(sc, c).pending
    ensures DecodeMcu(sc, codes[sc.tab].htbl, z, e, CodeBlock(sc, c).br + rest) == Done(Target(sc, c, z), rest, e - 1)
  {
    assert Sound(codes[sc.tab]);
    WithoutTokens(sc, c);
    if sc.first {
      ZeroBand(sc, c, z);
      assert CodeBlock(sc, c).br + rest == rest;
    } else {
      HeldIsKnown(sc, c, z);
      EndBandDecodes(sc, AbsValues(c, sc.p), z, Target(sc, c, z), sc.ss, [], e, rest);
    }
  }

  lemma WithoutTokens(sc: Scan, c: Block)
    requires IsScan(sc) && CodeBlock(sc, c).tokens == []
    ensures CodeBlock(sc, c).pending
    ensures if sc.first then CodeBlock(sc, c).br == [] else
      NoneNew(AbsValues(c, sc.p), sc.ss, sc.se + 1) &&
      CodeBlock(sc, c).br == CorrectionBits(AbsValues(c, sc.p), sc.ss, sc.se + 1)
  {
    if sc.first {
      NoValues(sc.tab, Shifted(c, sc.p), sc.ss, sc.se, 0);
    } else {
      NoSymbols(sc, c, AbsValues(c, sc.p), sc.ss, sc.ss, 0, []);
    }
  }

  // A band that is all zero after the point transform leaves the block as it was.
  lemma ZeroBand(sc: Scan, c: Block, z: Block)
    requires IsScan(sc) && Held(sc, c, z) && sc.first && CodeBlock(sc, c).tokens == []
    ensures Target(sc, c, z) == z
  {
    var v := Shifted(c, sc.p);
    NoValues(sc.tab, v, sc.ss, sc.se, 0);
    forall n | sc.ss <= n <= sc.se
      ensures Trunc(c[n], sc.p) == 0
    {
      assert v[n] == 0;
    }
  }

  // ---- Scans ----

  ghost predicate AllHeld(sc: Scan, cs: seq<Block>, zs: seq<Block>)
    requires IsScan(sc)
  {
    |cs| == |zs| && forall i :: 0 <= i < |cs| ==> Held(sc, cs[i], zs[i])
  }

  function Targets(sc: Scan, cs: seq<Block>, zs: seq<Block>): seq<Block>
    requires IsScan(sc) && |cs| == |zs|
  {
    if cs == [] then [] else [Target(sc, cs[0], zs[0])] + Targets(sc, cs[1..], zs[1..])
  }

  // What the encoder still owes in state run: the run comes out as eobrun, with the correction bits
  // more that are yet to join it, and then the tail.
  datatype Owed = Owed(eobrun: nat, more: seq<bit>, tail: seq<bit>)

  ghost predicate Owes(sc: Scan, codes: seq<Code>, run: Run, ts: seq<Token>, o: Owed) {
    && run.eobrun <= o.eobrun && EobCoded(sc, codes, o.eobrun)
    && (run.eobrun == 0 ==> o.eobrun == 0 && o.more == [])
    && Emittable(codes, ts) && Flatten(codes, ts) == EobBits(codes, sc.tab, o.eobrun, run.buf + o.more) + o.tail
  }

  // The bits that are left for a decoder in the middle of that run.
  ghost predicate Serves(sc: Scan, codes: seq<Code>, run: Run, o: Owed, zs: seq<Block>, ts: seq<Block>, rest: seq<bit>)
    requires Setting(sc, codes) && run.eobrun <= o.eobrun
  {
    && Readable(codes[sc.tab].htbl)
    && ReadScan(sc, codes[sc.tab].htbl, zs, o.eobrun - run.eobrun, o.more + (o.tail + rest)) == Scanned(ts, rest, 0)
  }

  lemma ScanOneMore(sc: Scan, htbl: HuffTable, zs: seq<Block>, e: nat, s: seq<bit>, z': Block, e': nat, s': seq<bit>,
                    ts: seq<Block>, rest: seq<bit>)
    requires IsScan(sc) && Readable(htbl) && zs != []
    requires DecodeMcu(sc, htbl, zs[0], e, s) == Done(z', s', e')
    requires ReadScan(sc, htbl, zs[1..], e', s') == Scanned(ts, rest, 0)
    ensures ReadScan(sc, htbl, zs, e, s) == Scanned([z'] + ts, rest, 0)
  {
  }

  lemma FreshString(sc: Scan, codes: seq<Code>, coded: Coded, later: seq<Token>, o: Owed, rest: seq<bit>)
    requires Emittable(codes, coded.tokens) && Owes(sc, codes, OwnRun(coded), later, o)
    ensures Emittable(codes, coded.tokens + later)
    ensures Flatten(codes, coded.tokens + later) + rest ==
      Flatten(codes, coded.tokens) + (EobBits(codes, sc.tab, o.eobrun, coded.br + o.more) + (o.tail + rest))
  {
    FlattenAppend(codes, coded.tokens, later);
    var eob := EobBits(codes, sc.tab, o.eobrun, OwnRun(coded).buf + o.more);
    assert eob == EobBits(codes, sc.tab, o.eobrun, coded.br + o.more);
    Regroup(Flatten(codes, coded.tokens), eob, o.tail, rest);
  }

  lemma FreshHead(sc: Scan, codes: seq<Code>, c: Block, z: Block, later: seq<Token>, o: Owed, rest: seq<bit>)
    requires Setting(sc, codes) && Held(sc, c, z) && Emittable(codes, CodeBlock(sc, c).tokens)
    requires Owes(sc, codes, OwnRun(CodeBlock(sc, c)), later, o)
    ensures Readable(codes[sc.tab].htbl) && Emittable(codes, CodeBlock(sc, c).tokens + later)
    ensures DecodeMcu(sc, codes[sc.tab].htbl, z, 0, Flatten(codes, CodeBlock(sc, c).tokens + later) + rest) ==
      Done(Target(sc, c, z), o.more + (o.tail + rest), o.eobrun - OwnRun(CodeBlock(sc, c)).eobrun)
  {
    FreshString(sc, codes, CodeBlock(sc, c), later, o, rest);
    FreshBlock(sc, codes, c, z, o.eobrun, o.more, o.tail + rest);
  }

  // A first block without a run, given what the rest of the scan owes.
  lemma FreshScan(sc: Scan, codes: seq<Code>, cs: seq<Block>, zs: seq<Block>, o: Owed, rest: seq<bit>)
    requires Setting(sc, codes) && cs != [] && AllHeld(sc, cs, zs)
    requires var coded := CodeBlock(sc, cs[0]);
      && Emittable(codes, coded.tokens)
      && Owes(sc, codes, OwnRun(coded), ScanTokens(sc, OwnRun(coded), cs[1..]), o)
      && Serves(sc, codes, OwnRun(coded), o, zs[1..], Targets(sc, cs[1..], zs[1..]), rest)
    ensures Readable(codes[sc.tab].htbl)
    ensures var coded := CodeBlock(sc, cs[0]);
      var ts := coded.tokens + ScanTokens(sc, OwnRun(coded), cs[1..]);
      && Emittable(codes, ts)
      && ReadScan(sc, codes[sc.tab].htbl, zs, 0, Flatten(codes, ts) + rest) == Scanned(Targets(sc, cs, zs), rest, 0)
  {
    var coded := CodeBlock(sc, cs[0]);
    var later := ScanTokens(sc, OwnRun(coded), cs[1..]);
    FreshHead(sc, codes, cs[0], zs[0], later, o, rest);
    ScanOneMore(sc, codes[sc.tab].htbl, zs, 0, Flatten(codes, coded.tokens + later) + rest,
                Target(sc, cs[0], zs[0]), o.eobrun - OwnRun(coded).eobrun, o.more + (o.tail + rest),
                Targets(sc, cs[1..], zs[1..]), rest);
  }

  lemma {:induction false} FewCorrections(sc: Scan, c: Block, a: Mags, k: nat, r: nat, br: seq<bit>)
    requires IsScan(sc) && k <= sc.se + 1
    ensures |CodeFrom(sc, c, a, k, r, br).br| <= |br| + (sc.se + 1 - k)
    decreases sc.se + 1 - k, r
  {
    if k <= sc.se {
      if a[k] == 0 {
        FewCorrections(sc, c, a, k + 1, r + 1, br);
      } else if r > 15 && OneAhead(sc, a, k) {
        FewCorrections(sc, c, a, k, r - 16, []);
      } else if a[k] > 1 {
        FewCorrections(sc, c, a, k + 1, r, br + [a[k] % 2]);
      } else {
        FewCorrections(sc, c, a, k + 1, 0, []);
      }
    }
  }

  lemma OwnRunOk(sc: Scan, c: Block)
    requires IsScan(sc)
    ensures |CodeBlock(sc, c).br| <= 63 && RunOk(OwnRun(CodeBlock(sc, c)))
  {
    if sc.first {
      NoCorrections(sc.tab, Shifted(c, sc.p), sc.ss, sc.se, 0);
    } else {
      FewCorrections(sc, c, AbsValues(c, sc.p), sc.ss, 0, []);
    }
  }

  // A pending run is kept within its bounds: the counter in 15 bits, and the buffer so full at most
  // that the corrections of one more block fit it.
  lemma RunKept(sc: Scan, run: Run, c: Block)
    requires IsScan(sc) && RunOk(run)
    ensures RunOk(NextRun(run, CodeBlock(sc, c)))
    ensures |run.buf| + |CodeBlock(sc, c).br| <= MAX_CORR_BITS
  {
    OwnRunOk(sc, c);
  }

  // A block that ends the pending run, or finds none.
  lemma FreshTokens(sc: Scan, run: Run, cs: seq<Block>)
    requires IsScan(sc) && RunOk(run) && cs != [] && (run.eobrun == 0 || CodeBlock(sc, cs[0]).tokens != [])
    ensures ScanTokens(sc, run, cs) == EobTokens(sc.tab, run.eobrun, run.buf) +
      (CodeBlock(sc, cs[0]).tokens + ScanTokens(sc, OwnRun(CodeBlock(sc, cs[0])), cs[1..]))
  {
    var coded := CodeBlock(sc, cs[0]);
    OwnRunOk(sc, cs[0]);
    assert NextRun(run, coded) == OwnRun(coded);
    assert BlockTokens(sc.tab, run, coded) == EobTokens(sc.tab, run.eobrun, run.buf) + coded.tokens;
    Reassociate(EobTokens(sc.tab, run.eobrun, run.buf), coded.tokens, ScanTokens(sc, OwnRun(coded), cs[1..]));
  }

  // The tokens of an end of band, and what they stand for.
  lemma EobOwed(sc: Scan, codes: seq<Code>, run: Run, ts: seq<Token>)
    requires RunOk(run) || 0 < run.eobrun <= 0x7FFF
    requires Emittable(codes, EobTokens(sc.tab, run.eobrun, run.buf) + ts)
    ensures EobCoded(sc, codes, run.eobrun) && Emittable(codes, ts)
    ensures Flatten(codes, EobTokens(sc.tab, run.eobrun, run.buf) + ts) ==
      EobBits(codes, sc.tab, run.eobrun, run.buf) + Flatten(codes, ts)
  {
    EmittableParts(codes, EobTokens(sc.tab, run.eobrun, run.buf), ts);
    EobFlatten(codes, sc.tab, run.eobrun, run.buf);
  }

  lemma {:induction false} ScanDecodes(sc: Scan, codes: seq<Code>, run: Run, cs: seq<Block>, zs: seq<Block>, rest: seq<bit>)
    returns (o: Owed)
    requires Setting(sc, codes) && RunOk(run) && AllHeld(sc, cs, zs)
    requires Emittable(codes, ScanTokens(sc, run, cs))
    ensures Owes(sc, codes, run, ScanTokens(sc, run, cs), o)
    ensures Serves(sc, codes, run, o, zs, Targets(sc, cs, zs), rest)
    decreases |cs|, 2
  {
    if cs == [] {
      o := NothingLeft(sc, codes, run, rest);
    } else if run.eobrun == 0 || CodeBlock(sc, cs[0]).tokens != [] {
      o := AfterRun(sc, codes, run, cs, zs, rest);
    } else {
      o := WithinRun(sc, codes, run, cs, zs, rest);
    }
  }

  lemma NothingLeft(sc: Scan, codes: seq<Code>, run: Run, rest: seq<bit>) returns (o: Owed)
    requires Setting(sc, codes) && RunOk(run) && Emittable(codes, EobTokens(sc.tab, run.eobrun, run.buf))
    ensures Owes(sc, codes, run, EobTokens(sc.tab, run.eobrun, run.buf), o)
    ensures Serves(sc, codes, run, o, [], [], rest)
  {
    var ts := EobTokens(sc.tab, run.eobrun, run.buf);
    assert ts + [] == ts;
    EobOwed(sc, codes, run, []);
    assert Sound(codes[sc.tab]);
    o := Owed(run.eobrun, [], []);
    assert run.buf + [] == run.buf;
    NothingAfter(Flatten(codes, ts));
    assert [] + ([] + rest) == rest;
  }

  lemma {:induction false} AfterRun(sc: Scan, codes: seq<Code>, run: Run, cs: seq<Block>, zs: seq<Block>, rest: seq<bit>)
    returns (o: Owed)
    requires Setting(sc, codes) && RunOk(run) && AllHeld(sc, cs, zs) && cs != []
    requires Emittable(codes, ScanTokens(sc, run, cs))
    requires run.eobrun == 0 || CodeBlock(sc, cs[0]).tokens != []
    ensures Owes(sc, codes, run, ScanTokens(sc, run, cs), o)
    ensures Serves(sc, codes, run, o, zs, Targets(sc, cs, zs), rest)
    decreases |cs|, 1
  {
    var own, symbols := OwnRun(CodeBlock(sc, cs[0])), CodeBlock(sc, cs[0]).tokens;
    var later := ScanTokens(sc, own, cs[1..]);
    FreshTokens(sc, run, cs);
    OwnRunOk(sc, cs[0]);
    o := EobThen(sc, codes, run, symbols + later);
    EmittableParts(codes, symbols, later);
    var o' := ScanDecodes(sc, codes, own, cs[1..], zs[1..], rest);
    FreshScan(sc, codes, cs, zs, o', rest);
    ServesAfterRun(sc, codes, run, o, zs, Targets(sc, cs, zs), rest);
  }

  lemma ServesAfterRun(sc: Scan, codes: seq<Code>, run: Run, o: Owed, zs: seq<Block>, ts: seq<Block>, rest: seq<bit>)
    requires Setting(sc, codes) && o.eobrun == run.eobrun && o.more == [] && Readable(codes[sc.tab].htbl)
    requires ReadScan(sc, codes[sc.tab].htbl, zs, 0, o.tail + rest) == Scanned(ts, rest, 0)
    ensures Serves(sc, codes, run, o, zs, ts, rest)
  {
    assert o.more + (o.tail + rest) == o.tail + rest;
  }

  lemma EobThen(sc: Scan, codes: seq<Code>, run: Run, later: seq<Token>) returns (o: Owed)
    requires RunOk(run) && Emittable(codes, EobTokens(sc.tab, run.eobrun, run.buf) + later)
    ensures Emittable(codes, later) && o == Owed(run.eobrun, [], Flatten(codes, later))
    ensures Owes(sc, codes, run, EobTokens(sc.tab, run.eobrun, run.buf) + later, o)
  {
    EobOwed(sc, codes, run, later);
    o := Owed(run.eobrun, [], Flatten(codes, later));
    assert run.buf + [] == run.buf;
  }

  lemma {:induction false} WithinRun(sc: Scan, codes: seq<Code>, run: Run, cs: seq<Block>, zs: seq<Block>, rest: seq<bit>)
    returns (o: Owed)
    requires Setting(sc, codes) && RunOk(run) && AllHeld(sc, cs, zs) && cs != []
    requires Emittable(codes, ScanTokens(sc, run, cs))
    requires run.eobrun > 0 && CodeBlock(sc, cs[0]).tokens == []
    ensures Owes(sc, codes, run, ScanTokens(sc, run, cs), o)
    ensures Serves(sc, codes, run, o, zs, Targets(sc, cs, zs), rest)
    decreases |cs|, 1
  {
    if MustEmit(Run(run.eobrun + 1, run.buf + CodeBlock(sc, cs[0]).br)) {
      o := RunForcedOut(sc, codes, run, cs, zs, rest);
    } else {
      o := RunGoesOn(sc, codes, run, cs, zs, rest);
    }
  }

  // A block without symbols joins the run, which is emitted if it must be.
  lemma JoinedTokens(sc: Scan, run: Run, cs: seq<Block>)
    requires IsScan(sc) && cs != [] && CodeBlock(sc, cs[0]).tokens == []
    ensures var joined := Run(run.eobrun + 1, run.buf + CodeBlock(sc, cs[0]).br);
      ScanTokens(sc, run, cs) ==
        if MustEmit(joined) then EobTokens(sc.tab, joined.eobrun, joined.buf) + ScanTokens(sc, Run(0, []), cs[1..])
        else ScanTokens(sc, joined, cs[1..])
  {
    WithoutTokens(sc, cs[0]);
  }

  lemma {:induction false} RunForcedOut(sc: Scan, codes: seq<Code>, run: Run, cs: seq<Block>, zs: seq<Block>, rest: seq<bit>)
    returns (o: Owed)
    requires Setting(sc, codes) && RunOk(run) && AllHeld(sc, cs, zs) && cs != []
    requires Emittable(codes, ScanTokens(sc, run, cs))
    requires run.eobrun > 0 && CodeBlock(sc, cs[0]).tokens == []
    requires MustEmit(Run(run.eobrun + 1, run.buf + CodeBlock(sc, cs[0]).br))
    ensures Owes(sc, codes, run, ScanTokens(sc, run, cs), o)
    ensures Serves(sc, codes, run, o, zs, Targets(sc, cs, zs), rest)
    decreases |cs|, 0
  {
    var br := CodeBlock(sc, cs[0]).br;
    var joined, later := Run(run.eobrun + 1, run.buf + br), ScanTokens(sc, Run(0, []), cs[1..]);
    JoinedTokens(sc, run, cs);
    o := ForcedOwed(sc, codes, run, br, later);
    FreshRest(sc, codes, cs[1..], zs[1..], later, rest);
    ServesForced(sc, codes, run, cs, zs, o, rest);
  }

  lemma ServesForced(sc: Scan, codes: seq<Code>, run: Run, cs: seq<Block>, zs: seq<Block>, o: Owed, rest: seq<bit>)
    requires Setting(sc, codes) && AllHeld(sc, cs, zs) && cs != [] && CodeBlock(sc, cs[0]).tokens == []
    requires o.eobrun == run.eobrun + 1 && o.more == CodeBlock(sc, cs[0]).br
    requires ReadScan(sc, codes[sc.tab].htbl, zs[1..], 0, o.tail + rest) == Scanned(Targets(sc, cs[1..], zs[1..]), rest, 0)
    ensures Serves(sc, codes, run, o, zs, Targets(sc, cs, zs), rest)
  {
    NothingAfter(o.tail + rest);
    ServesOneMore(sc, codes, run, cs, zs, o, [], o.tail + rest, rest);
  }

  // The blocks after a run that has been sent.
  lemma {:induction false} FreshRest(sc: Scan, codes: seq<Code>, cs: seq<Block>, zs: seq<Block>, ts: seq<Token>, rest: seq<bit>)
    requires Setting(sc, codes) && AllHeld(sc, cs, zs) && Emittable(codes, ts) && ts == ScanTokens(sc, Run(0, []), cs)
    ensures Readable(codes[sc.tab].htbl)
    ensures ReadScan(sc, codes[sc.tab].htbl, zs, 0, Flatten(codes, ts) + rest) == Scanned(Targets(sc, cs, zs), rest, 0)
    decreases |cs|, 3
  {
    var o := ScanDecodes(sc, codes, Run(0, []), cs, zs, rest);
    ServesFresh(sc, codes, ts, o, zs, Targets(sc, cs, zs), rest);
  }

  lemma ForcedOwed(sc: Scan, codes: seq<Code>, run: Run, br: seq<bit>, later: seq<Token>) returns (o: Owed)
    requires 0 < run.eobrun < 0x7FFF && Emittable(codes, EobTokens(sc.tab, run.eobrun + 1, run.buf + br) + later)
    ensures Emittable(codes, later) && o == Owed(run.eobrun + 1, br, Flatten(codes, later))
    ensures Owes(sc, codes, run, EobTokens(sc.tab, run.eobrun + 1, run.buf + br) + later, o)
  {
    EobOwed(sc, codes, Run(run.eobrun + 1, run.buf + br), later);
    o := Owed(run.eobrun + 1, br, Flatten(codes, later));
  }

  // What is owed before a block joins the run.
  lemma OwedBefore(sc: Scan, codes: seq<Code>, run: Run, br: seq<bit>, ts: seq<Token>, o': Owed) returns (o: Owed)
    requires run.eobrun > 0 && Owes(sc, codes, Run(run.eobrun + 1, run.buf + br), ts, o')
    ensures o == Owed(o'.eobrun, br + o'.more, o'.tail) && Owes(sc, codes, run, ts, o)
  {
    o := Owed(o'.eobrun, br + o'.more, o'.tail);
    Reassociate(run.buf, br, o'.more);
  }

  lemma {:induction false} RunGoesOn(sc: Scan, codes: seq<Code>, run: Run, cs: seq<Block>, zs: seq<Block>, rest: seq<bit>)
    returns (o: Owed)
    requires Setting(sc, codes) && RunOk(run) && AllHeld(sc, cs, zs) && cs != []
    requires Emittable(codes, ScanTokens(sc, run, cs))
    requires run.eobrun > 0 && CodeBlock(sc, cs[0]).tokens == []
    requires !MustEmit(Run(run.eobrun + 1, run.buf + CodeBlock(sc, cs[0]).br))
    ensures Owes(sc, codes, run, ScanTokens(sc, run, cs), o)
    ensures Serves(sc, codes, run, o, zs, Targets(sc, cs, zs), rest)
    decreases |cs|, 0
  {
    var br := CodeBlock(sc, cs[0]).br;
    var joined := Run(run.eobrun + 1, run.buf + br);
    JoinedTokens(sc, run, cs);
    var o' := ScanDecodes(sc, codes, joined, cs[1..], zs[1..], rest);
    o := OwedBefore(sc, codes, run, br, ScanTokens(sc, joined, cs[1..]), o');
    Reassociate(br, o'.more, o'.tail + rest);
    ServesOneMore(sc, codes, run, cs, zs, o, o'.more, o'.tail + rest, rest);
  }

  // Without a pending run, everything is still to be read.
  lemma ServesFresh(sc: Scan, codes: seq<Code>, later: seq<Token>, o: Owed, zs: seq<Block>, ts: seq<Block>, rest: seq<bit>)
    requires Setting(sc, codes) && Owes(sc, codes, Run(0, []), later, o) && Serves(sc, codes, Run(0, []), o, zs, ts, rest)
    ensures ReadScan(sc, codes[sc.tab].htbl, zs, 0, Flatten(codes, later) + rest) == Scanned(ts, rest, 0)
  {
    assert o.eobrun - Run(0, []).eobrun == 0;
    assert o.more + (o.tail + rest) == o.tail + rest;
    assert Flatten(codes, later) == [] + o.tail == o.tail;
  }

  // A decoder in the middle of a run passes one more block.
  lemma ServesOneMore(sc: Scan, codes: seq<Code>, run: Run, cs: seq<Block>, zs: seq<Block>, o: Owed,
                      more: seq<bit>, s: seq<bit>, rest: seq<bit>)
    requires Setting(sc, codes) && AllHeld(sc, cs, zs) && cs != [] && CodeBlock(sc, cs[0]).tokens == []
    requires run.eobrun < o.eobrun && o.more + (o.tail + rest) == CodeBlock(sc, cs[0]).br + (more + s)
    requires Readable(codes[sc.tab].htbl)
    requires ReadScan(sc, codes[sc.tab].htbl, zs[1..], o.eobrun - run.eobrun - 1, more + s) ==
      Scanned(Targets(sc, cs[1..], zs[1..]), rest, 0)
    ensures Serves(sc, codes, run, o, zs, Targets(sc, cs, zs), rest)
  {
    RunBlock(sc, codes, cs[0], zs[0], o.eobrun - run.eobrun, more + s);
    ScanOneMore(sc, codes[sc.tab].htbl, zs, o.eobrun - run.eobrun, o.more + (o.tail + rest), Target(sc, cs[0], zs[0]),
                o.eobrun - run.eobrun - 1, more + s, Targets(sc, cs[1..], zs[1..]), rest);
  }

  // The round trip of a scan: every block is known as far as Al, and every bit is consumed.
  lemma ScanRoundTrip(sc: Scan, codes: seq<Code>, cs: seq<Block>, zs: seq<Block>, rest: seq<bit>)
    requires Setting(sc, codes) && AllHeld(sc, cs, zs)
    requires Emittable(codes, ScanTokens(sc, Run(0, []), cs))
    ensures Readable(codes[sc.tab].htbl)
    ensures ReadScan(sc, codes[sc.tab].htbl, zs, 0, Flatten(codes, ScanTokens(sc, Run(0, []), cs)) + rest) ==
      Scanned(Targets(sc, cs, zs), rest, 0)
  {
    var o := ScanDecodes(sc, codes, Run(0, []), cs, zs, rest);
    ServesFresh(sc, codes, ScanTokens(sc, Run(0, []), cs), o, zs, Targets(sc, cs, zs), rest);
  }
}
