// The AC part of the Huffman entropy encoder object of jchuff.c in progressive scans.
module ProgressiveEncoder {
  import opened Numerals
  import opened CanonicalCode
  import opened BitWriter
  import opened TokenStream
  import opened ACScan
  import opened RunLength
  import opened ACFirst
  import opened ACRefine
  import opened RestartStream
  import opened CodedSegments

  // The symbols of two streams of tokens have been counted.
  ghost predicate CountsAre(counts: seq<nat>, past: seq<Token>, tokens: seq<Token>, tab: nat) {
    |counts| == 257 &&
    forall s :: 0 <= s < 256 ==> counts[s] == CountSymbol(past, tab, s) + CountSymbol(tokens, tab, s)
  }

  // Segments have been written for parts of a stream, and bits for the tokens after them, unless there is
  // a symbol without a code.
  ghost predicate WrittenAre(codes: seq<Code>, parts: seq<seq<Token>>, segs: seq<seq<byte>>, tokens: seq<Token>,
                             missing: bool, before: seq<byte>, bits: seq<bit>)
  {
    && |segs| == |parts| && before == Segments(segs, 0) && Behind(codes, parts, segs)
    && (missing <==> !AllEmittable(codes, parts) || !Emittable(codes, tokens))
    && (!missing ==> bits == Flatten(codes, tokens))
  }

  lemma CountsMore(counts: seq<nat>, past: seq<Token>, tokens: seq<Token>, tab: nat, symbol: nat)
    requires CountsAre(counts, past, tokens, tab) && symbol < 256
    ensures CountsAre(counts[symbol := counts[symbol] + 1], past, tokens + [Symbol(tab, symbol)], tab)
  {
    forall s | 0 <= s < 256
      ensures CountSymbol(tokens + [Symbol(tab, symbol)], tab, s) == CountSymbol(tokens, tab, s) + (if s == symbol then 1 else 0)
    {
      CountSnoc(tokens, Symbol(tab, symbol), tab, s);
    }
  }

  lemma CountsRaw(counts: seq<nat>, past: seq<Token>, tokens: seq<Token>, tab: nat, bits: seq<bit>)
    requires CountsAre(counts, past, tokens, tab)
    ensures CountsAre(counts, past, tokens + [Raw(bits)], tab)
  {
    forall s | 0 <= s < 256
      ensures CountSymbol(tokens + [Raw(bits)], tab, s) == CountSymbol(tokens, tab, s)
    {
      CountSnoc(tokens, Raw(bits), tab, s);
    }
  }

  lemma CountsClosed(counts: seq<nat>, parts: seq<seq<Token>>, tokens: seq<Token>, tab: nat)
    requires CountsAre(counts, Flat(parts), tokens, tab)
    ensures CountsAre(counts, Flat(parts + [tokens]), [], tab)
  {
    FlatSnoc(parts, tokens);
    forall s | 0 <= s < 256
      ensures CountSymbol(Flat(parts) + tokens, tab, s) == CountSymbol(Flat(parts), tab, s) + CountSymbol(tokens, tab, s)
    {
      CountAppend(Flat(parts), tokens, tab, s);
    }
  }

  lemma WrittenSymbol(codes: seq<Code>, parts: seq<seq<Token>>, segs: seq<seq<byte>>, tokens: seq<Token>, missing: bool,
                      before: seq<byte>, bits: seq<bit>, tab: nat, symbol: nat, missing': bool, bits': seq<bit>)
    requires WrittenAre(codes, parts, segs, tokens, missing, before, bits)
    requires tab < |codes| && CodeFits(codes[tab]) && symbol < 256
    requires missing' == (missing || codes[tab].ehufsi[symbol] == 0)
    requires bits' == bits + LowBits(codes[tab].ehufco[symbol], codes[tab].ehufsi[symbol])
    ensures WrittenAre(codes, parts, segs, tokens + [Symbol(tab, symbol)], missing', before, bits')
  {
    FlattenSnoc(codes, tokens, Symbol(tab, symbol));
    LowBitsOf(codes[tab].ehufco[symbol], codes[tab].ehufsi[symbol]);
  }

  lemma WrittenRaw(codes: seq<Code>, parts: seq<seq<Token>>, segs: seq<seq<byte>>, tokens: seq<Token>, missing: bool,
                   before: seq<byte>, bits: seq<bit>, more: seq<bit>)
    requires WrittenAre(codes, parts, segs, tokens, missing, before, bits)
    ensures WrittenAre(codes, parts, segs, tokens + [Raw(more)], missing, before, bits + more)
  {
    FlattenSnoc(codes, tokens, Raw(more));
  }

  lemma CodedTokens(base: seq<Token>, tab: nat, symbol: nat, isNew: bool, sign: bit, bits: seq<bit>)
    ensures ((base + [Symbol(tab, symbol)]) + (if isNew then [Raw([sign])] else [])) + [Raw(bits)] ==
      base + ([Symbol(tab, symbol)] + (if isNew then [Raw([sign])] else []) + [Raw(bits)])
  {
  }

  lemma EobTokensAre(base: seq<Token>, tab: nat, run: nat, buf: seq<bit>)
    ensures base + EobTokens(tab, run, buf) ==
      if run == 0 then base else ((base + [Symbol(tab, Log2(run) * 16)]) + [Raw(LowBits(run, Log2(run)))]) + [Raw(buf)]
  {
  }

  // The coefficients of the band up to k are in range.
  predicate InRangeTo(sc: Scan, c: Block, k: nat)
    requires IsScan(sc)
  {
    forall n :: sc.ss <= n < k && n <= sc.se ==> NumBits(ShiftedCoef(c[n], sc.p)) <= MAX_COEF_BITS
  }

  lemma InRangeNext(sc: Scan, c: Block, k: nat)
    requires IsScan(sc) && sc.ss <= k <= sc.se && InRangeTo(sc, c, k)
    ensures NumBits(ShiftedCoef(c[k], sc.p)) <= MAX_COEF_BITS <==> InRangeTo(sc, c, k + 1)
    ensures NumBits(ShiftedCoef(c[k], sc.p)) > MAX_COEF_BITS ==> !Representable(sc, c)
  {
    assert Shifted(c, sc.p)[k] == ShiftedCoef(c[k], sc.p);
  }

  lemma InRangeAll(sc: Scan, c: Block)
    requires IsScan(sc) && InRangeTo(sc, c, sc.se + 1)
    ensures Representable(sc, c)
  {
  }

  class Encoder {
    const codes: seq<Code>          // the derived tables
    const tab: nat                  // ac_tbl_no
    const gatherStatistics: bool
    const counts: array<nat>        // ac_count_ptrs, for the table of the scan
    const writer: Writer
    var missingCode: bool           // ERREXIT was called for a symbol without a code
    var eobrun: nat
    var be: nat
    const bitBuffer: array<bit>
    const restartInterval: nat
    var restartsToGo: nat           // MCUs left in this restart interval
    var nextRestartNum: nat
    ghost var tokens: seq<Token>    // everything emitted since the last restart
    ghost var parts: seq<seq<Token>>   // the tokens of the intervals before it
    ghost var segs: seq<seq<byte>>     // and their data, in an output pass

    ghost predicate Valid()
      reads this`be, this`missingCode, this`tokens, this`parts, this`segs, counts, writer
    {
      && counts.Length == 257 && bitBuffer.Length == MAX_CORR_BITS && be <= MAX_CORR_BITS
      && tab < |codes| && CodeFits(codes[tab])
      && Recorded()
    }

    // A statistics pass has counted the symbols of the stream that an output pass has written.
    ghost predicate Recorded()
      requires counts.Length == 257
      reads this`missingCode, this`tokens, this`parts, this`segs, counts, writer
    {
      writer.Valid() &&
      if gatherStatistics then CountsAre(counts[..], Flat(parts), tokens, tab)
      else WrittenAre(codes, parts, segs, tokens, missingCode, writer.before, writer.Bits())
    }

    // The numbers that decide about restarts.
    ghost predicate Counting()
      reads this`restartsToGo, this`nextRestartNum, this`parts
    {
      nextRestartNum == NumAfter(0, |parts|) && nextRestartNum < 8 && restartsToGo <= restartInterval
    }

    predicate AtRestart()
      reads this`restartsToGo
    {
      restartInterval > 0 && restartsToGo == 0
    }

    ghost function Pending(): Run
      requires be <= bitBuffer.Length
      reads this`eobrun, this`be, bitBuffer
    {
      Run(eobrun, bitBuffer[..be])
    }

    // The tokens of an interval that ends here.
    ghost function Completed(): seq<Token>
      requires be <= bitBuffer.Length
      reads this`tokens, this`eobrun, this`be, bitBuffer
    {
      tokens + EobTokens(tab, eobrun, bitBuffer[..be])
    }

    constructor (codes: seq<Code>, tab: nat, gatherStatistics: bool, restartInterval: nat)
      requires tab < |codes| && CodeFits(codes[tab])
      ensures Valid() && fresh(counts) && fresh(bitBuffer) && fresh(writer) && Pending() == Run(0, [])
      ensures tokens == [] && parts == [] && Counting() && restartsToGo == restartInterval == this.restartInterval
      ensures this.codes == codes && this.tab == tab && this.gatherStatistics == gatherStatistics
    {
      this.codes, this.tab, this.gatherStatistics, this.restartInterval := codes, tab, gatherStatistics, restartInterval;
      restartsToGo, nextRestartNum, parts, segs := restartInterval, 0, [], [];
      counts, bitBuffer := new nat[257](_ => 0), new bit[MAX_CORR_BITS](_ => 0);
      writer := new Writer();
      missingCode, eobrun, be, tokens := false, 0, 0, [];
    }

    // emit_ac_symbol.
    method EmitSymbol(symbol: nat)
      requires Valid() && symbol < 256
      modifies writer, this`missingCode, this`tokens, counts
      ensures Valid() && tokens == old(tokens) + [Symbol(tab, symbol)]
    {
      if gatherStatistics {
        CountsMore(counts[..], Flat(parts), tokens, tab, symbol);
        counts[symbol] := counts[symbol] + 1;
      } else {
        ghost var missing, bits := missingCode, writer.Bits();
        var ok := writer.EmitBits(codes[tab].ehufco[symbol], codes[tab].ehufsi[symbol]);
        if !ok {
          missingCode := true;
        }
        WrittenSymbol(codes, parts, segs, tokens, missing, writer.before, bits, tab, symbol, missingCode, writer.Bits());
      }
      tokens := tokens + [Symbol(tab, symbol)];
    }

    // Records raw bits, which an output pass has written.
    ghost method Record(bits: seq<bit>, was: seq<bit>)
      requires counts.Length == 257
      requires if gatherStatistics then Recorded() else
        && writer.Valid() && WrittenAre(codes, parts, segs, tokens, missingCode, writer.before, was)
        && writer.Bits() == was + bits
      modifies this`tokens
      ensures Recorded() && tokens == old(tokens) + [Raw(bits)]
    {
      if gatherStatistics {
        CountsRaw(counts[..], Flat(parts), tokens, tab, bits);
      } else {
        WrittenRaw(codes, parts, segs, tokens, missingCode, writer.before, was, bits);
      }
      tokens := tokens + [Raw(bits)];
    }

    // emit_bits_e.
    method EmitBits(code: int, size: nat)
      requires Valid() && 1 <= size <= 16
      modifies writer, this`tokens
      ensures Valid() && tokens == old(tokens) + [Raw(LowBits(code, size))]
    {
      ghost var was := writer.Bits();
      if !gatherStatistics {
        var ok := writer.EmitBits(code, size);
      }
      Record(LowBits(code, size), was);
    }

    // emit_buffered_bits.
    method EmitBufferedBits(bufstart: nat, nbits: nat)
      requires Valid() && bufstart + nbits <= bitBuffer.Length
      modifies writer, this`tokens
      ensures Valid() && tokens == old(tokens) + [Raw(bitBuffer[bufstart..bufstart + nbits])]
    {
      ghost var was := writer.Bits();
      if !gatherStatistics {
        EmitOneByOne(bufstart, nbits);
      }
      Record(bitBuffer[bufstart..bufstart + nbits], was);
    }

    method EmitOneByOne(bufstart: nat, nbits: nat)
      requires writer.Valid() && bufstart + nbits <= bitBuffer.Length
      modifies writer
      ensures writer.Valid() && writer.before == old(writer.before)
      ensures writer.Bits() == old(writer.Bits()) + bitBuffer[bufstart..bufstart + nbits]
    {
      ghost var bits, was := bitBuffer[bufstart..bufstart + nbits], writer.Bits();
      EndPrefixes(bits);
      assert was + [] == was;
      var i := 0;
      while i < nbits
        invariant i <= nbits && writer.Valid() && writer.before == old(writer.before) && writer.Bits() == was + bits[..i]
      {
        OneBit(bitBuffer[bufstart + i]);
        Prefixes(bits, i);
        Reassociate(was, bits[..i], [bits[i]]);
        var ok := writer.EmitBits(bitBuffer[bufstart + i], 1);
        i := i + 1;
      }
    }

    // emit_eobrun.
    method EmitEobrun()
      requires Valid() && eobrun <= 0x7FFF && (eobrun == 0 ==> be == 0)
      modifies writer, this`missingCode, this`tokens, this`eobrun, this`be, counts
      ensures Valid() && eobrun == 0 && be == 0
      ensures tokens == old(tokens) + EobTokens(tab, old(eobrun), old(bitBuffer[..be]))
    {
      EobTokensAre(tokens, tab, eobrun, bitBuffer[..be]);
      if eobrun > 0 {
        EmitRun();
        eobrun := 0;
        EmitCorrections();
      }
    }

    // The correction bits of the run.
    method EmitCorrections()
      requires Valid()
      modifies writer, this`tokens, this`be
      ensures Valid() && be == 0 && tokens == old(tokens) + [Raw(old(bitBuffer[..be]))]
    {
      assert bitBuffer[0..0 + be] == bitBuffer[..be];
      EmitBufferedBits(0, be);
      be := 0;
    }

    // The symbol for the run, and its length.
    method EmitRun()
      requires Valid() && 0 < eobrun <= 0x7FFF
      modifies writer, this`missingCode, this`tokens, counts
      ensures Valid() && tokens == (old(tokens) + [Symbol(tab, Log2(eobrun) * 16)]) + [Raw(LowBits(eobrun, Log2(eobrun)))]
    {
      var nbits := CountBits(eobrun);
      RunCategory(eobrun);
      EmitSymbol(nbits * 16);
      if nbits != 0 {
        EmitBits(eobrun, nbits);
      } else {
        assert LowBits(eobrun, 0) == [] && writer.Bits() + [] == writer.Bits();
        Record([], writer.Bits());
      }
    }

    // A symbol, after any pending run.
    method EmitAfterRun(symbol: nat)
      requires Valid() && eobrun <= 0x7FFF && (eobrun == 0 ==> be == 0) && symbol < 256
      modifies writer, this`missingCode, this`tokens, this`eobrun, this`be, counts
      ensures Valid() && eobrun == 0 && be == 0
      ensures tokens == old(tokens) + EobTokens(tab, old(eobrun), old(bitBuffer[..be])) + [Symbol(tab, symbol)]
    {
      EmitEobrun();
      EmitSymbol(symbol);
    }

    // Coding of a block has come to position k; r zeros and br correction bits wait for a symbol.  The
    // bits lie in the buffer above those of the pending run.
    ghost predicate InBlock(sc: Scan, c: Block, k: nat, r: nat, br: nat, was: Run, em: seq<Token>)
      reads this`eobrun, this`be, bitBuffer
    {
      && IsScan(sc) && bitBuffer.Length == MAX_CORR_BITS && sc.ss <= k <= sc.se + 1
      && be <= MAX_CORR_BITS - 64 + 1 && br <= k - sc.ss
      && Coding(sc, c, k, r, bitBuffer[be..be + br], em)
      && Pending() == (if em == [] then was else Run(0, []))
    }

    // A symbol with the correction bits that must be associated with it, and the sign of a new coefficient.
    method EmitCoded(symbol: nat, isNew: bool, sign: bit, br: nat)
      requires Valid() && eobrun <= 0x7FFF && (eobrun == 0 ==> be == 0) && symbol < 256 && be + br <= MAX_CORR_BITS
      modifies writer, this`missingCode, this`tokens, this`eobrun, this`be, counts
      ensures Valid() && eobrun == 0 && be == 0
      ensures tokens == old(tokens) + EobTokens(tab, old(eobrun), old(bitBuffer[..be])) +
        ([Symbol(tab, symbol)] + (if isNew then [Raw([sign])] else []) + [Raw(old(bitBuffer[be..be + br]))])
    {
      var brBuffer := be;
      ghost var base, eob := tokens, EobTokens(tab, eobrun, bitBuffer[..be]);
      CodedTokens(base + eob, tab, symbol, isNew, sign, bitBuffer[be..be + br]);
      EmitAfterRun(symbol);
      EmitSign(isNew, sign);
      EmitBufferedBits(brBuffer, br);
    }

    method EmitSign(isNew: bool, sign: bit)
      requires Valid()
      modifies writer, this`tokens
      ensures Valid() && tokens == old(tokens) + if isNew then [Raw([sign])] else []
    {
      if isNew {
        OneBit(sign);
        EmitBits(sign, 1);
      } else {
        assert tokens + [] == tokens;
      }
    }

    // encode_mcu_AC_refine.
    method EncodeMcuACRefine(sc: Scan, c: Block)
      requires Valid() && IsScan(sc) && sc.tab == tab && RunOk(Pending())
      modifies writer, this`missingCode, this`tokens, this`eobrun, this`be, counts, bitBuffer
      ensures Valid() && RunOk(Pending())
      ensures tokens == old(tokens) + BlockTokens(tab, old(Pending()), CodeRefine(sc, c))
      ensures Pending() == NextRun(old(Pending()), CodeRefine(sc, c))
    {
      ghost var was, base := Pending(), tokens;
      var absvalues, eob := PrePass(sc, c);
      var r, br;
      ghost var em;
      r, br, em := EncodeBand(sc, c, absvalues[..], eob, was, base);
      EndBlock(sc, c, r, br, was, em, base);
    }

    method EncodeBand(sc: Scan, c: Block, absvalues: seq<nat>, eob: nat, ghost was: Run, ghost base: seq<Token>)
      returns (r: nat, br: nat, ghost em: seq<Token>)
      requires Valid() && IsScan(sc) && sc.tab == tab && RunOk(was) && Pending() == was && tokens == base && |absvalues| == 64
      requires forall n :: sc.ss <= n <= sc.se ==> absvalues[n] == AbsValues(c, sc.p)[n]
      requires forall k :: sc.ss <= k <= sc.se + 1 ==> (k <= eob <==> OneAhead(sc, AbsValues(c, sc.p), k))
      modifies writer, this`missingCode, this`tokens, this`eobrun, this`be, counts, bitBuffer
      ensures Valid() && InBlock(sc, c, sc.se + 1, r, br, was, em) && tokens == base + Emission(tab, was, em)
    {
      r, br, em := 0, 0, [];
      assert bitBuffer[be..be + 0] == [] && base + [] == base;
      var k := sc.ss;
      while k <= sc.se
        invariant Valid() && InBlock(sc, c, k, r, br, was, em) && tokens == base + Emission(tab, was, em)
      {
        r, br, em := EncodeCoef(sc, c, k, absvalues[k], k <= eob, r, br, was, em, base);
        k := k + 1;
      }
    }

    method EncodeCoef(sc: Scan, c: Block, k: nat, temp: nat, beforeEob: bool, r: nat, br: nat,
                      ghost was: Run, ghost em: seq<Token>, ghost base: seq<Token>)
      returns (r': nat, br': nat, ghost em': seq<Token>)
      requires Valid() && sc.tab == tab && RunOk(was) && InBlock(sc, c, k, r, br, was, em) && k <= sc.se
      requires temp == AbsValues(c, sc.p)[k] && (beforeEob <==> OneAhead(sc, AbsValues(c, sc.p), k))
      requires tokens == base + Emission(tab, was, em)
      modifies writer, this`missingCode, this`tokens, this`eobrun, this`be, counts, bitBuffer
      ensures Valid() && InBlock(sc, c, k + 1, r', br', was, em')
      ensures tokens == base + Emission(tab, was, em')
    {
      r', br', em' := r, br, em;
      if temp == 0 {
        r' := r + 1;
      } else {
        r', br', em' := EncodeZrls(sc, c, k, beforeEob, r, br, was, em, base);
        if temp > 1 {
          KeepBit(sc, c, k, r', br', temp, was, em');
          br' := br' + 1;
        } else {
          em' := EncodeNew(sc, c, k, r', br', was, em', base);
          r', br' := 0, 0;
        }
      }
    }

    // ZRLs that cannot be folded into an end of band.
    method EncodeZrls(sc: Scan, c: Block, k: nat, beforeEob: bool, r: nat, br: nat,
                      ghost was: Run, ghost em: seq<Token>, ghost base: seq<Token>)
      returns (r': nat, br': nat, ghost em': seq<Token>)
      requires Valid() && sc.tab == tab && RunOk(was) && InBlock(sc, c, k, r, br, was, em) && k <= sc.se
      requires AbsValues(c, sc.p)[k] != 0 && (beforeEob <==> OneAhead(sc, AbsValues(c, sc.p), k))
      requires tokens == base + Emission(tab, was, em)
      modifies writer, this`missingCode, this`tokens, this`eobrun, this`be, counts
      ensures Valid() && InBlock(sc, c, k, r', br', was, em') && (r' <= 15 || !beforeEob)
      ensures tokens == base + Emission(tab, was, em')
    {
      r', br', em' := r, br, em;
      while r' > 15 && beforeEob
        invariant Valid() && InBlock(sc, c, k, r', br', was, em')
        invariant tokens == base + Emission(tab, was, em')
      {
        em' := EncodeZrl(sc, c, k, r', br', was, em', base);
        r', br' := r' - 16, 0;
      }
    }

    method EncodeZrl(sc: Scan, c: Block, k: nat, r: nat, br: nat, ghost was: Run, ghost em: seq<Token>, ghost base: seq<Token>)
      returns (ghost em': seq<Token>)
      requires Valid() && sc.tab == tab && RunOk(was) && InBlock(sc, c, k, r, br, was, em) && k <= sc.se
      requires AbsValues(c, sc.p)[k] != 0 && r > 15 && OneAhead(sc, AbsValues(c, sc.p), k)
      requires tokens == base + Emission(tab, was, em)
      modifies writer, this`missingCode, this`tokens, this`eobrun, this`be, counts
      ensures Valid() && InBlock(sc, c, k, r - 16, 0, was, em')
      ensures tokens == base + Emission(tab, was, em')
    {
      ghost var bits := bitBuffer[be..be + br];
      ghost var own := [Symbol(tab, 0xF0), Raw(bits)];
      EmitCoded(0xF0, false, 0, br);
      StepZrl(sc, c, k, r, bits, em);
      assert [Symbol(tab, 0xF0)] + [] + [Raw(bits)] == own;
      assert bitBuffer[be..be + 0] == [];
      EmissionMore(tab, was, em, own, base);
      em' := em + own;
    }

    method EncodeNew(sc: Scan, c: Block, k: nat, r: nat, br: nat, ghost was: Run, ghost em: seq<Token>, ghost base: seq<Token>)
      returns (ghost em': seq<Token>)
      requires Valid() && sc.tab == tab && RunOk(was) && InBlock(sc, c, k, r, br, was, em) && k <= sc.se
      requires AbsValues(c, sc.p)[k] == 1 && r <= 15
      requires tokens == base + Emission(tab, was, em)
      modifies writer, this`missingCode, this`tokens, this`eobrun, this`be, counts
      ensures Valid() && InBlock(sc, c, k + 1, 0, 0, was, em')
      ensures tokens == base + Emission(tab, was, em')
    {
      ghost var bits := bitBuffer[be..be + br];
      ghost var own := [Symbol(tab, r * 16 + 1), Raw([SignBit(c[k])]), Raw(bits)];
      EmitCoded(r * 16 + 1, true, SignBit(c[k]), br);
      StepNew(sc, c, k, r, bits, em);
      assert [Symbol(tab, r * 16 + 1)] + [Raw([SignBit(c[k])])] + [Raw(bits)] == own;
      assert bitBuffer[be..be + 0] == [];
      EmissionMore(tab, was, em, own, base);
      em' := em + own;
    }

    method KeepBit(sc: Scan, c: Block, k: nat, r: nat, br: nat, temp: nat, ghost was: Run, ghost em: seq<Token>)
      requires Valid() && InBlock(sc, c, k, r, br, was, em) && k <= sc.se
      requires temp == AbsValues(c, sc.p)[k] > 1 && !(r > 15 && OneAhead(sc, AbsValues(c, sc.p), k))
      modifies bitBuffer
      ensures Valid() && InBlock(sc, c, k + 1, r, br + 1, was, em)
    {
      StepKeep(sc, c, k, r, bitBuffer[be..be + br], em);
      PutBit(be + br, temp % 2);
      assert bitBuffer[be..be + (br + 1)] == old(bitBuffer[be..be + br]) + [temp % 2] && bitBuffer[..be] == old(bitBuffer[..be]);
    }

    method PutBit(n: nat, b: bit)
      requires Valid() && n < bitBuffer.Length
      modifies bitBuffer
      ensures Valid() && bitBuffer[..] == old(bitBuffer[..])[n := b]
    {
      bitBuffer[n] := b;
      assert counts[..] == old(counts[..]);
    }

    // encode_mcu_AC_first.  It fails on a coefficient that needs more than MAX_COEF_BITS bits.
    method EncodeMcuACFirst(sc: Scan, c: Block) returns (ok: bool)
      requires Valid() && IsScan(sc) && sc.tab == tab && RunOk(Pending()) && be == 0
      modifies writer, this`missingCode, this`tokens, this`eobrun, this`be, counts
      ensures Valid() && (ok <==> Representable(sc, c))
      ensures ok ==> RunOk(Pending()) && be == 0
      ensures ok ==> tokens == old(tokens) + BlockTokens(tab, old(Pending()), CodeFirst(sc, c))
      ensures ok ==> Pending() == NextRun(old(Pending()), CodeFirst(sc, c))
    {
      ghost var was, em, base := Pending(), [], tokens;
      var r, k := 0, sc.ss;
      assert base + [] == base;
      while k <= sc.se
        invariant Valid() && InFirst(sc, c, k, r, was, em) && tokens == base + Emission(tab, was, em)
        invariant InRangeTo(sc, c, k)
      {
        InRangeNext(sc, c, k);
        ok, r, em := EncodeFirstCoef(sc, c, k, r, was, em, base);
        if !ok {
          return;
        }
        k := k + 1;
      }
      InRangeAll(sc, c);
      EndFirst(sc, c, r, was, em, base);
      ok := true;
    }

    method EncodeFirstCoef(sc: Scan, c: Block, k: nat, r: nat, ghost was: Run, ghost em: seq<Token>, ghost base: seq<Token>)
      returns (ok: bool, r': nat, ghost em': seq<Token>)
      requires Valid() && sc.tab == tab && RunOk(was) && InFirst(sc, c, k, r, was, em)
      requires k <= sc.se && tokens == base + Emission(tab, was, em)
      modifies writer, this`missingCode, this`tokens, this`eobrun, this`be, counts
      ensures Valid() && (ok <==> NumBits(ShiftedCoef(c[k], sc.p)) <= MAX_COEF_BITS)
      ensures ok ==> InFirst(sc, c, k + 1, r', was, em') && tokens == base + Emission(tab, was, em')
    {
      ok, r', em' := true, r, em;
      var temp := PointTransform(c[k], sc.p);
      if temp == 0 {
        r' := r + 1;
      } else {
        ok, em' := EncodeNonzero(sc, c, k, temp, r, was, em, base);
        r' := 0;
      }
    }

    method EncodeNonzero(sc: Scan, c: Block, k: nat, temp: nat, r: nat, ghost was: Run, ghost em: seq<Token>,
                         ghost base: seq<Token>)
      returns (ok: bool, ghost em': seq<Token>)
      requires Valid() && sc.tab == tab && RunOk(was) && InFirst(sc, c, k, r, was, em)
      requires k <= sc.se && tokens == base + Emission(tab, was, em) && temp == Mag(c[k], sc.p) > 0
      modifies writer, this`missingCode, this`tokens, this`eobrun, this`be, counts
      ensures Valid() && (ok <==> NumBits(ShiftedCoef(c[k], sc.p)) <= MAX_COEF_BITS)
      ensures ok ==> InFirst(sc, c, k + 1, 0, was, em') && tokens == base + Emission(tab, was, em')
    {
      var r';
      r', em' := EncodeFirstZrls(sc, c, k, r, was, em, base);
      var temp2, nbits := SizeAndBits(c[k], sc.p, temp);
      ok := nbits <= MAX_COEF_BITS;
      if ok {
        em' := EncodeValue(sc, c, k, temp2, r', nbits, was, em', base);
      }
    }

    // The state of that loop.
    ghost predicate InFirst(sc: Scan, c: Block, k: nat, r: nat, was: Run, em: seq<Token>)
      reads this`eobrun, this`be, bitBuffer
    {
      && IsScan(sc) && bitBuffer.Length == MAX_CORR_BITS && sc.ss <= k <= sc.se + 1 && be == 0
      && CodeFirst(sc, c) == Before(em, CodeRuns(sc.tab, Shifted(c, sc.p), k, sc.se, r))
      && Pending() == (if em == [] then was else Run(0, []))
    }

    method EncodeFirstZrls(sc: Scan, c: Block, k: nat, r: nat, ghost was: Run, ghost em: seq<Token>, ghost base: seq<Token>)
      returns (r': nat, ghost em': seq<Token>)
      requires Valid() && sc.tab == tab && RunOk(was) && InFirst(sc, c, k, r, was, em)
      requires k <= sc.se && Shifted(c, sc.p)[k] != 0 && tokens == base + Emission(tab, was, em)
      modifies writer, this`missingCode, this`tokens, this`eobrun, this`be, counts
      ensures Valid() && InFirst(sc, c, k, r', was, em') && r' <= 15
      ensures tokens == base + Emission(tab, was, em')
    {
      r', em' := r, em;
      while r' > 15
        invariant Valid() && InFirst(sc, c, k, r', was, em') && tokens == base + Emission(tab, was, em')
      {
        em' := EncodeFirstZrl(sc, c, k, r', was, em', base);
        r' := r' - 16;
      }
    }

    method EncodeFirstZrl(sc: Scan, c: Block, k: nat, r: nat, ghost was: Run, ghost em: seq<Token>, ghost base: seq<Token>)
      returns (ghost em': seq<Token>)
      requires Valid() && sc.tab == tab && RunOk(was) && InFirst(sc, c, k, r, was, em)
      requires k <= sc.se && Shifted(c, sc.p)[k] != 0 && r > 15 && tokens == base + Emission(tab, was, em)
      modifies writer, this`missingCode, this`tokens, this`eobrun, this`be, counts
      ensures Valid() && InFirst(sc, c, k, r - 16, was, em') && tokens == base + Emission(tab, was, em')
    {
      ghost var own := [Symbol(tab, 0xF0)];
      assert bitBuffer[..be] == [];
      EmissionMore(tab, was, em, own, base);
      EmitAfterRun(0xF0);
      CodeZrl(tab, Shifted(c, sc.p), k, sc.se, r);
      MoreBefore(em, own, CodeRuns(tab, Shifted(c, sc.p), k, sc.se, r - 16));
      em' := em + own;
      assert bitBuffer[..be] == [];
    }

    // A symbol, after any pending run, and the bits that go with it.
    method EmitPair(symbol: nat, code: int, size: nat)
      requires Valid() && eobrun <= 0x7FFF && (eobrun == 0 ==> be == 0) && symbol < 256 && 1 <= size <= 16
      modifies writer, this`missingCode, this`tokens, this`eobrun, this`be, counts
      ensures Valid() && eobrun == 0 && be == 0
      ensures tokens == old(tokens) + EobTokens(tab, old(eobrun), old(bitBuffer[..be])) + [Symbol(tab, symbol), Raw(LowBits(code, size))]
    {
      ghost var head := tokens + EobTokens(tab, eobrun, bitBuffer[..be]);
      assert head + [Symbol(tab, symbol)] + [Raw(LowBits(code, size))] == head + [Symbol(tab, symbol), Raw(LowBits(code, size))];
      EmitAfterRun(symbol);
      EmitBits(code, size);
    }

    method EncodeValue(sc: Scan, c: Block, k: nat, temp2: int, r: nat, nbits: nat,
                       ghost was: Run, ghost em: seq<Token>, ghost base: seq<Token>) returns (ghost em': seq<Token>)
      requires Valid() && sc.tab == tab && RunOk(was) && InFirst(sc, c, k, r, was, em) && r <= 15
      requires k <= sc.se && Shifted(c, sc.p)[k] != 0 && tokens == base + Emission(tab, was, em)
      requires nbits == NumBits(Shifted(c, sc.p)[k]) <= MAX_COEF_BITS && LowBits(temp2, nbits) == ValueBits(Shifted(c, sc.p)[k])
      modifies writer, this`missingCode, this`tokens, this`eobrun, this`be, counts
      ensures Valid() && InFirst(sc, c, k + 1, 0, was, em')
      ensures tokens == base + Emission(tab, was, em')
    {
      ghost var v := Shifted(c, sc.p);
      ghost var own := [Symbol(tab, r * 16 + nbits), Raw(ValueBits(v[k]))];
      assert bitBuffer[..be] == [];
      EmissionMore(tab, was, em, own, base);
      EmitPair(r * 16 + nbits, temp2, nbits);
      CodeValue(tab, v, k, sc.se, r);
      MoreBefore(em, own, CodeRuns(tab, v, k + 1, sc.se, 0));
      em' := em + own;
      assert bitBuffer[..be] == [];
    }

    method EndFirst(sc: Scan, c: Block, r: nat, ghost was: Run, ghost em: seq<Token>, ghost base: seq<Token>)
      requires Valid() && sc.tab == tab && RunOk(was) && IsScan(sc) && InFirst(sc, c, sc.se + 1, r, was, em)
      requires tokens == base + Emission(tab, was, em)
      modifies writer, this`missingCode, this`tokens, this`eobrun, this`be, counts
      ensures Valid() && RunOk(Pending()) && be == 0 && Pending() == NextRun(was, CodeFirst(sc, c))
      ensures tokens == base + BlockTokens(tab, was, CodeFirst(sc, c))
    {
      assert CodeFirst(sc, c) == Coded(em, r > 0, []) by {
        assert em + [] == em;
      }
      assert bitBuffer[..be] == [];
      EndsBlock(tab, was, em, r > 0, [], base);
      if r > 0 {
        CountFirst();
      }
    }

    method CountFirst()
      requires Valid() && eobrun < 0x7FFF && be == 0
      modifies writer, this`missingCode, this`tokens, this`eobrun, this`be, counts
      ensures Valid() && be == 0 && Pending() == AfterEmitting(Run(old(eobrun) + 1, []))
      ensures tokens == old(tokens) + EmittedEob(tab, Run(old(eobrun) + 1, []))
    {
      assert bitBuffer[..be] == [] && tokens + [] == tokens;
      eobrun := eobrun + 1;
      if eobrun == 0x7FFF {
        EmitEobrun();
      }
    }

    // The last byte of a segment is filled up.
    method EndSegment()
      requires Valid() && !gatherStatistics
      modifies writer
      ensures writer.Valid() && writer.before == old(writer.before) && writer.pending == []
      ensures |segs| == |parts| && writer.before == Segments(segs, 0)
      ensures Behind(codes, parts + [tokens], segs + [writer.data])
      ensures missingCode <==> !AllEmittable(codes, parts + [tokens])
    {
      ghost var k := writer.FlushBits();
      assert !missingCode ==> FilledUp(Flatten(codes, tokens), writer.data);
      BehindSnoc(codes, parts, segs, tokens, writer.data);
    }

    // emit_restart_e.  In a statistics pass the run is counted, and nothing else is to be done.
    method EmitRestart()
      requires Valid() && Counting() && RunOk(Pending())
      modifies writer, this`missingCode, this`tokens, this`eobrun, this`be, this`parts, this`segs, counts
      ensures Valid() && Pending() == Run(0, []) && tokens == [] && parts == old(parts) + [old(Completed())]
    {
      EmitEobrun();
      CloseInterval();
      eobrun, be := 0, 0;
    }

    // The beginning of the encoding routines: a restart, if there is to be one.
    method BeginMcu()
      requires Valid() && Counting() && RunOk(Pending())
      modifies writer, this`missingCode, this`tokens, this`eobrun, this`be, this`parts, this`segs, counts
      ensures Valid() && Uncounted() && RunOk(Pending()) && be <= old(be)
      ensures Restarts(tab, restartInterval, old(parts), old(tokens), old(Pending()), restartsToGo, parts, tokens, Pending())
    {
      if restartInterval > 0 && restartsToGo == 0 {
        EmitRestart();
      }
    }

    // After a restart, before it is counted.
    ghost predicate Uncounted()
      reads this`restartsToGo, this`nextRestartNum, this`parts
    {
      && nextRestartNum < 8 && restartsToGo <= restartInterval
      && (if AtRestart() then |parts| > 0 && nextRestartNum == NumAfter(0, |parts| - 1) else nextRestartNum == NumAfter(0, |parts|))
    }

    // Their end.
    method EndMcu()
      requires Valid() && Uncounted()
      modifies this`restartsToGo, this`nextRestartNum
      ensures Valid() && Pending() == old(Pending())
      ensures Counting() && restartsToGo == LeftAfter(restartInterval, old(restartsToGo))
    {
      if AtRestart() {
        NumAfterStep(0, |parts| - 1);
      }
      restartsToGo, nextRestartNum := CountMcu(restartInterval, restartsToGo, nextRestartNum);
    }

    method CloseInterval()
      requires Valid() && Counting()
      modifies writer, this`tokens, this`parts, this`segs
      ensures Valid() && tokens == [] && parts == old(parts) + [old(tokens)]
    {
      if gatherStatistics {
        CountsClosed(counts[..], parts, tokens, tab);
      } else {
        EndSegment();
        ghost var data := writer.data;
        SegmentsSnoc(segs, 0, data);
        writer.EmitMarker(Rst(nextRestartNum));
        segs := segs + [data];
      }
      parts, tokens := parts + [tokens], [];
    }

    // finish_pass_huff, or the part of finish_pass_gather that flushes a pending run.
    method FinishPass() returns (ghost all: seq<seq<byte>>)
      requires Valid() && RunOk(Pending())
      modifies writer, this`missingCode, this`tokens, this`eobrun, this`be, counts
      ensures tokens == old(tokens) + EobTokens(tab, old(eobrun), old(bitBuffer[..be]))
      ensures if gatherStatistics then Recorded() else
        && all != [] && writer.out == ScanBytes(all)
        && (missingCode <==> !AllEmittable(codes, parts + [tokens])) && Behind(codes, parts + [tokens], all)
    {
      EmitEobrun();
      all := [];
      if !gatherStatistics {
        EndSegment();
        all := segs + [writer.data];
        assert all[..|segs|] == segs;
      }
    }

    // Trailing zeros count as an end of band, which is forced out if the counter or the buffer runs full.
    method EndBlock(sc: Scan, c: Block, r: nat, br: nat, ghost was: Run, ghost em: seq<Token>, ghost base: seq<Token>)
      requires Valid() && sc.tab == tab && RunOk(was) && IsScan(sc) && InBlock(sc, c, sc.se + 1, r, br, was, em)
      requires tokens == base + Emission(tab, was, em)
      modifies writer, this`missingCode, this`tokens, this`eobrun, this`be, counts
      ensures Valid() && RunOk(Pending()) && Pending() == NextRun(was, CodeRefine(sc, c))
      ensures tokens == base + BlockTokens(tab, was, CodeRefine(sc, c))
    {
      ghost var bits, before := bitBuffer[be..be + br], Pending();
      EndsBlock(tab, was, em, r > 0 || br > 0, bits, base);
      assert CodeRefine(sc, c) == Coded(em, r > 0 || br > 0, bits) by {
        assert em + [] == em;
      }
      assert br <= 63 && RunOk(before);
      if r > 0 || br > 0 {
        CountRefined(br);
        EmittingKeeps(Run(before.eobrun + 1, before.buf + bits));
      }
    }

    method CountRefined(br: nat)
      requires Valid() && eobrun < 0x7FFF && be + br <= MAX_CORR_BITS
      modifies writer, this`missingCode, this`tokens, this`eobrun, this`be, counts
      ensures Valid() && Pending() == AfterEmitting(Run(old(eobrun) + 1, old(bitBuffer[..be]) + old(bitBuffer[be..be + br])))
      ensures tokens == old(tokens) + EmittedEob(tab, Run(old(eobrun) + 1, old(bitBuffer[..be]) + old(bitBuffer[be..be + br])))
    {
      assert bitBuffer[..be + br] == bitBuffer[..be] + bitBuffer[be..be + br];
      eobrun := eobrun + 1;
      be := be + br;
      EmitIfFull();
    }

    method EmitIfFull()
      requires Valid() && 0 < eobrun <= 0x7FFF
      modifies writer, this`missingCode, this`tokens, this`eobrun, this`be, counts
      ensures Valid() && Pending() == AfterEmitting(old(Pending()))
      ensures tokens == old(tokens) + EmittedEob(tab, old(Pending()))
    {
      if eobrun == 0x7FFF || be > MAX_CORR_BITS - 64 + 1 {
        EmitEobrun();
        assert bitBuffer[..be] == [];
      } else {
        assert tokens + [] == tokens;
      }
    }
  }

  // A run that is forced out, and what remains pending.
  function EmittedEob(tab: nat, run: Run): seq<Token> {
    if MustEmit(run) then EobTokens(tab, run.eobrun, run.buf) else []
  }

  function AfterEmitting(run: Run): Run {
    if MustEmit(run) then Run(0, []) else run
  }

  lemma EmittingKeeps(run: Run)
    requires 0 < run.eobrun <= 0x7FFF
    ensures RunOk(AfterEmitting(run))
  {
  }

  lemma EndsBlock(tab: nat, was: Run, em: seq<Token>, pending: bool, br: seq<bit>, base: seq<Token>)
    ensures var coded := Coded(em, pending, br);
      var before := if em == [] then was else Run(0, []);
      var after := Run(before.eobrun + 1, before.buf + br);
      && NextRun(was, coded) == (if pending then AfterEmitting(after) else before)
      && base + BlockTokens(tab, was, coded) ==
           base + Emission(tab, was, em) + (if pending then EmittedEob(tab, after) else [])
  {
    var head := Emission(tab, was, em);
    assert base + head + [] == base + head;
    if pending {
      var before := if em == [] then was else Run(0, []);
      var after := Run(before.eobrun + 1, before.buf + br);
      Reassociate(base, head, EmittedEob(tab, after));
      assert head + [] == head;
    }
  }

  // The state of the block coder that has emitted em and waits with r zeros and the correction bits br.
  ghost predicate Coding(sc: Scan, c: Block, k: nat, r: nat, br: seq<bit>, em: seq<Token>)
    requires IsScan(sc) && k <= sc.se + 1
  {
    CodeRefine(sc, c) == Before(em, CodeFrom(sc, c, AbsValues(c, sc.p), k, r, br))
  }

  lemma StepZrl(sc: Scan, c: Block, k: nat, r: nat, br: seq<bit>, em: seq<Token>)
    requires IsScan(sc) && k <= sc.se && Coding(sc, c, k, r, br, em)
    requires AbsValues(c, sc.p)[k] != 0 && r > 15 && OneAhead(sc, AbsValues(c, sc.p), k)
    ensures Coding(sc, c, k, r - 16, [], em + [Symbol(sc.tab, 0xF0), Raw(br)])
  {
    var later := CodeFrom(sc, c, AbsValues(c, sc.p), k, r - 16, []);
    assert em + ([Symbol(sc.tab, 0xF0), Raw(br)] + later.tokens) == (em + [Symbol(sc.tab, 0xF0), Raw(br)]) + later.tokens;
  }

  lemma StepKeep(sc: Scan, c: Block, k: nat, r: nat, br: seq<bit>, em: seq<Token>)
    requires IsScan(sc) && k <= sc.se && Coding(sc, c, k, r, br, em)
    requires AbsValues(c, sc.p)[k] > 1 && !(r > 15 && OneAhead(sc, AbsValues(c, sc.p), k))
    ensures Coding(sc, c, k + 1, r, br + [AbsValues(c, sc.p)[k] % 2], em)
  {
  }

  lemma StepNew(sc: Scan, c: Block, k: nat, r: nat, br: seq<bit>, em: seq<Token>)
    requires IsScan(sc) && k <= sc.se && Coding(sc, c, k, r, br, em) && AbsValues(c, sc.p)[k] == 1 && r <= 15
    ensures Coding(sc, c, k + 1, 0, [], em + [Symbol(sc.tab, r * 16 + 1), Raw([SignBit(c[k])]), Raw(br)])
  {
    var own := [Symbol(sc.tab, r * 16 + 1), Raw([SignBit(c[k])]), Raw(br)];
    var later := CodeFrom(sc, c, AbsValues(c, sc.p), k + 1, 0, []);
    assert em + (own + later.tokens) == (em + own) + later.tokens;
  }

  // What a block has emitted so far, with the run that had to go before it.
  function Emission(tab: nat, was: Run, em: seq<Token>): seq<Token> {
    if em == [] then [] else EobTokens(tab, was.eobrun, was.buf) + em
  }

  lemma MoreBefore(em: seq<Token>, own: seq<Token>, later: Coded)
    ensures Before(em, Before(own, later)) == Before(em + own, later)
  {
    Reassociate(em, own, later.tokens);
  }

  lemma EmissionMore(tab: nat, was: Run, em: seq<Token>, own: seq<Token>, base: seq<Token>)
    requires own != []
    ensures base + Emission(tab, was, em + own) ==
      base + Emission(tab, was, em) + (if em == [] then EobTokens(tab, was.eobrun, was.buf) else []) + own
  {
    var eob := EobTokens(tab, was.eobrun, was.buf);
    if em == [] {
      assert em + own == own && base + [] == base;
    } else {
      assert base + (eob + em) + [] + own == base + (eob + (em + own));
    }
  }

  // The number of times that temp can be halved before it is zero, less one.
  method CountBits(x: nat) returns (nbits: nat)
    requires x > 0
    ensures nbits == Log2(x)
  {
    var temp: nat := x / 2;
    nbits := 0;
    while temp != 0
      invariant Log2(x) == nbits + (if temp == 0 then 0 else 1 + Log2(temp))
      decreases temp
    {
      temp := temp / 2;
      nbits := nbits + 1;
    }
  }

  lemma OneBit(b: bit)
    ensures LowBits(b, 1) == [b]
  {
    assert ToBits(b % 2, 1) == ToBits(b / 2, 0) + [b];
  }

  // The size of a coefficient, and what is emitted as its bits.
  method SizeAndBits(c: int, p: nat, temp: nat) returns (temp2: int, nbits: nat)
    requires p > 0 && temp == Mag(c, p) > 0
    ensures nbits == NumBits(ShiftedCoef(c, p)) && LowBits(temp2, nbits) == ValueBits(ShiftedCoef(c, p))
  {
    temp2 := temp;
    if c < 0 {
      temp2 := -temp2 - 1;
    }
    nbits := CountBits(temp);
    nbits := nbits + 1;
  }

  method PointTransform(c: int, p: nat) returns (temp: nat)
    requires p > 0
    ensures temp == Mag(c, p)
  {
    temp := if c < 0 then -c else c;
    assert temp == Abs(c) && Abs(c) / p == Mag(c, p);
    temp := temp / p;
  }

  // The pre-pass: magnitudes of the band, and the index of the last newly nonzero coefficient, or 0.
  method PrePass(sc: Scan, c: Block) returns (absvalues: array<nat>, eob: nat)
    requires IsScan(sc)
    ensures fresh(absvalues) && absvalues.Length == 64
    ensures forall n :: sc.ss <= n <= sc.se ==> absvalues[n] == AbsValues(c, sc.p)[n]
    ensures forall k :: sc.ss <= k <= sc.se + 1 ==> (k <= eob <==> OneAhead(sc, AbsValues(c, sc.p), k))
  {
    absvalues, eob := new nat[64](_ => 0), 0;
    ghost var a := AbsValues(c, sc.p);
    for k := sc.ss to sc.se + 1
      invariant forall n :: sc.ss <= n < k ==> absvalues[n] == a[n]
      invariant eob < k && (eob != 0 ==> eob >= sc.ss && a[eob] == 1)
      invariant forall n :: sc.ss <= n < k && a[n] == 1 ==> n <= eob
    {
      var temp := PointTransform(c[k], sc.p);
      assert temp == a[k];
      absvalues[k] := temp;
      if temp == 1 {
        eob := k;
      }
    }
  }
}
