// The loops of the sequential encoder of jchuff.c: encode_one_block and htest_one_block.
module SequentialCoder {
  import opened Numerals
  import opened CanonicalCode
  import opened BitWriter
  import opened TokenStream
  import opened ACScan
  import opened RunLength
  import opened SequentialBlock
  import opened SequentialIntervals
  import opened RestartStream
  import opened CodedSegments

  // The loop that finds the number of bits of a magnitude.
  method BitLength(v: int) returns (nbits: nat)
    ensures nbits == NumBits(v)
  {
    var temp: nat := if v < 0 then -v else v;
    nbits := 0;
    while temp != 0
      invariant NumBits(v) == nbits + NumBits(temp)
      decreases temp
    {
      temp := temp / 2;
      nbits := nbits + 1;
    }
  }

  // The bits that go with a size: the value, or for a negative one the value less one.
  function SignedCode(v: int): int {
    if v < 0 then v - 1 else v
  }

  // What jpeg_make_c_derived_tbl guarantees of its tables: code sizes up to 16.
  predicate CodesFit(codes: seq<Code>) {
    forall t :: 0 <= t < |codes| ==> CodeFits(codes[t])
  }

  // The loop over the components at a restart.
  method ResetPredictions(lastDcVal: array<int>)
    modifies lastDcVal
    ensures lastDcVal[..] == NoPredictions(lastDcVal.Length)
  {
    for ci := 0 to lastDcVal.Length
      invariant forall c :: 0 <= c < ci ==> lastDcVal[c] == 0
    {
      lastDcVal[ci] := 0;
    }
  }

  class Encoder {
    const codes: seq<Code>
    const se: nat                  // lim_Se
    const lastDcVal: array<int>    // one prediction for each component of the scan
    const writer: Writer
    const restartInterval: nat
    var restartsToGo: nat          // MCUs left in this restart interval
    var nextRestartNum: nat
    var missingCode: bool          // ERREXIT was called for a symbol without a code
    ghost var tokens: seq<Token>   // since the last restart
    ghost var parts: seq<seq<Token>>   // the tokens of the intervals before it
    ghost var segs: seq<seq<byte>>     // and their data

    ghost predicate Valid()
      reads this, writer
    {
      && se <= 63 && CodesFit(codes) && writer.Valid() && writer.before == Segments(segs, 0)
      && (missingCode <==> !AllEmittable(codes, parts) || !Emittable(codes, tokens)) && Behind(codes, parts, segs)
      && (!missingCode ==> writer.Bits() == Flatten(codes, tokens))
    }

    // The numbers that decide about restarts.
    ghost predicate Counting()
      reads this`restartsToGo, this`nextRestartNum, this`segs
    {
      nextRestartNum == NumAfter(0, |segs|) && nextRestartNum < 8 && restartsToGo <= restartInterval
    }

    predicate AtRestart()
      reads this`restartsToGo
    {
      restartInterval > 0 && restartsToGo == 0
    }

    // The tokens of all intervals.
    ghost function AllTokens(): (ts: seq<seq<Token>>)
      reads this`parts, this`tokens
      ensures ts != []
    {
      parts + [tokens]
    }

    // The predictions for the next MCU.
    ghost function Predictions(): (last: seq<int>)
      reads this`restartsToGo, lastDcVal
      ensures |last| == lastDcVal.Length
    {
      if AtRestart() then NoPredictions(lastDcVal.Length) else lastDcVal[..]
    }

    constructor (codes: seq<Code>, se: nat, components: nat, restartInterval: nat)
      requires se <= 63 && CodesFit(codes)
      ensures Valid() && Counting() && fresh(lastDcVal) && fresh(writer) && AllTokens() == [[]]
      ensures this.codes == codes && this.se == se && this.restartInterval == restartInterval == restartsToGo
      ensures lastDcVal[..] == NoPredictions(components)
    {
      this.codes, this.se, this.restartInterval := codes, se, restartInterval;
      restartsToGo, nextRestartNum := restartInterval, 0;
      lastDcVal := new int[components](_ => 0);
      writer := new Writer();
      missingCode, tokens, parts, segs := false, [], [], [];
    }

    // emit_bits_s for a symbol.
    method EmitSymbol(tab: nat, symbol: nat)
      requires Valid() && tab < |codes| && symbol < 256
      modifies this`missingCode, this`tokens, writer
      ensures Valid() && tokens == old(tokens) + [Symbol(tab, symbol)]
    {
      assert CodeFits(codes[tab]);
      FlattenSnoc(codes, tokens, Symbol(tab, symbol));
      LowBitsOf(codes[tab].ehufco[symbol], codes[tab].ehufsi[symbol]);
      var ok := writer.EmitBits(codes[tab].ehufco[symbol], codes[tab].ehufsi[symbol]);
      if !ok {
        missingCode := true;
      }
      tokens := tokens + [Symbol(tab, symbol)];
    }

    // emit_bits_s, which is not called for a size of 0.
    method EmitBits(code: int, size: nat)
      requires Valid() && size <= 16
      modifies this`tokens, writer
      ensures Valid() && tokens == old(tokens) + [Raw(LowBits(code, size))]
    {
      FlattenSnoc(codes, tokens, Raw(LowBits(code, size)));
      if size != 0 {
        var ok := writer.EmitBits(code, size);
      } else {
        assert writer.Bits() + [] == writer.Bits();
      }
      tokens := tokens + [Raw(LowBits(code, size))];
    }

    // encode_one_block.  It fails on a value out of range.
    method EncodeOneBlock(u: Unit, z: Block, lastDc: int) returns (ok: bool)
      requires Valid() && u.dcTab < |codes| && u.acTab < |codes|
      modifies this`missingCode, this`tokens, writer
      ensures Valid() && (ok <==> Encodable(z, se, lastDc))
      ensures ok ==> tokens == old(tokens) + UnitTokens(u, z, se, lastDc)
    {
      ghost var base := tokens;
      var diff := z[0] - lastDc;
      var nbits := BitLength(diff);
      if nbits > MAX_COEF_BITS + 1 {
        return false;
      }
      EmitSymbol(u.dcTab, nbits);
      EmitBits(SignedCode(diff), nbits);
      assert tokens == base + DcTokens(u.dcTab, diff);
      ok := EncodeAc(u.acTab, z);
      Reassociate(base, DcTokens(u.dcTab, diff), AcTokens(u.acTab, z, se));
    }

    method EncodeAc(tab: nat, z: Block) returns (ok: bool)
      requires Valid() && tab < |codes|
      modifies this`missingCode, this`tokens, writer
      ensures Valid() && (ok <==> InRange(z, 1, se))
      ensures ok ==> tokens == old(tokens) + AcTokens(tab, z, se)
    {
      ghost var base, em := tokens, [];
      var r, k := 0, 1;
      assert base + [] == base;
      while k <= se
        invariant 1 <= k <= se + 1 && Valid() && tokens == base + em && InRange(z, 1, k - 1)
        invariant InRuns(tab, z, se, k, r, em)
      {
        if z[k] == 0 {
          r := r + 1;
        } else {
          ok, em := EncodeValue(tab, z, k, r, em, base);
          if !ok {
            return;
          }
          r := 0;
        }
        k := k + 1;
      }
      assert em + [] == em;
      if r > 0 {
        EmitSymbol(tab, 0);
        assert base + em + [Symbol(tab, 0)] == base + (em + [Symbol(tab, 0)]);
      }
      ok := true;
    }

    method EncodeValue(tab: nat, z: Block, k: nat, zeros: nat, ghost em: seq<Token>, ghost base: seq<Token>)
      returns (ok: bool, ghost em': seq<Token>)
      requires Valid() && tab < |codes| && 1 <= k <= se && z[k] != 0 && tokens == base + em && InRuns(tab, z, se, k, zeros, em)
      modifies this`missingCode, this`tokens, writer
      ensures Valid() && (ok <==> NumBits(z[k]) <= MAX_COEF_BITS)
      ensures ok ==> tokens == base + em' && InRuns(tab, z, se, k + 1, 0, em')
    {
      var r;
      r, em' := EmitZrls(tab, z, k, zeros, em, base);
      var nbits := BitLength(z[k]);
      if nbits > MAX_COEF_BITS {
        return false, em';
      }
      EmitSymbol(tab, r * 16 + nbits);
      EmitBits(SignedCode(z[k]), nbits);
      StepValue(tab, z, se, k, r, em', base);
      em' := em' + [Symbol(tab, r * 16 + nbits), Raw(ValueBits(z[k]))];
      ok := true;
    }

    method EmitZrls(tab: nat, z: Block, k: nat, zeros: nat, ghost em: seq<Token>, ghost base: seq<Token>)
      returns (r: nat, ghost em': seq<Token>)
      requires Valid() && tab < |codes| && 1 <= k <= se && z[k] != 0 && tokens == base + em && InRuns(tab, z, se, k, zeros, em)
      modifies this`missingCode, this`tokens, writer
      ensures Valid() && tokens == base + em' && InRuns(tab, z, se, k, r, em') && r <= 15
    {
      r, em' := zeros, em;
      while r > 15
        invariant Valid() && tokens == base + em' && InRuns(tab, z, se, k, r, em')
      {
        EmitSymbol(tab, 0xF0);
        StepZrl(tab, z, se, k, r, em', base);
        em' := em' + [Symbol(tab, 0xF0)];
        r := r - 16;
      }
    }

    // One block, and the prediction for the next.
    method EncodeNext(u: Unit, z: Block) returns (ok: bool)
      requires Valid() && u.dcTab < |codes| && u.acTab < |codes| && u.comp < lastDcVal.Length
      modifies this`missingCode, this`tokens, writer, lastDcVal
      ensures Valid() && (ok <==> Encodable(z, se, old(lastDcVal[u.comp])))
      ensures ok ==> tokens == old(tokens) + UnitTokens(u, z, se, old(lastDcVal[u.comp]))
      ensures ok ==> lastDcVal[..] == old(lastDcVal[..])[u.comp := z[0]]
    {
      ghost var before := lastDcVal[..];
      ok := EncodeOneBlock(u, z, lastDcVal[u.comp]);
      if ok {
        assert lastDcVal[..] == before;
        lastDcVal[u.comp] := z[0];
      }
    }

    // The loop of encode_mcu_huff over the blocks.
    method EncodeBlocks(us: seq<Unit>, zs: seq<Block>) returns (ok: bool)
      requires Valid() && |us| == |zs| && TablesExist(|codes|, us, lastDcVal.Length)
      modifies this`missingCode, this`tokens, writer, lastDcVal
      ensures Valid() && (ok <==> AllEncodable(us, se, zs, old(lastDcVal[..])))
      ensures ok ==> tokens == old(tokens) + StreamTokens(us, se, zs, old(lastDcVal[..]))
      ensures ok ==> lastDcVal[..] == LastAfter(us, zs, old(lastDcVal[..]))
    {
      ghost var base, last := tokens, lastDcVal[..];
      var blkn := 0;
      assert us[0..] == us && zs[0..] == zs;
      while blkn < |us|
        invariant blkn <= |us| && Valid() && |lastDcVal[..]| == |last|
        invariant AllEncodable(us, se, zs, last) <==> AllEncodable(us[blkn..], se, zs[blkn..], lastDcVal[..])
        invariant base + StreamTokens(us, se, zs, last) == tokens + StreamTokens(us[blkn..], se, zs[blkn..], lastDcVal[..])
        invariant LastAfter(us, zs, last) == LastAfter(us[blkn..], zs[blkn..], lastDcVal[..])
      {
        StreamStep(us, se, zs, blkn, lastDcVal[..], tokens);
        ok := EncodeNext(us[blkn], zs[blkn]);
        if !ok {
          return;
        }
        blkn := blkn + 1;
      }
      ok := true;
    }

    // The last byte of a segment is filled up.
    method EndSegment()
      requires Valid()
      modifies writer
      ensures writer.Valid() && writer.before == old(writer.before) && writer.pending == []
      ensures Behind(codes, parts + [tokens], segs + [writer.data])
    {
      ghost var k := writer.FlushBits();
      assert !missingCode ==> FilledUp(Flatten(codes, tokens), writer.data);
      BehindSnoc(codes, parts, segs, tokens, writer.data);
    }

    // emit_restart_s, first its bytes.
    method EmitRst()
      requires Valid() && Counting()
      modifies this`tokens, this`parts, this`segs, writer
      ensures Valid() && parts == old(parts) + [old(tokens)] && tokens == [] && |segs| == old(|segs|) + 1
    {
      EndSegment();
      ghost var data := writer.data;
      SegmentsSnoc(segs, 0, data);
      AllEmittableSnoc(codes, parts, tokens);
      writer.EmitMarker(Rst(nextRestartNum));
      parts, segs, tokens := parts + [tokens], segs + [data], [];
    }

    method EmitRestart()
      requires Valid() && Counting()
      modifies this`tokens, this`parts, this`segs, writer, lastDcVal
      ensures Valid() && AllTokens() == old(AllTokens()) + [[]] && |segs| == old(|segs|) + 1
      ensures lastDcVal[..] == NoPredictions(lastDcVal.Length)
    {
      EmitRst();
      ResetPredictions(lastDcVal);
    }

    // After a restart, before it is counted.
    ghost predicate Uncounted()
      reads this`restartsToGo, this`nextRestartNum, this`segs
    {
      && nextRestartNum < 8 && restartsToGo <= restartInterval
      && (if AtRestart() then |segs| > 0 && nextRestartNum == NumAfter(0, |segs| - 1) else nextRestartNum == NumAfter(0, |segs|))
    }

    // A restart at the beginning of encode_mcu_huff, if there is to be one.
    method BeginMcu()
      requires Valid() && Counting()
      modifies this`tokens, this`parts, this`segs, writer, lastDcVal
      ensures Valid() && Uncounted() && AllTokens() == Opened(old(AllTokens()), AtRestart())
      ensures lastDcVal[..] == old(Predictions())
    {
      if restartInterval > 0 && restartsToGo == 0 {
        EmitRestart();
      }
    }

    // encode_mcu_huff.
    method EncodeMcu(us: seq<Unit>, zs: seq<Block>) returns (ok: bool)
      requires Valid() && Counting() && |us| == |zs| && TablesExist(|codes|, us, lastDcVal.Length)
      modifies this, writer, lastDcVal
      ensures Valid() && (ok <==> AllEncodable(us, se, zs, old(Predictions())))
      ensures ok ==> Counting() && restartsToGo == LeftAfter(restartInterval, old(restartsToGo))
      ensures ok ==> AllTokens() == Extended(old(AllTokens()), old(AtRestart()), StreamTokens(us, se, zs, old(Predictions())))
      ensures ok ==> lastDcVal[..] == LastAfter(us, zs, old(Predictions()))
    {
      ghost var before, restart := AllTokens(), AtRestart();
      BeginMcu();
      ghost var cur, from := tokens, lastDcVal[..];
      ok := EncodeBlocks(us, zs);
      if ok {
        ExtendedIs(before, restart, parts, cur, StreamTokens(us, se, zs, from));
        NumAfterStep(0, if restart then |segs| - 1 else 0);
        restartsToGo, nextRestartNum := CountMcu(restartInterval, restartsToGo, nextRestartNum);
      }
    }

    // finish_pass_huff.
    method FinishPass() returns (ghost all: seq<seq<byte>>)
      requires Valid()
      modifies writer
      ensures all != [] && writer.out == ScanBytes(all)
      ensures (missingCode <==> !AllEmittable(codes, AllTokens())) && Behind(codes, AllTokens(), all)
    {
      EndSegment();
      AllEmittableSnoc(codes, parts, tokens);
      all := segs + [writer.data];
      assert all[..|segs|] == segs;
    }
  }

  predicate TablesExist(tables: nat, us: seq<Unit>, components: nat) {
    forall i :: 0 <= i < |us| ==> us[i].comp < components && us[i].dcTab < tables && us[i].acTab < tables
  }

  lemma StreamStep(us: seq<Unit>, se: nat, zs: seq<Block>, i: nat, last: seq<int>, base: seq<Token>)
    requires |us| == |zs| && se <= 63 && i < |us| && forall j :: 0 <= j < |us| ==> us[j].comp < |last|
    ensures var u, last' := us[i], last[us[i].comp := zs[i][0]];
      && (AllEncodable(us[i..], se, zs[i..], last) <==>
            Encodable(zs[i], se, last[u.comp]) && AllEncodable(us[i + 1..], se, zs[i + 1..], last'))
      && base + StreamTokens(us[i..], se, zs[i..], last) ==
           (base + UnitTokens(u, zs[i], se, last[u.comp])) + StreamTokens(us[i + 1..], se, zs[i + 1..], last')
      && LastAfter(us[i..], zs[i..], last) == LastAfter(us[i + 1..], zs[i + 1..], last')
  {
    assert us[i..][0] == us[i] && us[i..][1..] == us[i + 1..] && zs[i..][0] == zs[i] && zs[i..][1..] == zs[i + 1..];
    var last' := last[us[i].comp := zs[i][0]];
    Reassociate(base, UnitTokens(us[i], zs[i], se, last[us[i].comp]), StreamTokens(us[i + 1..], se, zs[i + 1..], last'));
  }

  // The state of the loop over coefficients, here and in htest_one_block.
  ghost predicate InRuns(tab: nat, z: Block, se: nat, k: nat, r: nat, em: seq<Token>) {
    k <= se + 1 <= 64 && CodeRuns(tab, z, 1, se, 0) == Before(em, CodeRuns(tab, z, k, se, r))
  }

  lemma StepZrl(tab: nat, z: Block, se: nat, k: nat, r: nat, em: seq<Token>, base: seq<Token>)
    requires InRuns(tab, z, se, k, r, em) && k <= se && z[k] != 0 && r > 15
    ensures InRuns(tab, z, se, k, r - 16, em + [Symbol(tab, 0xF0)])
    ensures base + em + [Symbol(tab, 0xF0)] == base + (em + [Symbol(tab, 0xF0)])
  {
    CodeZrl(tab, z, k, se, r);
    Reassociate(em, [Symbol(tab, 0xF0)], CodeRuns(tab, z, k, se, r - 16).tokens);
  }

  lemma StepValue(tab: nat, z: Block, se: nat, k: nat, r: nat, em: seq<Token>, base: seq<Token>)
    requires InRuns(tab, z, se, k, r, em) && k <= se && z[k] != 0 && r <= 15
    ensures var own := [Symbol(tab, r * 16 + NumBits(z[k])), Raw(ValueBits(z[k]))];
      && InRuns(tab, z, se, k + 1, 0, em + own)
      && base + em + [own[0]] + [own[1]] == base + (em + own)
  {
    CodeValue(tab, z, k, se, r);
    Reassociate(em, [Symbol(tab, r * 16 + NumBits(z[k])), Raw(ValueBits(z[k]))], CodeRuns(tab, z, k + 1, se, 0).tokens);
  }

  // ---- Statistics ----

  const NUM_COUNTS := 257

  // The counts of each table are those of the symbols of the stream ts.
  ghost predicate Counted(counts: array2<nat>, ts: seq<Token>)
    reads counts
  {
    counts.Length1 == NUM_COUNTS &&
    forall t, s :: 0 <= t < counts.Length0 && 0 <= s < NUM_COUNTS ==> counts[t, s] == CountSymbol(ts, t, s)
  }

  method CountOne(counts: array2<nat>, tab: nat, symbol: nat, ghost ts: seq<Token>)
    requires Counted(counts, ts) && tab < counts.Length0 && symbol < NUM_COUNTS
    modifies counts
    ensures Counted(counts, ts + [Symbol(tab, symbol)])
  {
    forall t, s
      ensures CountSymbol(ts + [Symbol(tab, symbol)], t, s) ==
        CountSymbol(ts, t, s) + (if t == tab && s == symbol then 1 else 0)
    {
      CountSnoc(ts, Symbol(tab, symbol), t, s);
    }
    counts[tab, symbol] := counts[tab, symbol] + 1;
  }

  lemma RawUncounted(counts: array2<nat>, ts: seq<Token>, bits: seq<bit>)
    requires Counted(counts, ts)
    ensures Counted(counts, ts + [Raw(bits)])
  {
    forall t, s
      ensures CountSymbol(ts + [Raw(bits)], t, s) == CountSymbol(ts, t, s)
    {
      CountSnoc(ts, Raw(bits), t, s);
    }
  }

  // htest_one_block: it counts exactly the symbols that encode_one_block emits, and fails when it does.
  method HtestOneBlock(u: Unit, se: nat, z: Block, lastDc: int, counts: array2<nat>, ghost base: seq<Token>) returns (ok: bool)
    requires se <= 63 && u.dcTab < counts.Length0 && u.acTab < counts.Length0 && Counted(counts, base)
    modifies counts
    ensures ok <==> Encodable(z, se, lastDc)
    ensures ok ==> Counted(counts, base + UnitTokens(u, z, se, lastDc))
  {
    var diff := z[0] - lastDc;
    var nbits := BitLength(diff);
    if nbits > MAX_COEF_BITS + 1 {
      return false;
    }
    CountOne(counts, u.dcTab, nbits, base);
    RawUncounted(counts, base + [Symbol(u.dcTab, nbits)], ValueBits(diff));
    assert base + [Symbol(u.dcTab, nbits)] + [Raw(ValueBits(diff))] == base + DcTokens(u.dcTab, diff);
    ok := HtestAc(u.acTab, se, z, counts, base + DcTokens(u.dcTab, diff));
    Reassociate(base, DcTokens(u.dcTab, diff), AcTokens(u.acTab, z, se));
  }

  method HtestAc(tab: nat, se: nat, z: Block, counts: array2<nat>, ghost base: seq<Token>) returns (ok: bool)
    requires se <= 63 && tab < counts.Length0 && Counted(counts, base)
    modifies counts
    ensures ok <==> InRange(z, 1, se)
    ensures ok ==> Counted(counts, base + AcTokens(tab, z, se))
  {
    ghost var em := [];
    var r, k := 0, 1;
    assert base + [] == base;
    while k <= se
      invariant 1 <= k <= se + 1 && Counted(counts, base + em) && InRange(z, 1, k - 1)
      invariant InRuns(tab, z, se, k, r, em)
    {
      if z[k] == 0 {
        r := r + 1;
      } else {
        ok, em := HtestValue(tab, se, z, k, r, counts, em, base);
        if !ok {
          return;
        }
        r := 0;
      }
      k := k + 1;
    }
    assert em + [] == em;
    if r > 0 {
      CountOne(counts, tab, 0, base + em);
      assert base + em + [Symbol(tab, 0)] == base + (em + [Symbol(tab, 0)]);
    }
    ok := true;
  }

  method HtestValue(tab: nat, se: nat, z: Block, k: nat, zeros: nat, counts: array2<nat>, ghost em: seq<Token>,
                    ghost base: seq<Token>)
    returns (ok: bool, ghost em': seq<Token>)
    requires se <= 63 && tab < counts.Length0 && 1 <= k <= se && z[k] != 0
    requires Counted(counts, base + em) && InRuns(tab, z, se, k, zeros, em)
    modifies counts
    ensures ok <==> NumBits(z[k]) <= MAX_COEF_BITS
    ensures ok ==> Counted(counts, base + em') && InRuns(tab, z, se, k + 1, 0, em')
  {
    var r: nat := zeros;
    em' := em;
    while r > 15
      invariant Counted(counts, base + em') && InRuns(tab, z, se, k, r, em')
    {
      CountOne(counts, tab, 0xF0, base + em');
      StepZrl(tab, z, se, k, r, em', base);
      em' := em' + [Symbol(tab, 0xF0)];
      r := r - 16;
    }
    var nbits := BitLength(z[k]);
    if nbits > MAX_COEF_BITS {
      return false, em';
    }
    CountOne(counts, tab, r * 16 + nbits, base + em');
    RawUncounted(counts, base + em' + [Symbol(tab, r * 16 + nbits)], ValueBits(z[k]));
    StepValue(tab, z, se, k, r, em', base);
    em' := em' + [Symbol(tab, r * 16 + nbits), Raw(ValueBits(z[k]))];
    ok := true;
  }

  // The loop of encode_mcu_gather over the blocks.
  method GatherBlocks(us: seq<Unit>, se: nat, zs: seq<Block>, lastDcVal: array<int>, counts: array2<nat>, ghost base: seq<Token>)
    returns (ok: bool)
    requires se <= 63 && |us| == |zs| && TablesExist(counts.Length0, us, lastDcVal.Length) && Counted(counts, base)
    modifies lastDcVal, counts
    ensures ok <==> AllEncodable(us, se, zs, old(lastDcVal[..]))
    ensures ok ==> Counted(counts, base + StreamTokens(us, se, zs, old(lastDcVal[..])))
    ensures ok ==> lastDcVal[..] == LastAfter(us, zs, old(lastDcVal[..]))
  {
    ghost var last, ts := lastDcVal[..], base;
    var blkn := 0;
    assert us[0..] == us && zs[0..] == zs;
    while blkn < |us|
      invariant blkn <= |us| && Counted(counts, ts) && |lastDcVal[..]| == |last|
      invariant AllEncodable(us, se, zs, last) <==> AllEncodable(us[blkn..], se, zs[blkn..], lastDcVal[..])
      invariant base + StreamTokens(us, se, zs, last) == ts + StreamTokens(us[blkn..], se, zs[blkn..], lastDcVal[..])
      invariant LastAfter(us, zs, last) == LastAfter(us[blkn..], zs[blkn..], lastDcVal[..])
    {
      var u, z := us[blkn], zs[blkn];
      StreamStep(us, se, zs, blkn, lastDcVal[..], ts);
      ghost var before := lastDcVal[..];
      ok := HtestOneBlock(u, se, z, lastDcVal[u.comp], counts, ts);
      if !ok {
        return;
      }
      ts := ts + UnitTokens(u, z, se, before[u.comp]);
      lastDcVal[u.comp] := z[0];
      assert lastDcVal[..] == before[u.comp := z[0]];
      blkn := blkn + 1;
    }
    assert ts + [] == ts;
    ok := true;
  }

  // encode_mcu_gather, which looks after restart intervals as well.
  method GatherMcu(us: seq<Unit>, se: nat, zs: seq<Block>, lastDcVal: array<int>, restartInterval: nat, restartsToGo: nat,
                   counts: array2<nat>, ghost base: seq<Token>)
    returns (ok: bool, togo: nat)
    requires se <= 63 && |us| == |zs| && TablesExist(counts.Length0, us, lastDcVal.Length) && Counted(counts, base)
    modifies lastDcVal, counts
    ensures togo == LeftAfter(restartInterval, restartsToGo)
    ensures var last := if restartInterval > 0 && restartsToGo == 0 then NoPredictions(lastDcVal.Length) else old(lastDcVal[..]);
      && (ok <==> AllEncodable(us, se, zs, last))
      && (ok ==> Counted(counts, base + StreamTokens(us, se, zs, last)) && lastDcVal[..] == LastAfter(us, zs, last))
  {
    togo := restartsToGo;
    if restartInterval > 0 {
      if togo == 0 {
        ResetPredictions(lastDcVal);
        togo := restartInterval;
      }
      togo := togo - 1;
    }
    ok := GatherBlocks(us, se, zs, lastDcVal, counts, base);
  }
}
