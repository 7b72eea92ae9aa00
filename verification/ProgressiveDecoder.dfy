// decode_mcu_AC_first and decode_mcu_AC_refine of jdhuff.c, working in place on the block, from a bit
// reader that may run out of input, or out of data.
module ProgressiveDecoder {
  import opened Numerals
  import opened CanonicalCode
  import opened DerivedTables
  import opened HuffmanDecode
  import opened BitReader
  import opened ACScan
  import opened ACFirst
  import opened ACRefine
  import opened ProgressiveScan
  import opened RefineReader
  import opened RunReader
  import opened RestartStream
  import opened RestartReader
  import RunLength

  // What a completed call does to the state of the input, to the block and to the run.  Once the data
  // have run out it changes nothing.  Until then the block is decoded from the bits to come, continued
  // by as many zeros as it takes.
  ghost predicate BlockRead(sc: Scan, htbl: HuffTable, z: Block, eobrun: nat, from: Source, z': Block, eobrun': nat, k: nat,
                            to: Source)
    requires IsScan(sc) && Readable(htbl)
  {
    if from.warned then z' == z && eobrun' == eobrun && to == from
    else
      && DecodeMcu(sc, htbl, z, eobrun, from.rest + Zeros(k)) == Done(z', to.rest, eobrun')
      && to == from.(rest := to.rest, warned := k > 0) && (k > 0 ==> from.here && |to.rest| < k)
  }

  lemma TookIsRead(sc: Scan, htbl: HuffTable, z: Block, eobrun: nat, from: Source, w: seq<bit>, k: nat, to: Source,
                   z': Block, eobrun': nat)
    requires IsScan(sc) && Readable(htbl) && !from.warned && Took(from, w, k, to)
    requires DecodeMcu(sc, htbl, z, eobrun, w + to.rest) == Done(z', to.rest, eobrun')
    ensures BlockRead(sc, htbl, z, eobrun, from, z', eobrun', k, to)
  {
  }

  lemma InRunRead(sc: Scan, htbl: HuffTable, z: Block, eobrun: nat, from: Source)
    requires IsScan(sc) && sc.first && Readable(htbl) && !from.warned && eobrun > 0
    ensures BlockRead(sc, htbl, z, eobrun, from, z, eobrun - 1, 0, from)
  {
    assert from.rest + Zeros(0) == from.rest;
  }

  // ---- What a suspended call leaves behind ----

  // A first scan: the coefficients of the bits that it has taken.
  ghost predicate FirstInterrupted(sc: Scan, htbl: HuffTable, z: Block, s: seq<bit>, y: Block)
    requires IsScan(sc) && Readable(htbl)
  {
    exists w: seq<bit> :: w <= s && FirstMcu(sc, htbl, z, 0, w) == Suspended(y)
  }

  // A refinement: the corrections of the n fetches that have succeeded.
  ghost predicate RefineInterrupted(sc: Scan, htbl: HuffTable, z: Block, eobrun: nat, s: seq<bit>, y: Block)
    requires IsScan(sc) && Readable(htbl)
  {
    exists n: nat :: RefineMcu(sc, htbl, z, eobrun, s, n) == Suspended(y)
  }

  ghost predicate Interrupted(sc: Scan, htbl: HuffTable, z: Block, eobrun: nat, s: seq<bit>, y: Block)
    requires IsScan(sc) && Readable(htbl)
  {
    if sc.first then eobrun == 0 && FirstInterrupted(sc, htbl, z, s, y) else RefineInterrupted(sc, htbl, z, eobrun, s, y)
  }

  function FirstBand(sc: Scan, htbl: HuffTable): Band {
    Band(htbl, sc.se, sc.se, sc.p)
  }

  lemma FirstStarved(sc: Scan, htbl: HuffTable, from: Source, z: Block, w: seq<bit>, k: nat, to: Source, ended: bool,
                     z': Block, k': nat, r: nat)
    requires IsScan(sc) && Readable(htbl) && !from.here
    requires Reading(FirstBand(sc, htbl), from, z, sc.ss, w, k, to, ended, z', k', r)
    requires if ended then r > 0 else k' <= sc.se
    ensures FirstInterrupted(sc, htbl, z, from.rest, z')
  {
    AllTaken(from, w, k, to);
    assert w + [] == w;
    var b := FirstBand(sc, htbl);
    assert Runs(b, z, sc.ss, w + []) == if ended then RunLength.AtEob(z', r, []) else Runs(b, z', k', []);
    assert FirstMcu(sc, htbl, z, 0, w) == Suspended(z');
  }

  lemma FirstEnds(sc: Scan, htbl: HuffTable, from: Source, z: Block, w: seq<bit>, k: nat, to: Source, ended: bool,
                  z': Block, k': nat, r: nat)
    requires IsScan(sc) && Readable(htbl)
    requires Reading(FirstBand(sc, htbl), from, z, sc.ss, w, k, to, ended, z', k', r)
    requires if ended then r == 0 else k' > sc.se
    ensures FirstMcu(sc, htbl, z, 0, w + to.rest) == Done(z', to.rest, 0)
  {
    var b := FirstBand(sc, htbl);
    assert Runs(b, z, sc.ss, w + to.rest) ==
      if ended then RunLength.AtEob(z', r, to.rest) else Runs(b, z', k', to.rest);
  }

  lemma FirstRun(sc: Scan, htbl: HuffTable, from: Source, z: Block, w: seq<bit>, k: nat, mid: Source, z': Block, k': nat,
                 r: nat, x: seq<bit>, t: seq<bit>)
    requires IsScan(sc) && Readable(htbl) && |x| == r > 0
    requires Reading(FirstBand(sc, htbl), from, z, sc.ss, w, k, mid, true, z', k', r)
    ensures FirstMcu(sc, htbl, z, 0, (w + x) + t) == Done(z', t, Pow2(r) + BitsValue(x) - 1)
  {
    var b := FirstBand(sc, htbl);
    Reassociate(w, x, t);
    assert Runs(b, z, sc.ss, w + (x + t)) == RunLength.AtEob(z', r, x + t);
    CutAfter(x, t);
  }

  class Decoder {
    const htbl: HuffTable     // ac_derived_tbl
    const tbl: DTable
    const bitstate: Reader    // the saved state
    var eobrun: nat
    const restartInterval: nat
    var restartsToGo: nat     // MCUs left in this restart interval
    var nextRestartNum: nat   // kept by the marker reader

    ghost predicate Valid()
      reads bitstate
    {
      Readable(htbl) && DecodesWith(htbl, tbl) && bitstate.Valid()
    }

    ghost function Now(): Standing<nat>
      reads this`eobrun, this`restartsToGo, this`nextRestartNum, bitstate
    {
      Standing(bitstate.State(), eobrun, restartsToGo, nextRestartNum)
    }

    constructor (htbl: HuffTable, tbl: DTable, restartInterval: nat, ghost input: seq<byte>)
      requires Readable(htbl) && DecodesWith(htbl, tbl)
      ensures Valid() && fresh(bitstate) && this.htbl == htbl && this.restartInterval == restartInterval
      ensures Now() == Standing(Fresh(input), 0, restartInterval, 0)
    {
      this.htbl, this.tbl, eobrun := htbl, tbl, 0;
      this.restartInterval, restartsToGo, nextRestartNum := restartInterval, restartInterval, 0;
      bitstate := new Reader([], input);
      new;
      assert [] + input == input;
    }

    // decode_mcu_AC_first.  A suspended call keeps the input and the run.
    method DecodeMcuACFirst(sc: Scan, block: array<int>) returns (ok: bool, ghost k: nat)
      requires Valid() && IsScan(sc) && sc.first && block.Length == 64
      modifies this`eobrun, bitstate, block
      ensures Valid()
      ensures ok ==>
        BlockRead(sc, htbl, old(block[..]), old(eobrun), old(bitstate.State()), block[..], eobrun, k, bitstate.State())
      ensures !ok ==> !bitstate.Here() && !bitstate.State().warned && unchanged(bitstate) && eobrun == old(eobrun) == 0
      ensures !ok ==> FirstInterrupted(sc, htbl, old(block[..]), bitstate.Rest(), block[..])
    {
      ok, k := true, 0;
      if !bitstate.insufficientData {
        if eobrun > 0 {
          InRunRead(sc, htbl, block[..], eobrun, bitstate.State());
          eobrun := eobrun - 1;
        } else {
          ok, k := DecodeFresh(sc, block);
        }
      }
    }

    // A block outside a run, on a working copy of the state.
    method DecodeFresh(sc: Scan, block: array<int>) returns (ok: bool, ghost k: nat)
      requires Valid() && IsScan(sc) && sc.first && block.Length == 64 && eobrun == 0 && !bitstate.State().warned
      modifies this`eobrun, bitstate, block
      ensures Valid()
      ensures ok ==> BlockRead(sc, htbl, old(block[..]), 0, old(bitstate.State()), block[..], eobrun, k, bitstate.State())
      ensures !ok ==> !bitstate.Here() && unchanged(bitstate) && eobrun == 0
      ensures !ok ==> FirstInterrupted(sc, htbl, old(block[..]), bitstate.Rest(), block[..])
    {
      ghost var from, z := bitstate.State(), block[..];
      var state := new Reader.Copy(bitstate);
      var run;
      ghost var w;
      ok, run, w, k := ReadBand(state, sc, block);
      if ok {
        TookIsRead(sc, htbl, z, 0, from, w, k, state.State(), block[..], run);
        bitstate.Save(state);
        eobrun := run;
      }
    }

    // The symbols of a band, and the length of the run that it may start.
    method ReadBand(state: Reader, sc: Scan, block: array<int>) returns (ok: bool, run: nat, ghost w: seq<bit>, ghost k: nat)
      requires Readable(htbl) && DecodesWith(htbl, tbl) && state.Valid() && IsScan(sc) && block.Length == 64
      modifies state, block
      ensures state.Valid()
      ensures ok ==> Took(old(state.State()), w, k, state.State())
      ensures ok ==> FirstMcu(sc, htbl, old(block[..]), 0, w + state.Rest()) == Done(block[..], state.Rest(), run)
      ensures !ok ==> !old(state.Here()) && FirstInterrupted(sc, htbl, old(block[..]), old(state.Rest()), block[..])
    {
      ghost var from, z := state.State(), block[..];
      var ended, pos, r;
      ok, ended, pos, r, w, k := ReadSymbols(state, sc, block);
      run := 0;
      if ok {
        if ended && r > 0 {
          ok, run, w, k := ReadRun(state, sc, r, from, z, block[..], pos, w, k);
        } else {
          FirstEnds(sc, htbl, from, z, w, k, state.State(), ended, block[..], pos, r);
        }
      }
    }

    // The appended bits of an end-of-band symbol of category r.
    method ReadRun(state: Reader, sc: Scan, r: nat, ghost from: Source, ghost z: Block, ghost z': Block, ghost pos: nat,
                   ghost w: seq<bit>, ghost k: nat)
      returns (ok: bool, run: nat, ghost w': seq<bit>, ghost k': nat)
      requires Readable(htbl) && state.Valid() && IsScan(sc) && 0 < r < 15
      requires Reading(FirstBand(sc, htbl), from, z, sc.ss, w, k, state.State(), true, z', pos, r)
      modifies state
      ensures state.Valid()
      ensures ok ==> Took(from, w', k', state.State())
      ensures ok ==> FirstMcu(sc, htbl, z, 0, w' + state.Rest()) == Done(z', state.Rest(), run)
      ensures !ok ==> !from.here && FirstInterrupted(sc, htbl, z, from.rest, z')
    {
      ghost var mid := state.State();
      var more;
      ghost var x, j;
      run := Pow2(r);
      ok, more, x, j := state.Fetch(r);
      w', k' := w + x, k + j;
      if ok {
        run := run + more - 1;
        TookMore(from, w, k, mid, x, j, state.State());
        FirstRun(sc, htbl, from, z, w, k, mid, z', pos, r, x, state.Rest());
      } else {
        FirstStarved(sc, htbl, from, z, w, k, mid, true, z', pos, r);
      }
    }

    // The loop over symbols, to the end of the band or to an end-of-band symbol of category r.
    method ReadSymbols(state: Reader, sc: Scan, block: array<int>)
      returns (ok: bool, ended: bool, k: nat, r: nat, ghost w: seq<bit>, ghost n: nat)
      requires Readable(htbl) && DecodesWith(htbl, tbl) && state.Valid() && IsScan(sc) && block.Length == 64
      modifies state, block
      ensures state.Valid()
      ensures ok ==> (if ended then r < 15 else k > sc.se)
      ensures ok ==> Reading(FirstBand(sc, htbl), old(state.State()), old(block[..]), sc.ss, w, n, state.State(), ended, block[..], k, r)
      ensures !ok ==> !old(state.Here()) && FirstInterrupted(sc, htbl, old(block[..]), old(state.Rest()), block[..])
    {
      ghost var z, from := block[..], state.State();
      ok, ended, k, r, w, n := true, false, sc.ss, 0, [], 0;
      ReadingStarts(FirstBand(sc, htbl), from, z, sc.ss);
      while ok && !ended && k <= sc.se
        invariant state.Valid() && k >= sc.ss && (ok && ended ==> r < 15)
        invariant ok ==> Reading(FirstBand(sc, htbl), from, z, sc.ss, w, n, state.State(), ended, block[..], k, r)
        invariant !ok ==> !from.here && FirstInterrupted(sc, htbl, z, from.rest, block[..])
        decreases ok && !ended, sc.se + 1 - k
      {
        ok, ended, k, r, w, n := ReadSymbol(state, sc, block, k, from, z, r, w, n);
      }
    }

    method ReadSymbol(state: Reader, sc: Scan, block: array<int>, k: nat, ghost from: Source, ghost z: Block, ghost r0: nat,
                      ghost w: seq<bit>, ghost n: nat)
      returns (ok: bool, ended: bool, k': nat, r: nat, ghost w': seq<bit>, ghost n': nat)
      requires Readable(htbl) && DecodesWith(htbl, tbl) && state.Valid() && IsScan(sc) && block.Length == 64
      requires sc.ss <= k <= sc.se
      requires Reading(FirstBand(sc, htbl), from, z, sc.ss, w, n, state.State(), false, block[..], k, r0)
      modifies state, block
      ensures state.Valid() && k' >= k && (ok && !ended ==> k' > k) && (ok && ended ==> r < 15)
      ensures ok ==> Reading(FirstBand(sc, htbl), from, z, sc.ss, w', n', state.State(), ended, block[..], k', r)
      ensures !ok ==> !from.here && FirstInterrupted(sc, htbl, z, from.rest, block[..])
    {
      ghost var b, before, mid := FirstBand(sc, htbl), block[..], state.State();
      var s, v;
      ghost var x, j;
      ok, r, s, v, x, j := ReadPair(state, htbl, tbl, true);
      ended, k', w', n' := false, k, w + x, n + j;
      if !ok {
        FirstStarved(sc, htbl, from, z, w, n, mid, false, before, k, r0);
        return;
      }
      if s != 0 {
        block[Clamp(k + r)] := v * sc.p;
        assert block[..] == RunLength.Put(before, k, r, sc.se, v * sc.p);
        k' := k + r + 1;
      } else if r != 15 {
        ended := true;
      } else {
        k' := k + 16;
      }
      ReadingPair(b, from, z, sc.ss, w, n, mid, before, k, r0, x, j, state.State(), r, s, ended, block[..], k');
    }

    method UndoNew(block: array<int>, newnzPos: array<nat>, num: nat)
      requires block.Length == 64 && num <= newnzPos.Length && Positions(newnzPos[..num])
      modifies block
      ensures block[..] == Undo(old(block[..]), newnzPos[..num])
    {
      ghost var newnz := newnzPos[..num];
      var n := num;
      assert newnz[..num] == newnz;
      while n > 0
        invariant n <= num && Undo(block[..], newnz[..n]) == Undo(old(block[..]), newnz)
      {
        n := n - 1;
        ghost var z := block[..];
        assert newnz[..n + 1][..n] == newnz[..n] && newnzPos[n] == newnz[n];
        block[newnzPos[n]] := 0;
        assert block[..] == z[newnz[n] := 0];
      }
    }

    // One symbol of the loop: a new coefficient, a ZRL, or the length of a run.
    method DecodeSymbol(state: Reader, sc: Scan, block: array<int>, newnzPos: array<nat>, k: nat, num: nat)
      returns (ok: bool, k': nat, run: nat, num': nat, ghost w: seq<bit>, ghost n: nat, ghost j: nat)
      requires Readable(htbl) && DecodesWith(htbl, tbl) && state.Valid() && IsScan(sc) && block.Length == newnzPos.Length == 64
      requires k <= sc.se && num < k && Positions(newnzPos[..num])
      modifies state, block, newnzPos
      ensures state.Valid() && Progress(sc, ok, run, k, k', num, num') && Positions(newnzPos[..num'])
      ensures Refining(sc, htbl, old(block[..]), k, old(newnzPos[..num]), old(state.State()), ok, run, w, n, j, state.State(),
                       block[..], k', newnzPos[..num'])
    {
      ghost var from, z, newnz := state.State(), block[..], newnzPos[..num];
      ok, k', run, num', n := false, k, 0, num, 0;
      var sym;
      sym, w, j := state.HuffDecode(htbl, tbl);
      if sym < 0 {
        SymbolForced(sc, htbl, z, k, newnz, from.rest);
        return;
      }
      var r, s := sym / 16, sym % 16;
      if s != 0 {
        ok, k', num', w, n, j := DecodeNew(state, sc, block, newnzPos, k, num, sym, from, w, j);
      } else if r == 15 {
        ok, k', w, n, j := SkipZeros(state, sc, block, k, newnz, sym, from, w, j);
      } else {
        ok, run, w, n, j := DecodeRun(state, sc, block[..], k, newnz, sym, from, w, j);
      }
    }

    // A new coefficient: its sign, then its place.
    method DecodeNew(state: Reader, sc: Scan, block: array<int>, newnzPos: array<nat>, k: nat, num: nat, sym: nat,
                     ghost from: Source, ghost code: seq<bit>, ghost invented: nat)
      returns (ok: bool, k': nat, num': nat, ghost w: seq<bit>, ghost n: nat, ghost j: nat)
      requires Readable(htbl) && state.Valid() && IsScan(sc) && block.Length == newnzPos.Length == 64
      requires k <= sc.se && num < k && Positions(newnzPos[..num]) && sym % 16 != 0
      requires Took(from, code, invented, state.State()) && Decode(htbl, code) == Got(sym, |code|)
      modifies state, block, newnzPos
      ensures state.Valid() && Progress(sc, ok, 0, k, k', num, num') && Positions(newnzPos[..num'])
      ensures Refining(sc, htbl, old(block[..]), k, old(newnzPos[..num]), from, ok, 0, w, n, j, state.State(),
                       block[..], k', newnzPos[..num'])
    {
      ghost var mid, z, newnz := state.State(), block[..], newnzPos[..num];
      k', num', w, n, j := k, num, code, 1, invented;
      var bit;
      ghost var x, i;
      ok, bit, x, i := state.Fetch(1);
      if ok {
        OneBitValue(x);
        TookMore(from, code, invented, mid, x, i, state.State());
        ok, k', num', w, n, j := SetNew(state, sc, block, newnzPos, k, num, sym, Signed(bit, sc.p), from, code, x, invented + i);
      } else {
        BitsMissing(sc, htbl, z, k, newnz, from, code, invented, mid, sym, w, j, state.State());
      }
    }

    method SetNew(state: Reader, sc: Scan, block: array<int>, newnzPos: array<nat>, k: nat, num: nat, sym: nat, v: int,
                  ghost from: Source, ghost code: seq<bit>, ghost sign: seq<bit>, ghost invented: nat)
      returns (ok: bool, k': nat, num': nat, ghost w: seq<bit>, ghost n: nat, ghost j: nat)
      requires Readable(htbl) && state.Valid() && IsScan(sc) && block.Length == newnzPos.Length == 64
      requires k <= sc.se && num < k && Positions(newnzPos[..num]) && sym % 16 != 0
      requires Took(from, code + sign, invented, state.State()) && Decode(htbl, code) == Got(sym, |code|)
      requires |sign| == 1 && v == Signed(sign[0], sc.p)
      modifies state, block, newnzPos
      ensures state.Valid() && Progress(sc, ok, 0, k, k', num, num') && Positions(newnzPos[..num'])
      ensures Refining(sc, htbl, old(block[..]), k, old(newnzPos[..num]), from, ok, 0, w, n, j, state.State(),
                       block[..], k', newnzPos[..num'])
    {
      ghost var mid, z, newnz := state.State(), block[..], newnzPos[..num];
      ghost var x, m, i;
      var stop;
      ok, stop, x, m, i := AdvanceOver(state, sc, block, k, sym / 16);
      assert newnzPos[..num] == newnz;
      k', num', w, n, j := OutputNew(sc, block, newnzPos, ok, stop, num, v, newnz, z, k, sym, from, code, sign, invented, mid,
                                     x, m, i, state.State());
    }

    // Output the coefficient and remember its position, if the way to it was clear.
    method OutputNew(sc: Scan, block: array<int>, newnzPos: array<nat>, ok: bool, stop: nat, num: nat, v: int,
                     ghost newnz: seq<nat>, ghost z: Block, ghost k: nat, ghost sym: nat, ghost from: Source,
                     ghost code: seq<bit>, ghost sign: seq<bit>, ghost invented: nat, ghost mid: Source,
                     ghost x: seq<bit>, ghost m: nat, ghost i: nat, ghost to: Source)
      returns (k': nat, num': nat, ghost w: seq<bit>, ghost n: nat, ghost j: nat)
      requires Readable(htbl) && IsScan(sc) && block.Length == newnzPos.Length == 64
      requires k <= sc.se && num < k && newnzPos[..num] == newnz && Positions(newnz)
      requires sym % 16 != 0 && |sign| == 1 && v == Signed(sign[0], sc.p)
      requires Took(from, code + sign, invented, mid) && Decode(htbl, code) == Got(sym, |code|)
      requires k <= stop <= sc.se + 1 && AdvanceDone(sc, z, k, sym / 16, mid, ok, x, m, i, to, block[..], stop)
      modifies block, newnzPos
      ensures Progress(sc, ok, 0, k, k', num, num') && Positions(newnzPos[..num'])
      ensures Refining(sc, htbl, z, k, newnz, from, ok, 0, w, n, j, to, block[..], k', newnzPos[..num'])
    {
      ghost var before := block[..];
      w, n, j := (code + sign) + x, m + 2, invented + i;
      if ok {
        block[Clamp(stop)] := v;
        newnzPos[num] := Clamp(stop);
        k', num' := stop + 1, num + 1;
        assert block[..] == before[Clamp(stop) := v] && newnzPos[..num'] == newnz + [Clamp(stop)];
        NewPlaced(sc, htbl, z, k, newnz, from, code, sign, invented, mid, sym, x, m, i, to, before, stop, block[..], Clamp(stop));
      } else {
        k', num' := stop, num;
        NewNotPlaced(sc, htbl, z, k, newnz, from, code, sign, invented, mid, sym, w, x, m, i, j, to, before, stop);
      }
    }

    // ZRL: fifteen zeros and the one at which it ends.
    method SkipZeros(state: Reader, sc: Scan, block: array<int>, k: nat, ghost newnz: seq<nat>, ghost sym: nat,
                     ghost from: Source, ghost code: seq<bit>, ghost invented: nat)
      returns (ok: bool, k': nat, ghost w: seq<bit>, ghost n: nat, ghost j: nat)
      requires Readable(htbl) && state.Valid() && IsScan(sc) && block.Length == 64
      requires k <= sc.se && Positions(newnz) && sym / 16 == 15 && sym % 16 == 0
      requires Took(from, code, invented, state.State()) && Decode(htbl, code) == Got(sym, |code|)
      modifies state, block
      ensures state.Valid() && k <= k' <= sc.se + 2 && (ok ==> k < k')
      ensures Refining(sc, htbl, old(block[..]), k, newnz, from, ok, 0, w, n, j, state.State(), block[..], k', newnz)
    {
      ghost var mid, z := state.State(), block[..];
      ghost var x, i;
      var stop;
      ok, stop, x, n, i := AdvanceOver(state, sc, block, k, 15);
      k' := if ok then stop + 1 else stop;
      ZrlStep(sc, htbl, z, k, newnz, from, code, invented, mid, sym, ok, x, n, i, state.State(), block[..], stop, k');
      w, n, j := code + x, n + 1, invented + i;
    }

    // The length of a run, with the bits appended to its category.
    method DecodeRun(state: Reader, sc: Scan, ghost z: Block, ghost k: nat, ghost newnz: seq<nat>, sym: nat,
                     ghost from: Source, ghost code: seq<bit>, ghost invented: nat)
      returns (ok: bool, run: nat, ghost w: seq<bit>, ghost n: nat, ghost j: nat)
      requires Readable(htbl) && state.Valid() && IsScan(sc)
      requires k <= sc.se && Positions(newnz) && sym / 16 < 15 && sym % 16 == 0
      requires Took(from, code, invented, state.State()) && Decode(htbl, code) == Got(sym, |code|)
      modifies state
      ensures state.Valid() && (ok ==> run > 0) && (!ok ==> run == 0)
      ensures Refining(sc, htbl, z, k, newnz, from, ok, run, w, n, j, state.State(), z, k, newnz)
    {
      ghost var mid := state.State();
      var r, more := sym / 16, 0;
      ghost var x, i := [], 0;
      ok := true;
      TookNothing(mid);
      if r > 0 {
        ok, more, x, i := state.Fetch(r);
      }
      w, j, run := code + x, invented + i, 0;
      if ok {
        run, n := Pow2(r) + more, 1 + RunFetches(r);
        RunStep(sc, htbl, z, k, newnz, from, code, invented, mid, sym, x, n, i, state.State(), run);
      } else {
        n := 1;
        BitsMissing(sc, htbl, z, k, newnz, from, code, invented, mid, sym, w, j, state.State());
      }
    }

    // The symbol loop.  It ends at the end of the band, or with a run that starts at position k.
    method DecodeSymbols(state: Reader, sc: Scan, block: array<int>, newnzPos: array<nat>)
      returns (ok: bool, k: nat, run: nat, num: nat, ghost w: seq<bit>, ghost n: nat, ghost j: nat)
      requires Readable(htbl) && DecodesWith(htbl, tbl) && state.Valid() && IsScan(sc) && block.Length == newnzPos.Length == 64
      modifies state, block, newnzPos
      ensures state.Valid() && num <= 64 && Positions(newnzPos[..num]) && k <= sc.se + 2
      ensures ok ==> (if run == 0 then k > sc.se else k <= sc.se)
      ensures Refining(sc, htbl, old(block[..]), sc.ss, [], old(state.State()), ok, run, w, n, j, state.State(),
                       block[..], k, newnzPos[..num])
    {
      ghost var z, from := block[..], state.State();
      ok, k, run, num, w, n, j := true, sc.ss, 0, 0, [], 0, 0;
      assert newnzPos[..0] == [];
      RefiningStarts(sc, htbl, z, sc.ss, [], from);
      while ok && run == 0 && k <= sc.se
        invariant state.Valid() && num + sc.ss <= k <= sc.se + 2 && num <= 64 && Positions(newnzPos[..num])
        invariant ok && run != 0 ==> k <= sc.se
        invariant Refining(sc, htbl, z, sc.ss, [], from, ok, run, w, n, j, state.State(), block[..], k, newnzPos[..num])
        decreases ok && run == 0, sc.se + 2 - k
      {
        ok, k, run, num, w, n, j := DecodeNext(state, sc, block, newnzPos, k, num, z, from, w, n, j);
      }
    }

    method DecodeNext(state: Reader, sc: Scan, block: array<int>, newnzPos: array<nat>, k: nat, num: nat,
                      ghost z: Block, ghost from: Source, ghost w: seq<bit>, ghost n: nat, ghost j: nat)
      returns (ok: bool, k': nat, run: nat, num': nat, ghost w': seq<bit>, ghost n': nat, ghost j': nat)
      requires Readable(htbl) && DecodesWith(htbl, tbl) && state.Valid() && IsScan(sc) && block.Length == newnzPos.Length == 64
      requires k <= sc.se && num < k && Positions(newnzPos[..num])
      requires Refining(sc, htbl, z, sc.ss, [], from, true, 0, w, n, j, state.State(), block[..], k, newnzPos[..num])
      modifies state, block, newnzPos
      ensures state.Valid() && Progress(sc, ok, run, k, k', num, num') && Positions(newnzPos[..num'])
      ensures Refining(sc, htbl, z, sc.ss, [], from, ok, run, w', n', j', state.State(), block[..], k', newnzPos[..num'])
    {
      ghost var mid, before, newnz := state.State(), block[..], newnzPos[..num];
      ghost var x, m, i;
      ok, k', run, num', x, m, i := DecodeSymbol(state, sc, block, newnzPos, k, num);
      RefiningMore(sc, htbl, z, sc.ss, [], from, w, n, j, mid, before, k, newnz, ok, run, x, m, i,
                   state.State(), block[..], k', newnzPos[..num']);
      w', n', j' := w + x, n + m, j + i;
    }

    // The end-of-band logic after the symbol loop, or instead of it.
    method FinishBand(state: Reader, sc: Scan, block: array<int>, k: nat, ghost newnz: seq<nat>, run: nat)
      returns (ok: bool, ghost w: seq<bit>, ghost n: nat, ghost j: nat)
      requires state.Valid() && IsScan(sc) && block.Length == 64 && k <= sc.se && Positions(newnz) && run > 0
      modifies state, block
      ensures state.Valid()
      ensures ok ==> Took(old(state.State()), w, j, state.State())
      ensures ok ==> BandDone(sc, old(block[..]), k, newnz, run, w, n, block[..])
      ensures !ok ==> !old(state.Here())
      ensures !ok ==> EndBand(sc, old(block[..]), k, newnz, run, old(state.Rest()), n) == Suspended(Undo(block[..], newnz))
    {
      var k';
      ghost var z := block[..];
      ok, k', w, n, j := AdvanceOver(state, sc, block, k, 64);
      if ok {
        BandEnds(sc, z, k, newnz, run, w, n, block[..], k');
      }
    }

    // decode_mcu_AC_refine.  A suspended call keeps the input and the run, and takes newly nonzero
    // coefficients back.
    method DecodeMcuACRefine(sc: Scan, block: array<int>) returns (ok: bool, ghost k: nat)
      requires Valid() && IsScan(sc) && !sc.first && block.Length == 64
      modifies this`eobrun, bitstate, block
      ensures Valid()
      ensures ok ==>
        BlockRead(sc, htbl, old(block[..]), old(eobrun), old(bitstate.State()), block[..], eobrun, k, bitstate.State())
      ensures !ok ==> !bitstate.Here() && !bitstate.State().warned && unchanged(bitstate) && eobrun == old(eobrun)
      ensures !ok ==> RefineInterrupted(sc, htbl, old(block[..]), eobrun, bitstate.Rest(), block[..])
    {
      ok, k := true, 0;
      if !bitstate.insufficientData {
        ghost var from := bitstate.State();
        var state := new Reader.Copy(bitstate);
        var newnzPos := new nat[64](_ => 0);
        var run, num;
        ghost var w;
        ok, run, num, w, k := RefineBlock(state, sc, block, newnzPos, eobrun);
        if ok {
          bitstate.Save(state);
          eobrun := run;
          TookIsRead(sc, htbl, old(block[..]), old(eobrun), from, w, k, bitstate.State(), block[..], eobrun);
        } else {
          UndoNew(block, newnzPos, num);
        }
      }
    }

    // The body of decode_mcu_AC_refine, on a working copy of the state.
    method RefineBlock(state: Reader, sc: Scan, block: array<int>, newnzPos: array<nat>, pending: nat)
      returns (ok: bool, run: nat, num: nat, ghost w: seq<bit>, ghost j: nat)
      requires Readable(htbl) && DecodesWith(htbl, tbl) && state.Valid() && IsScan(sc) && block.Length == newnzPos.Length == 64
      modifies state, block, newnzPos
      ensures state.Valid() && num <= 64 && Positions(newnzPos[..num])
      ensures ok ==> Took(old(state.State()), w, j, state.State())
      ensures ok ==> RefineMcu(sc, htbl, old(block[..]), pending, w + state.Rest(), NEVER) == Done(block[..], state.Rest(), run)
      ensures !ok ==> !old(state.Here())
      ensures !ok ==> RefineInterrupted(sc, htbl, old(block[..]), pending, old(state.Rest()), Undo(block[..], newnzPos[..num]))
    {
      ghost var n;
      num := 0;
      assert newnzPos[..0] == [];
      if pending == 0 {
        ghost var from, z := state.State(), block[..];
        var k;
        ok, k, run, num, w, n, j := DecodeSymbols(state, sc, block, newnzPos);
        if ok && run > 0 {
          ok, run, w, j := RefineRest(state, sc, block, k, newnzPos[..num], run, z, from, w, n, j);
        } else {
          SymbolsEnd(sc, htbl, z, from, ok, w, n, j, state.State(), block[..], k, newnzPos[..num]);
        }
      } else {
        ok, run, w, j := RefinePending(state, sc, block, pending);
      }
    }

    // A block inside a run.
    method RefinePending(state: Reader, sc: Scan, block: array<int>, pending: nat)
      returns (ok: bool, run: nat, ghost w: seq<bit>, ghost j: nat)
      requires Readable(htbl) && state.Valid() && IsScan(sc) && block.Length == 64 && pending > 0
      modifies state, block
      ensures state.Valid()
      ensures ok ==> Took(old(state.State()), w, j, state.State())
      ensures ok ==> RefineMcu(sc, htbl, old(block[..]), pending, w + state.Rest(), NEVER) == Done(block[..], state.Rest(), run)
      ensures !ok ==> !old(state.Here())
      ensures !ok ==> RefineInterrupted(sc, htbl, old(block[..]), pending, old(state.Rest()), Undo(block[..], []))
    {
      ghost var n;
      ghost var z := block[..];
      ok, w, n, j := FinishBand(state, sc, block, sc.ss, [], pending);
      run := pending - 1;
      if ok {
        PendingEnds(sc, htbl, z, pending, w, n, block[..], state.Rest());
      } else {
        assert RefineMcu(sc, htbl, z, pending, old(state.Rest()), n) == Suspended(Undo(block[..], []));
      }
    }

    // The end-of-band logic after symbols of the same block.
    method RefineRest(state: Reader, sc: Scan, block: array<int>, k: nat, ghost newnz: seq<nat>, run: nat,
                      ghost z: Block, ghost from: Source, ghost w: seq<bit>, ghost n: nat, ghost j: nat)
      returns (ok: bool, run': nat, ghost w': seq<bit>, ghost j': nat)
      requires Readable(htbl) && state.Valid() && IsScan(sc) && block.Length == 64 && k <= sc.se && Positions(newnz) && run > 0
      requires Refining(sc, htbl, z, sc.ss, [], from, true, run, w, n, j, state.State(), block[..], k, newnz)
      modifies state, block
      ensures state.Valid()
      ensures ok ==> Took(from, w', j', state.State())
      ensures ok ==> RefineMcu(sc, htbl, z, 0, w' + state.Rest(), NEVER) == Done(block[..], state.Rest(), run')
      ensures !ok ==> !from.here && RefineInterrupted(sc, htbl, z, 0, from.rest, Undo(block[..], newnz))
    {
      ghost var mid, before := state.State(), block[..];
      ghost var x, m, i;
      ok, x, m, i := FinishBand(state, sc, block, k, newnz, run);
      run', w', j' := run - 1, w + x, j + i;
      if ok {
        TookMore(from, w, j, mid, x, i, state.State());
        RunEnds(sc, htbl, z, w, n, before, k, newnz, run, x, m, block[..], state.Rest());
      } else {
        AllTaken(from, w, j, mid);
        assert Plus(m, n) == n + m;
        assert RefineMcu(sc, htbl, z, 0, from.rest, n + m) == Suspended(Undo(block[..], newnz));
      }
    }

    // process_restart.
    method ProcessRestart() returns (ok: bool)
      requires Valid()
      modifies this`eobrun, this`restartsToGo, this`nextRestartNum, bitstate
      ensures Valid()
      ensures ok ==> Restarted(old(bitstate.State()), old(nextRestartNum), bitstate.State())
      ensures ok ==> eobrun == 0 && restartsToGo == restartInterval && nextRestartNum == NextNum(old(nextRestartNum))
      ensures !ok ==> Seeking(old(bitstate.State()), nextRestartNum, bitstate.State())
      ensures !ok ==> eobrun == old(eobrun) && restartsToGo == old(restartsToGo) && nextRestartNum == old(nextRestartNum)
    {
      ok := RestartInput(bitstate, nextRestartNum);
      if ok {
        nextRestartNum := NextNum(nextRestartNum);
        eobrun := 0;
        restartsToGo := restartInterval;
      }
    }

    // The beginning of the decoding routines.
    method Proceed() returns (ok: bool)
      requires Valid()
      modifies this`eobrun, this`restartsToGo, this`nextRestartNum, bitstate
      ensures Valid()
      ensures ok ==> Proceeds(restartInterval, 0, old(Now()), Now())
      ensures !ok ==> Stalled(restartInterval, old(Now()), Now())
    {
      ok := true;
      if restartInterval > 0 && restartsToGo == 0 {
        ok := ProcessRestart();
      }
    }

    // The routine that start_pass has chosen, after any restart.
    method DecodeBlock(sc: Scan, block: array<int>) returns (ok: bool, ghost k: nat)
      requires Valid() && IsScan(sc) && block.Length == 64
      modifies this`eobrun, bitstate, block
      ensures Valid()
      ensures ok ==>
        BlockRead(sc, htbl, old(block[..]), old(eobrun), old(bitstate.State()), block[..], eobrun, k, bitstate.State())
      ensures !ok ==> !bitstate.Here() && !bitstate.State().warned && unchanged(bitstate) && eobrun == old(eobrun)
      ensures !ok ==> Interrupted(sc, htbl, old(block[..]), eobrun, bitstate.Rest(), block[..])
    {
      if sc.first {
        ok, k := DecodeMcuACFirst(sc, block);
      } else {
        ok, k := DecodeMcuACRefine(sc, block);
      }
    }

    // All of it.  It fails only for lack of input: then a restart that is due is on its way, or it has
    // taken place and the block may have been left half decoded.
    method DecodeMcu(sc: Scan, block: array<int>) returns (ok: bool, ghost begun: bool, ghost k: nat, ghost mid: Standing<nat>)
      requires Valid() && IsScan(sc) && block.Length == 64
      modifies this`eobrun, this`restartsToGo, this`nextRestartNum, bitstate, block
      ensures Valid() && (ok ==> begun)
      ensures if begun then Proceeds(restartInterval, 0, old(Now()), mid) else Stalled(restartInterval, old(Now()), mid)
      ensures ok ==> BlockRead(sc, htbl, old(block[..]), mid.own, mid.source, block[..], Now().own, k, Now().source)
      ensures ok ==> Now() == Standing(Now().source, Now().own, Countdown(mid.togo), mid.num)
      ensures !ok ==> Now() == mid
      ensures !begun ==> block[..] == old(block[..])
      ensures begun && !ok ==> !mid.source.here && !mid.source.warned
      ensures begun && !ok ==> Interrupted(sc, htbl, old(block[..]), mid.own, mid.source.rest, block[..])
    {
      k := 0;
      ok := Proceed();
      begun, mid := ok, Now();
      if ok {
        ok, k := DecodeBlock(sc, block);
        if ok {
          restartsToGo := Countdown(restartsToGo);
        }
      }
    }
  }

  lemma SymbolsEnd(sc: Scan, htbl: HuffTable, z: Block, from: Source, ok: bool, w: seq<bit>, n: nat, j: nat, to: Source,
                   z': Block, k': nat, newnz: seq<nat>)
    requires IsScan(sc) && Readable(htbl) && k' <= sc.se + 2 && Positions(newnz) && (ok ==> k' > sc.se)
    requires Refining(sc, htbl, z, sc.ss, [], from, ok, 0, w, n, j, to, z', k', newnz)
    ensures ok ==> RefineMcu(sc, htbl, z, 0, w + to.rest, NEVER) == Done(z', to.rest, 0)
    ensures !ok ==> RefineInterrupted(sc, htbl, z, 0, from.rest, Undo(z', newnz))
  {
    if ok {
      assert Plus(NEVER, n) == NEVER;
      assert Refine(sc, htbl, z, sc.ss, [], w + to.rest, NEVER) == Refine(sc, htbl, z', k', newnz, to.rest, NEVER);
    } else {
      assert RefineMcu(sc, htbl, z, 0, from.rest, n) == Suspended(Undo(z', newnz));
    }
  }

  lemma PendingEnds(sc: Scan, htbl: HuffTable, z: Block, pending: nat, w: seq<bit>, n: nat, z': Block, t: seq<bit>)
    requires IsScan(sc) && Readable(htbl) && pending > 0 && BandDone(sc, z, sc.ss, [], pending, w, n, z')
    ensures RefineMcu(sc, htbl, z, pending, w + t, NEVER) == Done(z', t, pending - 1)
  {
    assert Plus(NEVER, n) == NEVER;
  }

  lemma RunEnds(sc: Scan, htbl: HuffTable, z: Block, w: seq<bit>, n: nat, z1: Block, k: nat, newnz: seq<nat>, run: nat,
                x: seq<bit>, m: nat, z': Block, t: seq<bit>)
    requires IsScan(sc) && Readable(htbl) && Positions(newnz) && RefinesRun(sc, htbl, z, sc.ss, [], w, n, z1, k, newnz, run)
    requires BandDone(sc, z1, k, newnz, run, x, m, z')
    ensures RefineMcu(sc, htbl, z, 0, (w + x) + t, NEVER) == Done(z', t, run - 1)
  {
    Reassociate(w, x, t);
    assert Plus(NEVER, n) == NEVER == Plus(NEVER, m);
    assert EndBand(sc, z1, k, newnz, run, x + t, Plus(NEVER, m)) == Done(z', t, run - 1);
  }

  // The bits w complete a block whose band has ended.
  ghost predicate BandDone(sc: Scan, z: Block, k: nat, newnz: seq<nat>, run: nat, w: seq<bit>, n: nat, z': Block)
    requires IsScan(sc) && k <= sc.se && Positions(newnz) && run > 0
  {
    forall t: seq<bit>, f: int :: EndBand(sc, z, k, newnz, run, w + t, Plus(f, n)) == Done(z', t, run - 1)
  }

  lemma BandEnds(sc: Scan, z: Block, k: nat, newnz: seq<nat>, run: nat, w: seq<bit>, n: nat, z': Block, k': nat)
    requires IsScan(sc) && k <= sc.se && Positions(newnz) && run > 0 && AdvancesAll(sc, z, k, 64, w, n, z', k')
    ensures BandDone(sc, z, k, newnz, run, w, n, z')
  {
  }

  // One symbol moves past at least one position, unless it starts a run.
  predicate Progress(sc: Scan, ok: bool, run: nat, k: nat, k': nat, num: nat, num': nat) {
    && k <= k' <= sc.se + 2 && num <= num' <= num + 1 && num' <= 64
    && (ok && run == 0 ==> k < k') && (run != 0 ==> k' == k && num' == num) && (!ok ==> num' == num)
  }
}
