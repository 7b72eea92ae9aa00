// AC scans on input that arrives piece by piece: however often a call is suspended, what the completed
// one delivers is what a single call with all of the input would have delivered.
module ProgressiveSuspend {
  import opened Numerals
  import opened CanonicalCode
  import opened HuffmanDecode
  import opened BitReader
  import opened ACScan
  import opened ACFirst
  import opened ACRefine
  import opened ACFirstSuspend
  import opened ACRefineSuspend
  import opened RefineMonotone
  import opened ProgressiveScan
  import opened ProgressiveDecoder
  import RunReader

  // ---- More bits do not change what was decoded ----

  lemma FirstMore(sc: Scan, htbl: HuffTable, z: Block, eobrun: nat, s: seq<bit>, t: seq<bit>)
    requires IsScan(sc) && Readable(htbl) && FirstMcu(sc, htbl, z, eobrun, s).Done?
    ensures FirstMcu(sc, htbl, z, eobrun, s + t) == DoneWith(FirstMcu(sc, htbl, z, eobrun, s), t)
  {
    if eobrun == 0 {
      var b := FirstBand(sc, htbl);
      var read := RunReader.Runs(b, z, sc.ss, s);
      RunReader.RunsMonotone(b, z, sc.ss, s, t);
      if read.AtEob? && read.r > 0 {
        CutBefore(read.s, t, read.r);
      }
    }
  }

  lemma McuMore(sc: Scan, htbl: HuffTable, z: Block, eobrun: nat, s: seq<bit>, t: seq<bit>)
    requires IsScan(sc) && Readable(htbl) && DecodeMcu(sc, htbl, z, eobrun, s).Done?
    ensures DecodeMcu(sc, htbl, z, eobrun, s + t) == DoneWith(DecodeMcu(sc, htbl, z, eobrun, s), t)
  {
    if sc.first {
      FirstMore(sc, htbl, z, eobrun, s, t);
    } else {
      RefineMcuMore(sc, htbl, z, eobrun, s, t);
    }
  }

  // ---- Blocks that suspended calls have left behind ----

  // Refinement tells by the low bit of a coefficient whether it was corrected before.
  predicate Refinable(sc: Scan, z: Block)
    requires IsScan(sc)
  {
    sc.first || CoarseBand(sc, z, sc.ss)
  }

  // The block y is what suspended calls have made of z.
  ghost predicate Resumable(sc: Scan, htbl: HuffTable, z: Block, eobrun: nat, s: seq<bit>, y: Block)
    requires IsScan(sc) && Readable(htbl)
  {
    if sc.first then (if eobrun > 0 then y == z else Overwritten(htbl, sc.ss, sc.se, s, z, y))
    else
      && SameZeros(z, y)
      && (RefineMcu(sc, htbl, z, eobrun, s, NEVER).Done? ==> AllPartial(z, y, WholeMcu(sc, htbl, z, eobrun, s), 0, 64))
  }

  lemma NothingDone(sc: Scan, htbl: HuffTable, z: Block, eobrun: nat, s: seq<bit>)
    requires IsScan(sc) && Readable(htbl)
    ensures Resumable(sc, htbl, z, eobrun, s, z)
  {
  }

  lemma OneMore(sc: Scan, htbl: HuffTable, z: Block, eobrun: nat, s: seq<bit>, y: Block, y': Block)
    requires IsScan(sc) && Readable(htbl) && Refinable(sc, z) && Resumable(sc, htbl, z, eobrun, s, y)
    requires Interrupted(sc, htbl, y, eobrun, s, y')
    ensures Resumable(sc, htbl, z, eobrun, s, y')
  {
    if sc.first {
      var w: seq<bit> :| w <= s && FirstMcu(sc, htbl, y, 0, w) == Suspended(y');
      FirstOneMore(sc, htbl, z, y, w, s, y');
    } else {
      var n: nat :| RefineMcu(sc, htbl, y, eobrun, s, n) == Suspended(y');
      RefineMcuKeeps(sc, htbl, y, eobrun, s, n);
      if RefineMcu(sc, htbl, z, eobrun, s, NEVER).Done? {
        McuAgain(sc, htbl, z, y, eobrun, s, n);
      }
    }
  }

  // They decode as the untouched block does.
  lemma Resumed(sc: Scan, htbl: HuffTable, z: Block, eobrun: nat, s: seq<bit>, y: Block)
    requires IsScan(sc) && Readable(htbl) && Refinable(sc, z) && Resumable(sc, htbl, z, eobrun, s, y)
    ensures DecodeMcu(sc, htbl, y, eobrun, s).Done? <==> DecodeMcu(sc, htbl, z, eobrun, s).Done?
    ensures DecodeMcu(sc, htbl, z, eobrun, s).Done? ==> DecodeMcu(sc, htbl, y, eobrun, s) == DecodeMcu(sc, htbl, z, eobrun, s)
  {
    if sc.first {
      if eobrun == 0 {
        FirstResumes(sc, htbl, z, y, s, []);
        assert s + [] == s;
      }
    } else {
      RefineMcuSame(sc, htbl, z, y, eobrun, s, NEVER);
      if RefineMcu(sc, htbl, z, eobrun, s, NEVER).Done? {
        McuAgain(sc, htbl, z, y, eobrun, s, NEVER);
      }
    }
  }

  // A completed call after any number of suspended ones: it warns exactly if the data do not hold the
  // whole block, and otherwise delivers it.
  lemma SuspensionsLeaveNoTrace(sc: Scan, htbl: HuffTable, z: Block, eobrun: nat, from: Source, y: Block,
                                z': Block, eobrun': nat, k: nat, to: Source)
    requires IsScan(sc) && Readable(htbl) && Refinable(sc, z) && Resumable(sc, htbl, z, eobrun, from.rest, y)
    requires !from.warned && BlockRead(sc, htbl, y, eobrun, from, z', eobrun', k, to)
    ensures if to.warned then !DecodeMcu(sc, htbl, z, eobrun, from.rest).Done?
      else DecodeMcu(sc, htbl, z, eobrun, from.rest) == Done(z', to.rest, eobrun')
  {
    Resumed(sc, htbl, z, eobrun, from.rest, y);
    if k == 0 {
      assert from.rest + Zeros(0) == from.rest;
    } else if DecodeMcu(sc, htbl, y, eobrun, from.rest).Done? {
      McuMore(sc, htbl, y, eobrun, from.rest, Zeros(k));
      assert false;
    }
  }
}
