// Refinement on longer input, and on blocks whose zeros are the same.
module RefineMonotone {
  import opened Numerals
  import opened CanonicalCode
  import opened HuffmanDecode
  import opened ACScan
  import opened ACRefine
  import opened ACRefineSuspend

  // ---- More bits do not change what was decoded ----

  lemma {:induction false} AdvanceMore(sc: Scan, z: Block, k: nat, r: nat, s: seq<bit>, t: seq<bit>)
    requires IsScan(sc) && k <= sc.se + 1 && Advance(sc, z, k, r, s, NEVER).Stopped?
    ensures var a := Advance(sc, z, k, r, s, NEVER);
      a.f == NEVER && Advance(sc, z, k, r, s + t, NEVER) == Stopped(a.z, a.k, a.s + t, NEVER)
    decreases sc.se + 1 - k
  {
    if k <= sc.se {
      if z[k] != 0 {
        CutBefore(s, t, 1);
        assert (s + t)[0] == s[0];
        AdvanceMore(sc, z[k := Correct(z[k], s[0], sc.p)], k + 1, r, s[1..], t);
      } else if r > 0 {
        AdvanceMore(sc, z, k + 1, r - 1, s, t);
      }
    }
  }

  function DoneWith(o: Outcome, t: seq<bit>): Outcome
    requires o.Done?
  {
    Done(o.z, o.s + t, o.eobrun)
  }

  lemma EndBandMore(sc: Scan, z: Block, k: nat, newnz: seq<nat>, eobrun: nat, s: seq<bit>, t: seq<bit>)
    requires IsScan(sc) && k <= sc.se + 1 && Positions(newnz) && eobrun > 0
    requires EndBand(sc, z, k, newnz, eobrun, s, NEVER).Done?
    ensures EndBand(sc, z, k, newnz, eobrun, s + t, NEVER) == DoneWith(EndBand(sc, z, k, newnz, eobrun, s, NEVER), t)
  {
    AdvanceMore(sc, z, k, 64, s, t);
  }

  lemma {:induction false} RefineMore(sc: Scan, htbl: HuffTable, z: Block, k: nat, newnz: seq<nat>, s: seq<bit>, t: seq<bit>)
    requires IsScan(sc) && Readable(htbl) && k <= sc.se + 2 && Positions(newnz)
    requires Refine(sc, htbl, z, k, newnz, s, NEVER).Done?
    ensures Refine(sc, htbl, z, k, newnz, s + t, NEVER) == DoneWith(Refine(sc, htbl, z, k, newnz, s, NEVER), t)
    decreases sc.se + 2 - k, 2
  {
    if k <= sc.se {
      var d := Decode(htbl, s);
      DecodeMonotone(htbl, s, t, 1);
      CutBefore(s, t, d.used);
      AfterSymbolMore(sc, htbl, z, k, newnz, d.sym, s[d.used..], t);
    }
  }

  lemma {:induction false} AfterSymbolMore(sc: Scan, htbl: HuffTable, z: Block, k: nat, newnz: seq<nat>, sym: nat,
                                           s: seq<bit>, t: seq<bit>)
    requires IsScan(sc) && Readable(htbl) && k <= sc.se && Positions(newnz)
    requires AfterSymbol(sc, htbl, z, k, newnz, sym, s, NEVER).Done?
    ensures AfterSymbol(sc, htbl, z, k, newnz, sym, s + t, NEVER) == DoneWith(AfterSymbol(sc, htbl, z, k, newnz, sym, s, NEVER), t)
    decreases sc.se + 2 - k, 1
  {
    var r := sym / 16;
    if sym % 16 != 0 {
      CutBefore(s, t, 1);
      assert (s + t)[0] == s[0];
      NewCoefMore(sc, htbl, z, k, newnz, r, Signed(s[0], sc.p), s[1..], t);
    } else if r == 15 {
      PassZerosMore(sc, htbl, z, k, newnz, s, t);
    } else {
      CutBefore(s, t, r);
      EndBandMore(sc, z, k, newnz, Pow2(r) + BitsValue(s[..r]), s[r..], t);
    }
  }

  lemma {:induction false} PassZerosMore(sc: Scan, htbl: HuffTable, z: Block, k: nat, newnz: seq<nat>, s: seq<bit>, t: seq<bit>)
    requires IsScan(sc) && Readable(htbl) && k <= sc.se && Positions(newnz)
    requires PassZeros(sc, htbl, z, k, newnz, s, NEVER).Done?
    ensures PassZeros(sc, htbl, z, k, newnz, s + t, NEVER) == DoneWith(PassZeros(sc, htbl, z, k, newnz, s, NEVER), t)
    decreases sc.se + 2 - k, 0
  {
    AdvanceMore(sc, z, k, 15, s, t);
    var a := Advance(sc, z, k, 15, s, NEVER);
    RefineMore(sc, htbl, a.z, a.k + 1, newnz, a.s, t);
  }

  lemma {:induction false} NewCoefMore(sc: Scan, htbl: HuffTable, z: Block, k: nat, newnz: seq<nat>, r: nat, v: int,
                                       s: seq<bit>, t: seq<bit>)
    requires IsScan(sc) && Readable(htbl) && k <= sc.se && Positions(newnz)
    requires NewCoef(sc, htbl, z, k, newnz, r, v, s, NEVER).Done?
    ensures NewCoef(sc, htbl, z, k, newnz, r, v, s + t, NEVER) == DoneWith(NewCoef(sc, htbl, z, k, newnz, r, v, s, NEVER), t)
    decreases sc.se + 2 - k, 0
  {
    AdvanceMore(sc, z, k, r, s, t);
    var a := Advance(sc, z, k, r, s, NEVER);
    RefineMore(sc, htbl, a.z[Clamp(a.k) := v], a.k + 1, newnz + [Clamp(a.k)], a.s, t);
  }

  lemma RefineMcuMore(sc: Scan, htbl: HuffTable, z: Block, eobrun: nat, s: seq<bit>, t: seq<bit>)
    requires IsScan(sc) && Readable(htbl) && RefineMcu(sc, htbl, z, eobrun, s, NEVER).Done?
    ensures RefineMcu(sc, htbl, z, eobrun, s + t, NEVER) == DoneWith(RefineMcu(sc, htbl, z, eobrun, s, NEVER), t)
  {
    if eobrun == 0 {
      RefineMore(sc, htbl, z, sc.ss, [], s, t);
    } else {
      EndBandMore(sc, z, sc.ss, [], eobrun, s, t);
    }
  }

  // ---- Blocks with the same zeros take the same bits ----

  predicate SameZeros(z: Block, y: Block) {
    forall n :: 0 <= n < 64 ==> (z[n] == 0 <==> y[n] == 0)
  }

  lemma {:induction false} AdvanceSame(sc: Scan, z: Block, y: Block, k: nat, r: nat, s: seq<bit>, f: int)
    requires IsScan(sc) && k <= sc.se + 1 && SameZeros(z, y)
    ensures var a, b := Advance(sc, z, k, r, s, f), Advance(sc, y, k, r, s, f);
      && SameZeros(z, a.z) && SameZeros(a.z, b.z) && (a.Stopped? <==> b.Stopped?)
      && (a.Stopped? ==> a.k == b.k && a.s == b.s && a.f == b.f)
    decreases sc.se + 1 - k
  {
    if k <= sc.se {
      if z[k] != 0 {
        if !Fails(f, s, 1) {
          AdvanceSame(sc, z[k := Correct(z[k], s[0], sc.p)], y[k := Correct(y[k], s[0], sc.p)], k + 1, r, s[1..], Next(f));
        }
      } else if r > 0 {
        AdvanceSame(sc, z, y, k + 1, r - 1, s, f);
      }
    }
  }

  predicate SameProgress(o: Outcome, u: Outcome) {
    (o.Done? <==> u.Done?) && (o.Done? ==> o.s == u.s && o.eobrun == u.eobrun)
  }

  lemma EndBandSame(sc: Scan, z: Block, y: Block, k: nat, newnz: seq<nat>, eobrun: nat, s: seq<bit>, f: int)
    requires IsScan(sc) && k <= sc.se + 1 && Positions(newnz) && eobrun > 0 && SameZeros(z, y)
    ensures SameProgress(EndBand(sc, z, k, newnz, eobrun, s, f), EndBand(sc, y, k, newnz, eobrun, s, f))
  {
    AdvanceSame(sc, z, y, k, 64, s, f);
  }

  lemma {:induction false} RefineSame(sc: Scan, htbl: HuffTable, z: Block, y: Block, k: nat, newnz: seq<nat>, s: seq<bit>, f: int)
    requires IsScan(sc) && Readable(htbl) && k <= sc.se + 2 && Positions(newnz) && SameZeros(z, y)
    ensures SameProgress(Refine(sc, htbl, z, k, newnz, s, f), Refine(sc, htbl, y, k, newnz, s, f))
    decreases sc.se + 2 - k, 2
  {
    if k <= sc.se && f != 0 && Decode(htbl, s).Got? {
      var d := Decode(htbl, s);
      AfterSymbolSame(sc, htbl, z, y, k, newnz, d.sym, s[d.used..], Next(f));
    }
  }

  lemma {:induction false} AfterSymbolSame(sc: Scan, htbl: HuffTable, z: Block, y: Block, k: nat, newnz: seq<nat>, sym: nat,
                                           s: seq<bit>, f: int)
    requires IsScan(sc) && Readable(htbl) && k <= sc.se && Positions(newnz) && SameZeros(z, y)
    ensures SameProgress(AfterSymbol(sc, htbl, z, k, newnz, sym, s, f), AfterSymbol(sc, htbl, y, k, newnz, sym, s, f))
    decreases sc.se + 2 - k, 1
  {
    var r := sym / 16;
    if sym % 16 != 0 {
      if !Fails(f, s, 1) {
        NewCoefSame(sc, htbl, z, y, k, newnz, r, Signed(s[0], sc.p), s[1..], Next(f));
      }
    } else if r == 15 {
      PassZerosSame(sc, htbl, z, y, k, newnz, s, f);
    } else if !(r > 0 && Fails(f, s, r)) {
      EndBandSame(sc, z, y, k, newnz, Pow2(r) + BitsValue(s[..r]), s[r..], if r > 0 then Next(f) else f);
    }
  }

  lemma {:induction false} PassZerosSame(sc: Scan, htbl: HuffTable, z: Block, y: Block, k: nat, newnz: seq<nat>, s: seq<bit>,
                                         f: int)
    requires IsScan(sc) && Readable(htbl) && k <= sc.se && Positions(newnz) && SameZeros(z, y)
    ensures SameProgress(PassZeros(sc, htbl, z, k, newnz, s, f), PassZeros(sc, htbl, y, k, newnz, s, f))
    decreases sc.se + 2 - k, 0
  {
    AdvanceSame(sc, z, y, k, 15, s, f);
    var a, b := Advance(sc, z, k, 15, s, f), Advance(sc, y, k, 15, s, f);
    if a.Stopped? {
      RefineSame(sc, htbl, a.z, b.z, a.k + 1, newnz, a.s, a.f);
    }
  }

  lemma {:induction false} NewCoefSame(sc: Scan, htbl: HuffTable, z: Block, y: Block, k: nat, newnz: seq<nat>, r: nat, v: int,
                                       s: seq<bit>, f: int)
    requires IsScan(sc) && Readable(htbl) && k <= sc.se && Positions(newnz) && SameZeros(z, y)
    ensures SameProgress(NewCoef(sc, htbl, z, k, newnz, r, v, s, f), NewCoef(sc, htbl, y, k, newnz, r, v, s, f))
    decreases sc.se + 2 - k, 0
  {
    AdvanceSame(sc, z, y, k, r, s, f);
    var a, b := Advance(sc, z, k, r, s, f), Advance(sc, y, k, r, s, f);
    if a.Stopped? {
      var pos := Clamp(a.k);
      RefineSame(sc, htbl, a.z[pos := v], b.z[pos := v], a.k + 1, newnz + [pos], a.s, a.f);
    }
  }

  lemma RefineMcuSame(sc: Scan, htbl: HuffTable, z: Block, y: Block, eobrun: nat, s: seq<bit>, f: int)
    requires IsScan(sc) && Readable(htbl) && SameZeros(z, y)
    ensures SameProgress(RefineMcu(sc, htbl, z, eobrun, s, f), RefineMcu(sc, htbl, y, eobrun, s, f))
  {
    if eobrun == 0 {
      RefineSame(sc, htbl, z, y, sc.ss, [], s, f);
    } else {
      EndBandSame(sc, z, y, sc.ss, [], eobrun, s, f);
    }
  }

  // ---- A suspended call keeps the zeros ----

  // The block z has its zeros, and the positions newnz, where z0 has zeros.
  predicate ZerosOf(z0: Block, z: Block, newnz: seq<nat>) {
    forall n :: 0 <= n < 64 ==> (z0[n] == 0 <==> z[n] == 0 || n in newnz)
  }

  lemma UndoneZeros(z0: Block, z: Block, newnz: seq<nat>)
    requires ZerosOf(z0, z, newnz) && Positions(newnz)
    ensures SameZeros(z0, Undo(z, newnz))
  {
    forall n | 0 <= n < 64
      ensures z0[n] == 0 <==> Undo(z, newnz)[n] == 0
    {
      UndoAt(z, newnz, n);
    }
  }

  predicate KeepsZeros(z0: Block, o: Outcome) {
    o.Suspended? ==> SameZeros(z0, o.z)
  }

  lemma AdvanceZeros(sc: Scan, z0: Block, z: Block, k: nat, newnz: seq<nat>, r: nat, s: seq<bit>, f: int)
    requires IsScan(sc) && k <= sc.se + 1 && ZerosOf(z0, z, newnz) && Positions(newnz)
    ensures var a := Advance(sc, z, k, r, s, f);
      ZerosOf(z0, a.z, newnz) && (a.Forced? ==> SameZeros(z0, Undo(a.z, newnz))) && (a.Stopped? && a.k <= sc.se ==> a.z[a.k] == 0)
  {
    AdvanceSame(sc, z, z, k, r, s, f);
    AdvanceFrame(sc, z, k, r, s, f);
    var a := Advance(sc, z, k, r, s, f);
    UndoneZeros(z0, a.z, newnz);
  }

  lemma {:induction false} RefineKeeps(sc: Scan, htbl: HuffTable, z0: Block, z: Block, k: nat, newnz: seq<nat>, s: seq<bit>,
                                       f: int)
    requires IsScan(sc) && Readable(htbl) && k <= sc.se + 2 && Positions(newnz) && ZerosOf(z0, z, newnz)
    ensures KeepsZeros(z0, Refine(sc, htbl, z, k, newnz, s, f))
    decreases sc.se + 2 - k, 2
  {
    UndoneZeros(z0, z, newnz);
    if k <= sc.se && f != 0 && Decode(htbl, s).Got? {
      var d := Decode(htbl, s);
      AfterSymbolKeeps(sc, htbl, z0, z, k, newnz, d.sym, s[d.used..], Next(f));
    }
  }

  lemma {:induction false} AfterSymbolKeeps(sc: Scan, htbl: HuffTable, z0: Block, z: Block, k: nat, newnz: seq<nat>, sym: nat,
                                            s: seq<bit>, f: int)
    requires IsScan(sc) && Readable(htbl) && k <= sc.se && Positions(newnz) && ZerosOf(z0, z, newnz)
    ensures KeepsZeros(z0, AfterSymbol(sc, htbl, z, k, newnz, sym, s, f))
    decreases sc.se + 2 - k, 1
  {
    UndoneZeros(z0, z, newnz);
    var r := sym / 16;
    if sym % 16 != 0 {
      if !Fails(f, s, 1) {
        NewCoefKeeps(sc, htbl, z0, z, k, newnz, r, Signed(s[0], sc.p), s[1..], Next(f));
      }
    } else if r == 15 {
      PassZerosKeeps(sc, htbl, z0, z, k, newnz, s, f);
    } else if !(r > 0 && Fails(f, s, r)) {
      AdvanceZeros(sc, z0, z, k, newnz, 64, s[r..], if r > 0 then Next(f) else f);
    }
  }

  lemma {:induction false} PassZerosKeeps(sc: Scan, htbl: HuffTable, z0: Block, z: Block, k: nat, newnz: seq<nat>,
                                          s: seq<bit>, f: int)
    requires IsScan(sc) && Readable(htbl) && k <= sc.se && Positions(newnz) && ZerosOf(z0, z, newnz)
    ensures KeepsZeros(z0, PassZeros(sc, htbl, z, k, newnz, s, f))
    decreases sc.se + 2 - k, 0
  {
    AdvanceZeros(sc, z0, z, k, newnz, 15, s, f);
    var a := Advance(sc, z, k, 15, s, f);
    if a.Stopped? {
      RefineKeeps(sc, htbl, z0, a.z, a.k + 1, newnz, a.s, a.f);
    }
  }

  // A coefficient that lands beyond the band ends the loop, so that it is never taken back.
  lemma {:induction false} NewCoefKeeps(sc: Scan, htbl: HuffTable, z0: Block, z: Block, k: nat, newnz: seq<nat>, r: nat, v: int,
                                        s: seq<bit>, f: int)
    requires IsScan(sc) && Readable(htbl) && k <= sc.se && Positions(newnz) && ZerosOf(z0, z, newnz)
    ensures KeepsZeros(z0, NewCoef(sc, htbl, z, k, newnz, r, v, s, f))
    decreases sc.se + 2 - k, 0
  {
    AdvanceZeros(sc, z0, z, k, newnz, r, s, f);
    var a := Advance(sc, z, k, r, s, f);
    if a.Stopped? && a.k <= sc.se {
      assert ZerosOf(z0, a.z[a.k := v], newnz + [a.k]);
      RefineKeeps(sc, htbl, z0, a.z[a.k := v], a.k + 1, newnz + [a.k], a.s, a.f);
    }
  }

  lemma RefineMcuKeeps(sc: Scan, htbl: HuffTable, z: Block, eobrun: nat, s: seq<bit>, f: int)
    requires IsScan(sc) && Readable(htbl)
    ensures KeepsZeros(z, RefineMcu(sc, htbl, z, eobrun, s, f))
  {
    if eobrun == 0 {
      RefineKeeps(sc, htbl, z, z, sc.ss, [], s, f);
    } else {
      AdvanceZeros(sc, z, z, sc.ss, [], 64, s, f);
    }
  }
}
