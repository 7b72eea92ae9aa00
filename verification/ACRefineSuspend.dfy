// Forced suspensions inside decode_mcu_AC_refine leave no trace: correction bits that were added stay
// and are not added again, newly nonzero coefficients are taken back.
module ACRefineSuspend {
  import opened Numerals
  import opened CanonicalCode
  import opened HuffmanDecode
  import opened ACScan
  import opened ACRefine
  import opened ACRefineRoundTrip

  // ---- Correction bits can be repeated ----

  predicate Coarse(c: int, p: nat)
    requires p > 0
  {
    c % (2 * p) == 0
  }

  lemma CorrectTwice(c: int, b: bit, p: nat)
    requires p > 0 && Coarse(c, p) && c != 0
    ensures Correct(c, b, p) != 0
    ensures Correct(Correct(c, b, p), b, p) == Correct(c, b, p)
  {
    var q := c / (2 * p);
    assert c == q * (2 * p);
    assert c == (2 * q) * p by {
      MulAssoc(q, 2, p);
    }
    ExactQuotient(2 * q, p);
    ExactQuotient(2 * q + 1, p);
    ExactQuotient(2 * q - 1, p);
    assert (2 * q + 1) * p == c + p && (2 * q - 1) * p == c - p;
  }

  // ---- Advancing again over a block that was partly corrected ----

  lemma {:induction false} AdvanceFrame(sc: Scan, z: Block, k: nat, r: nat, s: seq<bit>, f: int)
    requires IsScan(sc) && k <= sc.se + 1
    ensures var a := Advance(sc, z, k, r, s, f);
      && (forall n :: 0 <= n < 64 && (n < k || n > sc.se || z[n] == 0) ==> a.z[n] == z[n])
      && (a.Stopped? ==> forall n :: a.k <= n < 64 ==> a.z[n] == z[n])
      && (a.Stopped? && a.k <= sc.se ==> z[a.k] == 0)
      && (a.Stopped? && f == NEVER ==> a.f == NEVER)
    decreases sc.se + 1 - k
  {
    if k <= sc.se {
      if z[k] != 0 {
        if !Fails(f, s, 1) {
          AdvanceFrame(sc, z[k := Correct(z[k], s[0], sc.p)], k + 1, r, s[1..], Next(f));
        }
      } else if r > 0 {
        AdvanceFrame(sc, z, k + 1, r - 1, s, f);
      }
    }
  }

  // Coefficient n as an earlier, interrupted call left it: as it was, or corrected.
  predicate Partial(z: int, y: int, w: int) {
    y == z || (z != 0 && y == w)
  }

  predicate AllPartial(z: Block, y: Block, w: Block, i: nat, j: nat)
    requires j <= 64
  {
    forall n :: i <= n < j ==> Partial(z[n], y[n], w[n])
  }

  predicate CoarseBand(sc: Scan, z: Block, i: nat)
    requires IsScan(sc)
  {
    forall n :: i <= n <= sc.se ==> Coarse(z[n], sc.p)
  }

  lemma {:induction false} AdvanceAgain(sc: Scan, z: Block, y: Block, w: Block, k: nat, r: nat, s: seq<bit>, f: int)
    requires IsScan(sc) && k <= sc.se + 1 && CoarseBand(sc, z, k) && AllPartial(z, y, w, k, sc.se + 1)
    requires var a := Advance(sc, z, k, r, s, NEVER);
      a.Stopped? && forall n :: k <= n < a.k ==> w[n] == a.z[n]
    ensures var a, b := Advance(sc, z, k, r, s, NEVER), Advance(sc, y, k, r, s, f);
      && (b.Stopped? ==> b.k == a.k && b.s == a.s && b.z == Better(y, a.z, k, a.k))
      && (f == NEVER ==> b.Stopped? && b.f == NEVER)
      && (b.Forced? ==> forall n :: 0 <= n < 64 && b.z[n] != y[n] ==> k <= n < a.k && z[n] != 0 && b.z[n] == w[n])
    decreases sc.se + 1 - k
  {
    var a := Advance(sc, z, k, r, s, NEVER);
    if k > sc.se {
      assert Better(y, a.z, k, k) == y;
    } else if z[k] != 0 {
      AgainCorrected(sc, z, y, w, k, r, s, f);
    } else if r == 0 {
      assert Better(y, a.z, k, k) == y;
    } else {
      AdvanceAgain(sc, z, y, w, k + 1, r - 1, s, f);
      AdvanceFrame(sc, z, k + 1, r - 1, s, NEVER);
      assert Better(y, a.z, k, a.k) == Better(y, a.z, k + 1, a.k);
    }
  }

  lemma {:induction false} AgainCorrected(sc: Scan, z: Block, y: Block, w: Block, k: nat, r: nat, s: seq<bit>, f: int)
    requires IsScan(sc) && k <= sc.se && CoarseBand(sc, z, k) && AllPartial(z, y, w, k, sc.se + 1) && z[k] != 0
    requires var a := Advance(sc, z, k, r, s, NEVER);
      a.Stopped? && forall n :: k <= n < a.k ==> w[n] == a.z[n]
    ensures var a, b := Advance(sc, z, k, r, s, NEVER), Advance(sc, y, k, r, s, f);
      && (b.Stopped? ==> b.k == a.k && b.s == a.s && b.z == Better(y, a.z, k, a.k))
      && (f == NEVER ==> b.Stopped? && b.f == NEVER)
      && (b.Forced? ==> forall n :: 0 <= n < 64 && b.z[n] != y[n] ==> k <= n < a.k && z[n] != 0 && b.z[n] == w[n])
    decreases sc.se + 1 - k, 0
  {
    var a := Advance(sc, z, k, r, s, NEVER);
    var v := Correct(z[k], s[0], sc.p);
    CorrectTwice(z[k], s[0], sc.p);
    AdvanceFrame(sc, z[k := v], k + 1, r, s[1..], NEVER);
    assert w[k] == a.z[k] == v;
    assert Partial(z[k], y[k], w[k]);
    assert y[k] != 0 && Correct(y[k], s[0], sc.p) == v;
    if !Fails(f, s, 1) {
      AdvanceAgain(sc, z[k := v], y[k := v], w, k + 1, r, s[1..], Next(f));
      assert Better(y[k := v], a.z, k + 1, a.k) == Better(y, a.z, k, a.k);
    }
  }

  // ---- The whole call ----

  // The block with all the correction bits of an uninterrupted call from position k on.
  ghost function Whole(sc: Scan, htbl: HuffTable, z: Block, k: nat, s: seq<bit>): Block
    requires IsScan(sc) && Readable(htbl) && k <= sc.se + 2
    decreases sc.se + 2 - k, 1
  {
    if k > sc.se || Decode(htbl, s).Short? then z
    else WholeAfter(sc, htbl, z, k, Decode(htbl, s).sym, s[Decode(htbl, s).used..])
  }

  ghost function WholeAfter(sc: Scan, htbl: HuffTable, z: Block, k: nat, sym: nat, s: seq<bit>): Block
    requires IsScan(sc) && Readable(htbl) && k <= sc.se
    decreases sc.se + 2 - k, 0
  {
    var r := sym / 16;
    if sym % 16 != 0 then
      if |s| < 1 then z
      else
        match Advance(sc, z, k, r, s[1..], NEVER)
        case Forced(z') => z'
        case Stopped(z', k', s', _) =>
          if k' > sc.se then z' else Whole(sc, htbl, z'[k' := Signed(s[0], sc.p)], k' + 1, s')
    else if r == 15 then
      match Advance(sc, z, k, r, s, NEVER)
      case Forced(z') => z'
      case Stopped(z', k', s', _) => Whole(sc, htbl, z', k' + 1, s')
    else if r > 0 && |s| < r then z
    else Advance(sc, z, k, 64, s[r..], NEVER).z
  }

  lemma {:induction false} WholeFrame(sc: Scan, htbl: HuffTable, z: Block, k: nat, s: seq<bit>)
    requires IsScan(sc) && Readable(htbl) && k <= sc.se + 2
    ensures forall n :: 0 <= n < 64 && (n < k || n > sc.se) ==> Whole(sc, htbl, z, k, s)[n] == z[n]
    decreases sc.se + 2 - k, 1
  {
    if k <= sc.se && Decode(htbl, s).Got? {
      WholeAfterFrame(sc, htbl, z, k, Decode(htbl, s).sym, s[Decode(htbl, s).used..]);
    }
  }

  lemma {:induction false} WholeAfterFrame(sc: Scan, htbl: HuffTable, z: Block, k: nat, sym: nat, s: seq<bit>)
    requires IsScan(sc) && Readable(htbl) && k <= sc.se
    ensures forall n :: 0 <= n < 64 && (n < k || n > sc.se) ==> WholeAfter(sc, htbl, z, k, sym, s)[n] == z[n]
    decreases sc.se + 2 - k, 0
  {
    var r := sym / 16;
    if sym % 16 != 0 {
      if |s| >= 1 {
        var a := Advance(sc, z, k, r, s[1..], NEVER);
        AdvanceFrame(sc, z, k, r, s[1..], NEVER);
        if a.Stopped? && a.k <= sc.se {
          WholeFrame(sc, htbl, a.z[a.k := Signed(s[0], sc.p)], a.k + 1, a.s);
        }
      }
    } else if r == 15 {
      var a := Advance(sc, z, k, r, s, NEVER);
      AdvanceFrame(sc, z, k, r, s, NEVER);
      if a.Stopped? {
        WholeFrame(sc, htbl, a.z, a.k + 1, a.s);
      }
    } else if r <= |s| {
      AdvanceFrame(sc, z, k, 64, s[r..], NEVER);
    }
  }

  // z0 is the block on entry, z and y are the blocks of an uninterrupted and of a repeated call, both
  // at position k; w is the fully corrected block.
  ghost predicate Alongside(sc: Scan, z0: Block, w: Block, z: Block, y: Block, k: nat, newnz: seq<nat>)
    requires IsScan(sc)
  {
    && Positions(newnz) && CoarseBand(sc, z0, sc.ss)
    && sc.ss <= k && (forall n :: n in newnz ==> n < k)
    && (forall n :: 0 <= n < 64 && (n < k || n > sc.se) ==> y[n] == z[n])
    && (forall n :: k <= n <= sc.se ==> z[n] == z0[n])
    && (forall n :: 0 <= n < 64 ==> if n in newnz then z0[n] == 0 else Partial(z0[n], y[n], w[n]))
  }

  lemma {:induction false} UndoAt(z: Block, newnz: seq<nat>, n: nat)
    requires Positions(newnz) && n < 64
    ensures Undo(z, newnz)[n] == if n in newnz then 0 else z[n]
    decreases |newnz|
  {
    if newnz != [] {
      var last, init := newnz[|newnz| - 1], newnz[..|newnz| - 1];
      assert newnz == init + [last];
      UndoAt(z[last := 0], init, n);
    }
  }

  // Undoing leaves a block that differs from the block on entry in correction bits only.
  lemma UndoneIsPartial(sc: Scan, z0: Block, w: Block, z: Block, y: Block, k: nat, newnz: seq<nat>, y': Block, j: nat)
    requires IsScan(sc) && Alongside(sc, z0, w, z, y, k, newnz)
    requires forall n :: 0 <= n < 64 && y'[n] != y[n] ==> k <= n < j && z[n] != 0 && y'[n] == w[n]
    requires k <= sc.se && j <= sc.se + 1
    ensures AllPartial(z0, Undo(y', newnz), w, 0, 64)
  {
    forall n | 0 <= n < 64
      ensures Partial(z0[n], Undo(y', newnz)[n], w[n])
    {
      UndoAt(y', newnz, n);
    }
  }

  // Both calls have passed the stretch from k to j.
  lemma Passed(sc: Scan, z0: Block, w: Block, z: Block, y: Block, k: nat, newnz: seq<nat>, z': Block, j: nat)
    requires IsScan(sc) && Alongside(sc, z0, w, z, y, k, newnz) && k <= j <= sc.se + 1
    requires forall n :: 0 <= n < 64 && (n < k || n >= j || z[n] == 0) ==> z'[n] == z[n]
    requires forall n :: k <= n < j ==> w[n] == z'[n]
    ensures Alongside(sc, z0, w, z', Better(y, z', k, j), j, newnz)
  {
  }

  lemma AdvanceBoth(sc: Scan, z0: Block, w: Block, z: Block, y: Block, k: nat, newnz: seq<nat>, r: nat, s: seq<bit>, f: int)
    requires IsScan(sc) && Alongside(sc, z0, w, z, y, k, newnz) && k <= sc.se
    requires var a := Advance(sc, z, k, r, s, NEVER);
      a.Stopped? && forall n :: k <= n < a.k ==> w[n] == a.z[n]
    ensures var a, b := Advance(sc, z, k, r, s, NEVER), Advance(sc, y, k, r, s, f);
      && (b.Stopped? ==> b.k == a.k && b.s == a.s && Alongside(sc, z0, w, a.z, b.z, a.k, newnz))
      && (f == NEVER ==> b.Stopped? && b.f == NEVER)
      && (b.Forced? ==> AllPartial(z0, Undo(b.z, newnz), w, 0, 64))
  {
    var a, b := Advance(sc, z, k, r, s, NEVER), Advance(sc, y, k, r, s, f);
    AdvanceFrame(sc, z, k, r, s, NEVER);
    NotNew(sc, z0, w, z, y, k, newnz);
    AdvanceAgain(sc, z, y, w, k, r, s, f);
    Passed(sc, z0, w, z, y, k, newnz, a.z, a.k);
    if b.Forced? {
      UndoneIsPartial(sc, z0, w, z, y, k, newnz, b.z, a.k);
    }
  }

  // Positions ahead are partial whether or not they count as newly nonzero.
  lemma NotNew(sc: Scan, z0: Block, w: Block, z: Block, y: Block, k: nat, newnz: seq<nat>)
    requires IsScan(sc) && Alongside(sc, z0, w, z, y, k, newnz)
    ensures CoarseBand(sc, z, k) && AllPartial(z, y, w, k, sc.se + 1)
  {
  }

  lemma {:induction false} AdvanceToEnd(sc: Scan, z: Block, k: nat, r: nat, s: seq<bit>, f: int)
    requires IsScan(sc) && k <= sc.se + 1 && r + k > sc.se
    ensures Advance(sc, z, k, r, s, f).Stopped? ==> Advance(sc, z, k, r, s, f).k == sc.se + 1
    decreases sc.se + 1 - k
  {
    if k <= sc.se {
      if z[k] != 0 {
        if !Fails(f, s, 1) {
          AdvanceToEnd(sc, z[k := Correct(z[k], s[0], sc.p)], k + 1, r, s[1..], Next(f));
        }
      } else if r > 0 {
        AdvanceToEnd(sc, z, k + 1, r - 1, s, f);
      }
    }
  }

  // A call that is interrupted or not, after others that were interrupted.
  ghost predicate Repeats(z0: Block, w: Block, f: int, once: Outcome, again: Outcome) {
    again == once || (f != NEVER && again.Suspended? && AllPartial(z0, again.z, w, 0, 64))
  }

  lemma SuspendedHere(sc: Scan, z0: Block, w: Block, z: Block, y: Block, k: nat, newnz: seq<nat>)
    requires IsScan(sc) && Alongside(sc, z0, w, z, y, k, newnz) && k <= sc.se
    ensures AllPartial(z0, Undo(y, newnz), w, 0, 64)
  {
    UndoneIsPartial(sc, z0, w, z, y, k, newnz, y, k);
  }

  lemma EndBandAgain(sc: Scan, z0: Block, w: Block, z: Block, y: Block, k: nat, newnz: seq<nat>, e: nat, s: seq<bit>, f: int)
    requires IsScan(sc) && Alongside(sc, z0, w, z, y, k, newnz) && k <= sc.se && e > 0
    requires EndBand(sc, z, k, newnz, e, s, NEVER).Done? && w == Advance(sc, z, k, 64, s, NEVER).z
    ensures Repeats(z0, w, f, EndBand(sc, z, k, newnz, e, s, NEVER), EndBand(sc, y, k, newnz, e, s, f))
  {
    AdvanceToEnd(sc, z, k, 64, s, NEVER);
    AdvanceBoth(sc, z0, w, z, y, k, newnz, 64, s, f);
    var a, b := Advance(sc, z, k, 64, s, NEVER), Advance(sc, y, k, 64, s, f);
    assert b.Stopped? ==> b.z == a.z;
  }

  lemma {:induction false} RefineAgain(sc: Scan, htbl: HuffTable, z0: Block, w: Block, z: Block, y: Block, k: nat,
                                       newnz: seq<nat>,
                     s: seq<bit>, f: int)
    requires IsScan(sc) && Readable(htbl) && k <= sc.se + 2 && Alongside(sc, z0, w, z, y, k, newnz)
    requires Refine(sc, htbl, z, k, newnz, s, NEVER).Done? && w == Whole(sc, htbl, z, k, s)
    ensures Repeats(z0, w, f, Refine(sc, htbl, z, k, newnz, s, NEVER), Refine(sc, htbl, y, k, newnz, s, f))
    decreases sc.se + 2 - k, 3
  {
    if k > sc.se {
      assert y == z;
    } else if f == 0 {
      SuspendedHere(sc, z0, w, z, y, k, newnz);
    } else {
      AfterAgain(sc, htbl, z0, w, z, y, k, newnz, Decode(htbl, s).sym, s[Decode(htbl, s).used..], Next(f));
    }
  }

  lemma {:induction false} AfterAgain(sc: Scan, htbl: HuffTable, z0: Block, w: Block, z: Block, y: Block, k: nat, newnz: seq<nat>,
                    sym: nat, s: seq<bit>, f: int)
    requires IsScan(sc) && Readable(htbl) && k <= sc.se && Alongside(sc, z0, w, z, y, k, newnz)
    requires AfterSymbol(sc, htbl, z, k, newnz, sym, s, NEVER).Done? && w == WholeAfter(sc, htbl, z, k, sym, s)
    ensures Repeats(z0, w, f, AfterSymbol(sc, htbl, z, k, newnz, sym, s, NEVER), AfterSymbol(sc, htbl, y, k, newnz, sym, s, f))
    decreases sc.se + 2 - k, 2
  {
    var r := sym / 16;
    SuspendedHere(sc, z0, w, z, y, k, newnz);
    if sym % 16 != 0 {
      if !Fails(f, s, 1) {
        NewCoefAgain(sc, htbl, z0, w, z, y, k, newnz, r, Signed(s[0], sc.p), s[1..], Next(f));
      }
    } else if r == 15 {
      ZrlAgain(sc, htbl, z0, w, z, y, k, newnz, s, f);
    } else if r == 0 || !Fails(f, s, r) {
      EndBandAgain(sc, z0, w, z, y, k, newnz, Pow2(r) + BitsValue(s[..r]), s[r..], if r > 0 then Next(f) else f);
    }
  }

  lemma {:induction false} ZrlAgain(sc: Scan, htbl: HuffTable, z0: Block, w: Block, z: Block, y: Block, k: nat, newnz: seq<nat>,
                                    s: seq<bit>, f: int)
    requires IsScan(sc) && Readable(htbl) && k <= sc.se && Alongside(sc, z0, w, z, y, k, newnz)
    requires PassZeros(sc, htbl, z, k, newnz, s, NEVER).Done?
    requires var a := Advance(sc, z, k, 15, s, NEVER);
      a.Stopped? && w == Whole(sc, htbl, a.z, a.k + 1, a.s)
    ensures Repeats(z0, w, f, PassZeros(sc, htbl, z, k, newnz, s, NEVER), PassZeros(sc, htbl, y, k, newnz, s, f))
    decreases sc.se + 2 - k, 1
  {
    var a, b := Advance(sc, z, k, 15, s, NEVER), Advance(sc, y, k, 15, s, f);
    AdvanceFrame(sc, z, k, 15, s, NEVER);
    WholeFrame(sc, htbl, a.z, a.k + 1, a.s);
    AdvanceBoth(sc, z0, w, z, y, k, newnz, 15, s, f);
    if b.Stopped? {
      PassAgain(sc, htbl, z0, w, a.z, b.z, k, a.k, newnz, a.s, b.f);
    }
  }

  lemma {:induction false} PassAgain(sc: Scan, htbl: HuffTable, z0: Block, w: Block, z: Block, y: Block, i: nat, k: nat,
                                     newnz: seq<nat>,
                                     s: seq<bit>, f: int)
    requires IsScan(sc) && Readable(htbl) && i <= k <= sc.se + 1 && Alongside(sc, z0, w, z, y, k, newnz)
    requires k <= sc.se ==> z[k] == 0
    requires Refine(sc, htbl, z, k + 1, newnz, s, NEVER).Done? && w == Whole(sc, htbl, z, k + 1, s)
    ensures Repeats(z0, w, f, Refine(sc, htbl, z, k + 1, newnz, s, NEVER), Refine(sc, htbl, y, k + 1, newnz, s, f))
    decreases sc.se + 2 - i, 0
  {
    PassOne(sc, z0, w, z, y, k, newnz);
    RefineAgain(sc, htbl, z0, w, z, y, k + 1, newnz, s, f);
  }

  lemma PassOne(sc: Scan, z0: Block, w: Block, z: Block, y: Block, k: nat, newnz: seq<nat>)
    requires IsScan(sc) && Alongside(sc, z0, w, z, y, k, newnz) && (k <= sc.se ==> z[k] == 0)
    ensures Alongside(sc, z0, w, z, y, k + 1, newnz)
  {
  }

  lemma {:induction false} NewCoefAgain(sc: Scan, htbl: HuffTable, z0: Block, w: Block, z: Block, y: Block, k: nat,
                                        newnz: seq<nat>,
                      r: nat, v: int, s: seq<bit>, f: int)
    requires IsScan(sc) && Readable(htbl) && k <= sc.se && Alongside(sc, z0, w, z, y, k, newnz)
    requires NewCoef(sc, htbl, z, k, newnz, r, v, s, NEVER).Done?
    requires var a := Advance(sc, z, k, r, s, NEVER);
      a.Stopped? && w == if a.k > sc.se then a.z else Whole(sc, htbl, a.z[a.k := v], a.k + 1, a.s)
    ensures Repeats(z0, w, f, NewCoef(sc, htbl, z, k, newnz, r, v, s, NEVER), NewCoef(sc, htbl, y, k, newnz, r, v, s, f))
    decreases sc.se + 2 - k, 1
  {
    var a, b := Advance(sc, z, k, r, s, NEVER), Advance(sc, y, k, r, s, f);
    AdvanceFrame(sc, z, k, r, s, NEVER);
    if a.k <= sc.se {
      WholeFrame(sc, htbl, a.z[a.k := v], a.k + 1, a.s);
    }
    AdvanceBoth(sc, z0, w, z, y, k, newnz, r, s, f);
    if b.Stopped? {
      PlaceAgain(sc, htbl, z0, w, a.z, b.z, k, a.k, newnz, v, a.s, b.f);
    }
  }

  // Both calls set the coefficient at k, or overshoot the band.
  lemma {:induction false} PlaceAgain(sc: Scan, htbl: HuffTable, z0: Block, w: Block, z: Block, y: Block, i: nat, k: nat,
                                      newnz: seq<nat>,
                                      v: int, s: seq<bit>, f: int)
    requires IsScan(sc) && Readable(htbl) && i <= k <= sc.se + 1 && Alongside(sc, z0, w, z, y, k, newnz)
    requires k <= sc.se ==> z[k] == 0
    requires Refine(sc, htbl, z[Clamp(k) := v], k + 1, newnz + [Clamp(k)], s, NEVER).Done?
    requires k <= sc.se ==> w == Whole(sc, htbl, z[k := v], k + 1, s)
    ensures Repeats(z0, w, f, Refine(sc, htbl, z[Clamp(k) := v], k + 1, newnz + [Clamp(k)], s, NEVER),
                    Refine(sc, htbl, y[Clamp(k) := v], k + 1, newnz + [Clamp(k)], s, f))
    decreases sc.se + 2 - i, 0
  {
    if k > sc.se {
      assert y == z;
    } else {
      OneNew(sc, z0, w, z, y, k, newnz, v);
      RefineAgain(sc, htbl, z0, w, z[k := v], y[k := v], k + 1, newnz + [k], s, f);
    }
  }

  lemma OneNew(sc: Scan, z0: Block, w: Block, z: Block, y: Block, k: nat, newnz: seq<nat>, v: int)
    requires IsScan(sc) && Alongside(sc, z0, w, z, y, k, newnz) && k <= sc.se && z[k] == 0
    ensures Alongside(sc, z0, w, z[k := v], y[k := v], k + 1, newnz + [k])
  {
  }

  // decode_mcu_AC_refine called again and again on the same input, forced to suspend after fs[0],
  // fs[1], ... bit fetches, and finally left to finish.
  function Retry(sc: Scan, htbl: HuffTable, z: Block, eobrun: nat, s: seq<bit>, fs: seq<int>): Outcome
    requires IsScan(sc) && Readable(htbl)
    decreases |fs|
  {
    if fs == [] then RefineMcu(sc, htbl, z, eobrun, s, NEVER)
    else
      match RefineMcu(sc, htbl, z, eobrun, s, fs[0])
      case Done(z', s', e') => Done(z', s', e')
      case Suspended(z') => Retry(sc, htbl, z', eobrun, s, fs[1..])
  }

  ghost function WholeMcu(sc: Scan, htbl: HuffTable, z: Block, eobrun: nat, s: seq<bit>): Block
    requires IsScan(sc) && Readable(htbl)
  {
    if eobrun == 0 then Whole(sc, htbl, z, sc.ss, s) else Advance(sc, z, sc.ss, 64, s, NEVER).z
  }

  lemma McuAgain(sc: Scan, htbl: HuffTable, z: Block, y: Block, eobrun: nat, s: seq<bit>, f: int)
    requires IsScan(sc) && Readable(htbl) && CoarseBand(sc, z, sc.ss)
    requires RefineMcu(sc, htbl, z, eobrun, s, NEVER).Done?
    requires AllPartial(z, y, WholeMcu(sc, htbl, z, eobrun, s), 0, 64)
    ensures Repeats(z, WholeMcu(sc, htbl, z, eobrun, s), f, RefineMcu(sc, htbl, z, eobrun, s, NEVER),
                    RefineMcu(sc, htbl, y, eobrun, s, f))
  {
    var w := WholeMcu(sc, htbl, z, eobrun, s);
    assert Alongside(sc, z, w, z, y, sc.ss, []) by {
      WholeFrame(sc, htbl, z, sc.ss, s);
      AdvanceFrame(sc, z, sc.ss, 64, s, NEVER);
      assert forall n :: 0 <= n < 64 ==> Partial(z[n], y[n], w[n]);
    }
    if eobrun == 0 {
      RefineAgain(sc, htbl, z, w, z, y, sc.ss, [], s, f);
    } else {
      EndBandAgain(sc, z, w, z, y, sc.ss, [], eobrun, s, f);
    }
  }

  lemma {:induction false} RetryFrom(sc: Scan, htbl: HuffTable, z: Block, y: Block, eobrun: nat, s: seq<bit>, fs: seq<int>)
    requires IsScan(sc) && Readable(htbl) && CoarseBand(sc, z, sc.ss)
    requires RefineMcu(sc, htbl, z, eobrun, s, NEVER).Done?
    requires AllPartial(z, y, WholeMcu(sc, htbl, z, eobrun, s), 0, 64)
    ensures Retry(sc, htbl, y, eobrun, s, fs) == RefineMcu(sc, htbl, z, eobrun, s, NEVER)
    decreases |fs|
  {
    var w := WholeMcu(sc, htbl, z, eobrun, s);
    if fs == [] {
      McuAgain(sc, htbl, z, y, eobrun, s, NEVER);
    } else {
      McuAgain(sc, htbl, z, y, eobrun, s, fs[0]);
      var again := RefineMcu(sc, htbl, y, eobrun, s, fs[0]);
      if again.Suspended? {
        RetryFrom(sc, htbl, z, again.z, eobrun, s, fs[1..]);
      }
    }
  }

  // Suspension transparency: whatever fetches are forced to fail, however often, the block, the rest
  // of the input and the run are those of one uninterrupted call.
  lemma SuspensionLeavesNoTrace(sc: Scan, htbl: HuffTable, z: Block, eobrun: nat, s: seq<bit>, fs: seq<int>)
    requires IsScan(sc) && Readable(htbl) && CoarseBand(sc, z, sc.ss)
    requires RefineMcu(sc, htbl, z, eobrun, s, NEVER).Done?
    ensures Retry(sc, htbl, z, eobrun, s, fs) == RefineMcu(sc, htbl, z, eobrun, s, NEVER)
  {
    RetryFrom(sc, htbl, z, z, eobrun, s, fs);
  }
}