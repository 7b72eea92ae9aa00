// Refining a block from a bit reader: the loops of decode_mcu_AC_refine of jdhuff.c, on a source that
// may run out of input between any two fetches.
module RefineReader {
  import opened Numerals
  import opened CanonicalCode
  import opened HuffmanDecode
  import opened BitReader
  import opened ACScan
  import opened ACRefine

  // n more fetches that succeed before f others do.
  function Plus(f: int, n: nat): int {
    if f < 0 then f else f + n
  }

  // ---- Advancing over coefficients ----

  // The bits w, in n fetches, lead from position k to k', whatever follows.
  ghost predicate AdvancesTo(sc: Scan, z: Block, k: nat, r: nat, w: seq<bit>, n: nat, z': Block, k': nat, r': nat)
    requires IsScan(sc) && k <= sc.se + 1 && k' <= sc.se + 1
  {
    forall t: seq<bit>, f: int :: Advance(sc, z, k, r, w + t, Plus(f, n)) == Advance(sc, z', k', r', t, f)
  }

  ghost predicate AdvancesAll(sc: Scan, z: Block, k: nat, r: nat, w: seq<bit>, n: nat, z': Block, k': nat)
    requires IsScan(sc) && k <= sc.se + 1
  {
    forall t: seq<bit>, f: int :: Advance(sc, z, k, r, w + t, Plus(f, n)) == Stopped(z', k', t, f)
  }

  lemma AdvancesNowhere(sc: Scan, z: Block, k: nat, r: nat)
    requires IsScan(sc) && k <= sc.se + 1
    ensures AdvancesTo(sc, z, k, r, [], 0, z, k, r)
  {
    forall t: seq<bit>, f: int
      ensures Advance(sc, z, k, r, [] + t, Plus(f, 0)) == Advance(sc, z, k, r, t, f)
    {
      assert [] + t == t;
    }
  }

  lemma AdvanceBit(sc: Scan, z: Block, k: nat, r: nat, b: seq<bit>, t: seq<bit>, f: int)
    requires IsScan(sc) && k <= sc.se && z[k] != 0 && |b| == 1
    ensures Advance(sc, z, k, r, b + t, Plus(f, 1)) == Advance(sc, z[k := Correct(z[k], b[0], sc.p)], k + 1, r, t, f)
  {
    assert (b + t)[1..] == t;
  }

  // A correction bit, or a zero that is passed.
  lemma AdvancesBit(sc: Scan, z: Block, k: nat, r: nat, w: seq<bit>, n: nat, mid: Block, m: nat, r': nat, b: seq<bit>)
    requires IsScan(sc) && k <= sc.se + 1 && m <= sc.se && AdvancesTo(sc, z, k, r, w, n, mid, m, r')
    requires mid[m] != 0 && |b| == 1
    ensures AdvancesTo(sc, z, k, r, w + b, n + 1, mid[m := Correct(mid[m], b[0], sc.p)], m + 1, r')
  {
    var corrected, next := mid[m := Correct(mid[m], b[0], sc.p)], m + 1;
    forall t: seq<bit>, f: int
      ensures Advance(sc, z, k, r, (w + b) + t, Plus(f, n + 1)) == Advance(sc, corrected, next, r', t, f)
    {
      Reassociate(w, b, t);
      assert Plus(f, n + 1) == Plus(Plus(f, 1), n);
      AdvanceBit(sc, mid, m, r', b, t, f);
    }
  }

  lemma AdvancesZero(sc: Scan, z: Block, k: nat, r: nat, w: seq<bit>, n: nat, mid: Block, m: nat, r': nat)
    requires IsScan(sc) && k <= sc.se + 1 && m <= sc.se && AdvancesTo(sc, z, k, r, w, n, mid, m, r')
    requires mid[m] == 0 && r' > 0
    ensures AdvancesTo(sc, z, k, r, w, n, mid, m + 1, r' - 1)
  {
  }

  lemma AdvancesEnd(sc: Scan, z: Block, k: nat, r: nat, w: seq<bit>, n: nat, z': Block, k': nat, r': nat)
    requires IsScan(sc) && k <= sc.se + 1 && k' <= sc.se + 1 && AdvancesTo(sc, z, k, r, w, n, z', k', r')
    requires k' > sc.se || (z'[k'] == 0 && r' == 0)
    ensures AdvancesAll(sc, z, k, r, w, n, z', k')
  {
  }

  // The next fetch is forced to fail.
  lemma AdvancesForced(sc: Scan, z: Block, k: nat, r: nat, w: seq<bit>, n: nat, z': Block, k': nat, r': nat, t: seq<bit>)
    requires IsScan(sc) && k <= sc.se + 1 && k' <= sc.se && AdvancesTo(sc, z, k, r, w, n, z', k', r') && z'[k'] != 0
    ensures Advance(sc, z, k, r, w + t, n) == Forced(z')
  {
    assert Plus(0, n) == n;
    assert Advance(sc, z', k', r', t, 0) == Forced(z');
  }

  // Without a marker no zeros have been made up.
  lemma AllTaken(from: Source, w: seq<bit>, k: nat, to: Source)
    requires Took(from, w, k, to) && !from.here
    ensures from.rest == w + to.rest
  {
    assert from.rest + Zeros(0) == from.rest;
  }

  lemma OneBitValue(b: seq<bit>)
    requires |b| == 1
    ensures BitsValue(b) == b[0]
  {
    BitsValueSnoc([], b[0]);
    assert b == [] + [b[0]];
  }

  // The state of the loop over coefficients, or what it has left behind where it was forced to suspend.
  ghost predicate Advancing(sc: Scan, z: Block, k: nat, r: nat, from: Source, ok: bool, w: seq<bit>, n: nat, j: nat,
                            to: Source, z': Block, k': nat, r': nat)
    requires IsScan(sc) && k <= sc.se + 1 && k' <= sc.se + 1
  {
    if ok then Took(from, w, j, to) && AdvancesTo(sc, z, k, r, w, n, z', k', r')
    else !from.here && Advance(sc, z, k, r, from.rest, n) == Forced(z')
  }

  lemma AdvancingStarts(sc: Scan, z: Block, k: nat, r: nat, from: Source)
    requires IsScan(sc) && k <= sc.se + 1
    ensures Advancing(sc, z, k, r, from, true, [], 0, 0, from, z, k, r)
  {
    AdvancesNowhere(sc, z, k, r);
    TookNothing(from);
  }

  lemma AdvancingBit(sc: Scan, z: Block, k: nat, r: nat, from: Source, w: seq<bit>, n: nat, j: nat, mid: Source,
                     before: Block, m: nat, left: nat, x: seq<bit>, i: nat, to: Source, after: Block, n': nat, next: nat)
    requires IsScan(sc) && k <= m <= sc.se && before[m] != 0 && |x| == 1 && n' == n + 1 && next == m + 1
    requires Advancing(sc, z, k, r, from, true, w, n, j, mid, before, m, left) && Took(mid, x, i, to)
    requires after == before[m := Correct(before[m], x[0], sc.p)]
    ensures Advancing(sc, z, k, r, from, true, w + x, n', j + i, to, after, next, left)
  {
    TookMore(from, w, j, mid, x, i, to);
    AdvancesBit(sc, z, k, r, w, n, before, m, left, x);
  }

  lemma AdvancingForced(sc: Scan, z: Block, k: nat, r: nat, from: Source, w: seq<bit>, n: nat, j: nat, mid: Source,
                        before: Block, m: nat, left: nat, to: Source, next: nat)
    requires IsScan(sc) && k <= m <= sc.se && before[m] != 0 && next == m + 1 && !mid.here
    requires Advancing(sc, z, k, r, from, true, w, n, j, mid, before, m, left)
    ensures Advancing(sc, z, k, r, from, false, w, n, j, to, before, next, left)
  {
    AllTaken(from, w, j, mid);
    AdvancesForced(sc, z, k, r, w, n, before, m, left, mid.rest);
  }

  // What AdvanceOver has done.
  ghost predicate AdvanceDone(sc: Scan, z: Block, k: nat, r: nat, from: Source, ok: bool, w: seq<bit>, n: nat, j: nat,
                           to: Source, z': Block, k': nat)
    requires IsScan(sc) && k <= sc.se + 1
  {
    if ok then Took(from, w, j, to) && AdvancesAll(sc, z, k, r, w, n, z', k')
    else !from.here && Advance(sc, z, k, r, from.rest, n) == Forced(z')
  }

  // Correction bits for the nonzero coefficients from k on, up to the zero after r others.
  method AdvanceOver(state: Reader, sc: Scan, block: array<int>, k: nat, r: nat)
    returns (ok: bool, k': nat, ghost w: seq<bit>, ghost n: nat, ghost j: nat)
    requires state.Valid() && IsScan(sc) && block.Length == 64 && k <= sc.se + 1
    modifies state, block
    ensures state.Valid() && k <= k' <= sc.se + 1
    ensures AdvanceDone(sc, old(block[..]), k, r, old(state.State()), ok, w, n, j, state.State(), block[..], k')
  {
    ghost var z, from := block[..], state.State();
    var left, more: bool := r, true;
    ok, k', w, n, j := true, k, [], 0, 0;
    AdvancingStarts(sc, z, k, r, from);
    while ok && more && k' <= sc.se
      invariant state.Valid() && k <= k' <= sc.se + 1
      invariant Advancing(sc, z, k, r, from, ok, w, n, j, state.State(), block[..], k', left)
      invariant !more ==> k' <= sc.se && block[k'] == 0 && left == 0
      decreases ok && more, sc.se + 1 - k'
    {
      ok, more, k', left, w, n, j := AdvanceOne(state, sc, block, k', left, z, k, r, from, w, n, j);
    }
    if ok {
      AdvancesEnd(sc, z, k, r, w, n, block[..], k', left);
    }
  }

  method AdvanceOne(state: Reader, sc: Scan, block: array<int>, m: nat, left: nat, ghost z: Block, ghost k: nat, ghost r: nat,
                    ghost from: Source, ghost w: seq<bit>, ghost n: nat, ghost j: nat)
    returns (ok: bool, more: bool, m': nat, left': nat, ghost w': seq<bit>, ghost n': nat, ghost j': nat)
    requires state.Valid() && IsScan(sc) && block.Length == 64 && k <= m <= sc.se
    requires Advancing(sc, z, k, r, from, true, w, n, j, state.State(), block[..], m, left)
    modifies state, block
    ensures state.Valid() && m <= m' <= sc.se + 1 && (ok && more ==> m < m')
    ensures Advancing(sc, z, k, r, from, ok, w', n', j', state.State(), block[..], m', left')
    ensures !more ==> m' <= sc.se && block[m'] == 0 && left' == 0
  {
    ok, more, m', left', w', n', j' := true, true, m, left, w, n, j;
    if block[m] != 0 {
      ok, w', n', j' := CorrectNext(state, sc, block, m, left, z, k, r, from, w, n, j);
      m' := m + 1;
    } else if left == 0 {
      more := false;
    } else {
      AdvancesZero(sc, z, k, r, w, n, block[..], m, left);
      left', m' := left - 1, m + 1;
    }
  }

  // A correction bit for a coefficient that is nonzero already.
  method CorrectNext(state: Reader, sc: Scan, block: array<int>, m: nat, ghost left: nat, ghost z: Block, ghost k: nat,
                     ghost r: nat,
                     ghost from: Source, ghost w: seq<bit>, ghost n: nat, ghost j: nat)
    returns (ok: bool, ghost w': seq<bit>, ghost n': nat, ghost j': nat)
    requires state.Valid() && IsScan(sc) && block.Length == 64 && k <= m <= sc.se && block[m] != 0
    requires Advancing(sc, z, k, r, from, true, w, n, j, state.State(), block[..], m, left)
    modifies state, block
    ensures state.Valid() && Advancing(sc, z, k, r, from, ok, w', n', j', state.State(), block[..], m + 1, left)
  {
    ghost var before, mid := block[..], state.State();
    var b;
    ghost var x, i;
    ok, b, x, i := state.Fetch(1);
    w', n', j' := w, n, j;
    if ok {
      OneBitValue(x);
      block[m] := Correct(block[m], b, sc.p);
      w', n', j' := w + x, n + 1, j + i;
      AdvancingBit(sc, z, k, r, from, w, n, j, mid, before, m, left, x, i, state.State(), block[..], n', m + 1);
    } else {
      AdvancingForced(sc, z, k, r, from, w, n, j, mid, before, m, left, state.State(), m + 1);
    }
  }

  // ---- The symbol loop ----

  ghost predicate RefinesTo(sc: Scan, htbl: HuffTable, z: Block, k: nat, newnz: seq<nat>, w: seq<bit>, n: nat,
                            z': Block, k': nat, newnz': seq<nat>)
    requires IsScan(sc) && Readable(htbl) && k <= sc.se + 2 && k' <= sc.se + 2 && Positions(newnz) && Positions(newnz')
  {
    forall t: seq<bit>, f: int :: Refine(sc, htbl, z, k, newnz, w + t, Plus(f, n)) == Refine(sc, htbl, z', k', newnz', t, f)
  }

  ghost predicate RefinesRun(sc: Scan, htbl: HuffTable, z: Block, k: nat, newnz: seq<nat>, w: seq<bit>, n: nat,
                             z': Block, k': nat, newnz': seq<nat>, run: nat)
    requires IsScan(sc) && Readable(htbl) && k <= sc.se + 2 && Positions(newnz) && Positions(newnz')
  {
    k' <= sc.se && run > 0 &&
    forall t: seq<bit>, f: int :: Refine(sc, htbl, z, k, newnz, w + t, Plus(f, n)) == EndBand(sc, z', k', newnz', run, t, f)
  }

  // The state of the symbol loop, or what it has left behind where it was forced to suspend.
  ghost predicate Refining(sc: Scan, htbl: HuffTable, z: Block, k: nat, newnz: seq<nat>, from: Source,
                           ok: bool, run: nat, w: seq<bit>, n: nat, j: nat, to: Source, z': Block, k': nat, newnz': seq<nat>)
    requires IsScan(sc) && Readable(htbl) && k <= sc.se + 2 && k' <= sc.se + 2 && Positions(newnz) && Positions(newnz')
  {
    if !ok then !from.here && Refine(sc, htbl, z, k, newnz, from.rest, n) == Suspended(Undo(z', newnz'))
    else
      && Took(from, w, j, to)
      && if run == 0 then RefinesTo(sc, htbl, z, k, newnz, w, n, z', k', newnz')
         else RefinesRun(sc, htbl, z, k, newnz, w, n, z', k', newnz', run)
  }

  lemma RefiningStarts(sc: Scan, htbl: HuffTable, z: Block, k: nat, newnz: seq<nat>, from: Source)
    requires IsScan(sc) && Readable(htbl) && k <= sc.se + 2 && Positions(newnz)
    ensures Refining(sc, htbl, z, k, newnz, from, true, 0, [], 0, 0, from, z, k, newnz)
  {
    TookNothing(from);
    forall t: seq<bit>, f: int
      ensures Refine(sc, htbl, z, k, newnz, [] + t, Plus(f, 0)) == Refine(sc, htbl, z, k, newnz, t, f)
    {
      assert [] + t == t;
    }
  }

  // One part of the loop after another.
  lemma RefiningMore(sc: Scan, htbl: HuffTable, z: Block, k: nat, newnz: seq<nat>, from: Source, w: seq<bit>, n: nat, j: nat,
                     mid: Source, z1: Block, k1: nat, newnz1: seq<nat>, ok: bool, run: nat, w1: seq<bit>, n1: nat, j1: nat,
                     to: Source, z2: Block, k2: nat, newnz2: seq<nat>)
    requires IsScan(sc) && Readable(htbl) && k <= sc.se + 2 && k1 <= sc.se + 2 && k2 <= sc.se + 2
    requires Positions(newnz) && Positions(newnz1) && Positions(newnz2)
    requires Refining(sc, htbl, z, k, newnz, from, true, 0, w, n, j, mid, z1, k1, newnz1)
    requires Refining(sc, htbl, z1, k1, newnz1, mid, ok, run, w1, n1, j1, to, z2, k2, newnz2)
    ensures Refining(sc, htbl, z, k, newnz, from, ok, run, w + w1, n + n1, j + j1, to, z2, k2, newnz2)
  {
    if ok {
      TookMore(from, w, j, mid, w1, j1, to);
      forall t: seq<bit>, f: int
        ensures Refine(sc, htbl, z, k, newnz, (w + w1) + t, Plus(f, n + n1)) ==
          Refine(sc, htbl, z1, k1, newnz1, w1 + t, Plus(f, n1))
      {
        Reassociate(w, w1, t);
        assert Plus(f, n + n1) == Plus(Plus(f, n1), n);
      }
    } else {
      AllTaken(from, w, j, mid);
      assert Plus(n1, n) == n + n1;
    }
  }

  // ---- One symbol ----

  lemma RefineAhead(sc: Scan, htbl: HuffTable, z: Block, k: nat, newnz: seq<nat>, w: seq<bit>, sym: nat, t: seq<bit>, f: int)
    requires IsScan(sc) && Readable(htbl) && k <= sc.se && Positions(newnz) && Decode(htbl, w) == Got(sym, |w|)
    ensures Refine(sc, htbl, z, k, newnz, w + t, Plus(f, 1)) == AfterSymbol(sc, htbl, z, k, newnz, sym, t, f)
  {
    DecodeMonotone(htbl, w, t, 1);
    CutAfter(w, t);
  }

  // A newly nonzero coefficient: its sign, and the way to its place.
  lemma NewAhead(sc: Scan, htbl: HuffTable, z: Block, k: nat, newnz: seq<nat>, sym: nat, b: seq<bit>, t: seq<bit>, f: int)
    requires IsScan(sc) && Readable(htbl) && k <= sc.se && Positions(newnz) && sym % 16 != 0 && |b| == 1
    ensures AfterSymbol(sc, htbl, z, k, newnz, sym, b + t, Plus(f, 1)) ==
      NewCoef(sc, htbl, z, k, newnz, sym / 16, Signed(b[0], sc.p), t, f)
  {
    CutAfter(b, t);
  }

  lemma NewRefines(sc: Scan, htbl: HuffTable, z: Block, k: nat, newnz: seq<nat>, w: seq<bit>, sym: nat, b: seq<bit>,
                   x: seq<bit>, n: nat, z': Block, k': nat, placed: Block, next: nat, pos: nat)
    requires IsScan(sc) && Readable(htbl) && k <= sc.se && Positions(newnz) && Decode(htbl, w) == Got(sym, |w|)
    requires sym % 16 != 0 && |b| == 1 && AdvancesAll(sc, z, k, sym / 16, x, n, z', k') && k' <= sc.se + 1
    requires pos == Clamp(k') && placed == z'[pos := Signed(b[0], sc.p)] && next == k' + 1
    ensures RefinesTo(sc, htbl, z, k, newnz, (w + b) + x, n + 2, placed, next, newnz + [pos])
  {
    forall t: seq<bit>, f: int
      ensures Refine(sc, htbl, z, k, newnz, ((w + b) + x) + t, Plus(f, n + 2)) ==
        Refine(sc, htbl, placed, next, newnz + [pos], t, f)
    {
      Reassociate(w + b, x, t);
      assert Plus(f, n + 2) == Plus(Plus(f, n), 2);
      SignAhead(sc, htbl, z, k, newnz, w, sym, b, x + t, Plus(f, n));
      assert Advance(sc, z, k, sym / 16, x + t, Plus(f, n)) == Stopped(z', k', t, f);
    }
  }

  lemma SignAhead(sc: Scan, htbl: HuffTable, z: Block, k: nat, newnz: seq<nat>, w: seq<bit>, sym: nat, b: seq<bit>,
                  t: seq<bit>, f: int)
    requires IsScan(sc) && Readable(htbl) && k <= sc.se && Positions(newnz) && Decode(htbl, w) == Got(sym, |w|)
    requires sym % 16 != 0 && |b| == 1
    ensures Refine(sc, htbl, z, k, newnz, (w + b) + t, Plus(f, 2)) ==
      NewCoef(sc, htbl, z, k, newnz, sym / 16, Signed(b[0], sc.p), t, f)
  {
    Reassociate(w, b, t);
    assert Plus(f, 2) == Plus(Plus(f, 1), 1);
    RefineAhead(sc, htbl, z, k, newnz, w, sym, b + t, Plus(f, 1));
    NewAhead(sc, htbl, z, k, newnz, sym, b, t, f);
  }

  lemma NewForced(sc: Scan, htbl: HuffTable, z: Block, k: nat, newnz: seq<nat>, w: seq<bit>, sym: nat, b: seq<bit>,
                  t: seq<bit>, n: nat, z': Block)
    requires IsScan(sc) && Readable(htbl) && k <= sc.se && Positions(newnz) && Decode(htbl, w) == Got(sym, |w|)
    requires sym % 16 != 0 && |b| == 1 && Advance(sc, z, k, sym / 16, t, n) == Forced(z')
    ensures Refine(sc, htbl, z, k, newnz, (w + b) + t, n + 2) == Suspended(Undo(z', newnz))
  {
    SignAhead(sc, htbl, z, k, newnz, w, sym, b, t, n);
  }

  lemma ZrlAhead(sc: Scan, htbl: HuffTable, z: Block, k: nat, newnz: seq<nat>, sym: nat, t: seq<bit>, f: int)
    requires IsScan(sc) && Readable(htbl) && k <= sc.se && Positions(newnz) && sym / 16 == 15 && sym % 16 == 0
    ensures AfterSymbol(sc, htbl, z, k, newnz, sym, t, f) == PassZeros(sc, htbl, z, k, newnz, t, f)
  {
  }

  lemma PassAhead(sc: Scan, htbl: HuffTable, z: Block, k: nat, newnz: seq<nat>, w: seq<bit>, sym: nat, t: seq<bit>, f: int)
    requires IsScan(sc) && Readable(htbl) && k <= sc.se && Positions(newnz) && Decode(htbl, w) == Got(sym, |w|)
    requires sym / 16 == 15 && sym % 16 == 0
    ensures Refine(sc, htbl, z, k, newnz, w + t, Plus(f, 1)) == PassZeros(sc, htbl, z, k, newnz, t, f)
  {
    RefineAhead(sc, htbl, z, k, newnz, w, sym, t, f);
    ZrlAhead(sc, htbl, z, k, newnz, sym, t, f);
  }

  lemma ZrlRefines(sc: Scan, htbl: HuffTable, z: Block, k: nat, newnz: seq<nat>, w: seq<bit>, sym: nat,
                   x: seq<bit>, n: nat, z': Block, k': nat, next: nat)
    requires IsScan(sc) && Readable(htbl) && k <= sc.se && Positions(newnz) && Decode(htbl, w) == Got(sym, |w|)
    requires sym / 16 == 15 && sym % 16 == 0 && AdvancesAll(sc, z, k, 15, x, n, z', k') && k' <= sc.se + 1 && next == k' + 1
    ensures RefinesTo(sc, htbl, z, k, newnz, w + x, n + 1, z', next, newnz)
  {
    forall t: seq<bit>, f: int
      ensures Refine(sc, htbl, z, k, newnz, (w + x) + t, Plus(f, n + 1)) == Refine(sc, htbl, z', next, newnz, t, f)
    {
      Reassociate(w, x, t);
      assert Advance(sc, z, k, 15, x + t, Plus(f, n)) == Stopped(z', k', t, f);
      ZrlWith(sc, htbl, z, k, newnz, w, sym, x + t, n, z', k', next, t, f);
    }
  }

  lemma ZrlWith(sc: Scan, htbl: HuffTable, z: Block, k: nat, newnz: seq<nat>, w: seq<bit>, sym: nat, s: seq<bit>, n: nat,
                z': Block, k': nat, next: nat, t: seq<bit>, f: int)
    requires IsScan(sc) && Readable(htbl) && k <= sc.se && Positions(newnz) && Decode(htbl, w) == Got(sym, |w|)
    requires sym / 16 == 15 && sym % 16 == 0 && k' <= sc.se + 1 && next == k' + 1
    requires Advance(sc, z, k, 15, s, Plus(f, n)) == Stopped(z', k', t, f)
    ensures Refine(sc, htbl, z, k, newnz, w + s, Plus(f, n + 1)) == Refine(sc, htbl, z', next, newnz, t, f)
  {
    assert Plus(f, n + 1) == Plus(Plus(f, n), 1);
    PassAhead(sc, htbl, z, k, newnz, w, sym, s, Plus(f, n));
  }

  lemma ZrlForced(sc: Scan, htbl: HuffTable, z: Block, k: nat, newnz: seq<nat>, w: seq<bit>, sym: nat,
                  t: seq<bit>, n: nat, z': Block)
    requires IsScan(sc) && Readable(htbl) && k <= sc.se && Positions(newnz) && Decode(htbl, w) == Got(sym, |w|)
    requires sym / 16 == 15 && sym % 16 == 0 && Advance(sc, z, k, 15, t, n) == Forced(z')
    ensures Refine(sc, htbl, z, k, newnz, w + t, n + 1) == Suspended(Undo(z', newnz))
  {
    PassAhead(sc, htbl, z, k, newnz, w, sym, t, n);
  }

  // The number of fetches that a run length of category r takes.
  function RunFetches(r: nat): nat {
    if r > 0 then 1 else 0
  }

  lemma RunAhead(sc: Scan, htbl: HuffTable, z: Block, k: nat, newnz: seq<nat>, sym: nat, b: seq<bit>, t: seq<bit>, f: int)
    requires IsScan(sc) && Readable(htbl) && k <= sc.se && Positions(newnz)
    requires sym / 16 == |b| != 15 && sym % 16 == 0
    ensures AfterSymbol(sc, htbl, z, k, newnz, sym, b + t, Plus(f, RunFetches(|b|))) ==
      EndBand(sc, z, k, newnz, Pow2(|b|) + BitsValue(b), t, f)
  {
    CutAfter(b, t);
  }

  lemma RunRefines(sc: Scan, htbl: HuffTable, z: Block, k: nat, newnz: seq<nat>, w: seq<bit>, sym: nat, b: seq<bit>,
                   n: nat, run: nat)
    requires IsScan(sc) && Readable(htbl) && k <= sc.se && Positions(newnz) && Decode(htbl, w) == Got(sym, |w|)
    requires sym / 16 == |b| != 15 && sym % 16 == 0
    requires n == 1 + RunFetches(|b|) && run == Pow2(|b|) + BitsValue(b)
    ensures RefinesRun(sc, htbl, z, k, newnz, w + b, n, z, k, newnz, run)
  {
    forall t: seq<bit>, f: int
      ensures Refine(sc, htbl, z, k, newnz, (w + b) + t, Plus(f, n)) == EndBand(sc, z, k, newnz, run, t, f)
    {
      Reassociate(w, b, t);
      assert Plus(f, n) == Plus(Plus(f, RunFetches(|b|)), 1);
      RefineAhead(sc, htbl, z, k, newnz, w, sym, b + t, Plus(f, RunFetches(|b|)));
      RunAhead(sc, htbl, z, k, newnz, sym, b, t, f);
    }
  }

  // Forced to suspend before a symbol, or before the bits that go with it.
  lemma SymbolForced(sc: Scan, htbl: HuffTable, z: Block, k: nat, newnz: seq<nat>, t: seq<bit>)
    requires IsScan(sc) && Readable(htbl) && k <= sc.se && Positions(newnz)
    ensures Refine(sc, htbl, z, k, newnz, t, 0) == Suspended(Undo(z, newnz))
  {
  }

  lemma BitsForced(sc: Scan, htbl: HuffTable, z: Block, k: nat, newnz: seq<nat>, w: seq<bit>, sym: nat, t: seq<bit>)
    requires IsScan(sc) && Readable(htbl) && k <= sc.se && Positions(newnz) && Decode(htbl, w) == Got(sym, |w|)
    requires sym % 16 != 0 || 0 < sym / 16 != 15
    ensures Refine(sc, htbl, z, k, newnz, w + t, 1) == Suspended(Undo(z, newnz))
  {
    RefineAhead(sc, htbl, z, k, newnz, w, sym, t, 0);
  }

  lemma ZrlStep(sc: Scan, htbl: HuffTable, z: Block, k: nat, newnz: seq<nat>, from: Source, code: seq<bit>, i: nat, mid: Source,
                sym: nat, ok: bool, x: seq<bit>, n: nat, j: nat, to: Source, z': Block, k': nat, next: nat)
    requires IsScan(sc) && Readable(htbl) && k <= sc.se && Positions(newnz) && sym / 16 == 15 && sym % 16 == 0
    requires Took(from, code, i, mid) && Decode(htbl, code) == Got(sym, |code|)
    requires k' <= sc.se + 1 && next == (if ok then k' + 1 else k')
    requires AdvanceDone(sc, z, k, 15, mid, ok, x, n, j, to, z', k')
    ensures Refining(sc, htbl, z, k, newnz, from, ok, 0, code + x, n + 1, i + j, to, z', next, newnz)
  {
    if ok {
      TookMore(from, code, i, mid, x, j, to);
      ZrlRefines(sc, htbl, z, k, newnz, code, sym, x, n, z', k', next);
    } else {
      AllTaken(from, code, i, mid);
      ZrlForced(sc, htbl, z, k, newnz, code, sym, mid.rest, n, z');
    }
  }

  lemma NewPlaced(sc: Scan, htbl: HuffTable, z: Block, k: nat, newnz: seq<nat>, from: Source, code: seq<bit>, sign: seq<bit>,
                  i: nat, mid: Source, sym: nat, x: seq<bit>, n: nat, j: nat, to: Source, z': Block, k': nat,
                  placed: Block, pos: nat)
    requires IsScan(sc) && Readable(htbl) && k <= sc.se && Positions(newnz) && sym % 16 != 0 && |sign| == 1
    requires Took(from, code + sign, i, mid) && Decode(htbl, code) == Got(sym, |code|)
    requires k' <= sc.se + 1 && AdvanceDone(sc, z, k, sym / 16, mid, true, x, n, j, to, z', k')
    requires pos == Clamp(k') && placed == z'[pos := Signed(sign[0], sc.p)]
    ensures Refining(sc, htbl, z, k, newnz, from, true, 0, (code + sign) + x, n + 2, i + j, to, placed, k' + 1, newnz + [pos])
  {
    TookMore(from, code + sign, i, mid, x, j, to);
    NewRefines(sc, htbl, z, k, newnz, code, sym, sign, x, n, z', k', placed, k' + 1, pos);
  }

  lemma NewNotPlaced(sc: Scan, htbl: HuffTable, z: Block, k: nat, newnz: seq<nat>, from: Source, code: seq<bit>, sign: seq<bit>,
                     i: nat, mid: Source, sym: nat, w: seq<bit>, x: seq<bit>, n: nat, i': nat, j: nat, to: Source,
                     z': Block, k': nat)
    requires IsScan(sc) && Readable(htbl) && k <= sc.se && k' <= sc.se + 1 && Positions(newnz) && sym % 16 != 0 && |sign| == 1
    requires Took(from, code + sign, i, mid) && Decode(htbl, code) == Got(sym, |code|)
    requires AdvanceDone(sc, z, k, sym / 16, mid, false, x, n, i', to, z', k')
    ensures Refining(sc, htbl, z, k, newnz, from, false, 0, w, n + 2, j, to, z', k', newnz)
  {
    AllTaken(from, code + sign, i, mid);
    NewForced(sc, htbl, z, k, newnz, code, sym, sign, mid.rest, n, z');
  }

  lemma RunStep(sc: Scan, htbl: HuffTable, z: Block, k: nat, newnz: seq<nat>, from: Source, code: seq<bit>, i: nat, mid: Source,
                sym: nat, x: seq<bit>, n: nat, j: nat, to: Source, run: nat)
    requires IsScan(sc) && Readable(htbl) && k <= sc.se && Positions(newnz) && sym / 16 == |x| < 15 && sym % 16 == 0
    requires Took(from, code, i, mid) && Decode(htbl, code) == Got(sym, |code|) && Took(mid, x, j, to)
    requires n == 1 + RunFetches(|x|) && run == Pow2(|x|) + BitsValue(x)
    ensures run > 0
    ensures Refining(sc, htbl, z, k, newnz, from, true, run, code + x, n, i + j, to, z, k, newnz)
  {
    TookMore(from, code, i, mid, x, j, to);
    RunRefines(sc, htbl, z, k, newnz, code, sym, x, n, run);
  }

  lemma BitsMissing(sc: Scan, htbl: HuffTable, z: Block, k: nat, newnz: seq<nat>, from: Source, code: seq<bit>, i: nat,
                    mid: Source,
                    sym: nat, w: seq<bit>, j: nat, to: Source)
    requires IsScan(sc) && Readable(htbl) && k <= sc.se && Positions(newnz) && (sym % 16 != 0 || 0 < sym / 16 != 15)
    requires Took(from, code, i, mid) && Decode(htbl, code) == Got(sym, |code|) && !mid.here
    ensures Refining(sc, htbl, z, k, newnz, from, false, 0, w, 1, j, to, z, k, newnz)
  {
    AllTaken(from, code, i, mid);
    BitsForced(sc, htbl, z, k, newnz, code, sym, mid.rest);
  }
}
