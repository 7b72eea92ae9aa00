// Decoding what encode_mcu_AC_refine emits adds exactly one bit of precision to every coefficient.
module ACRefineRoundTrip {
  import opened Numerals
  import opened CanonicalCode
  import opened BitWriter
  import opened HuffmanDecode
  import opened TokenStream
  import opened ACScan
  import opened ACRefine

  // ---- One coefficient ----

  lemma HalfMag(c: int, p: nat)
    requires p > 0
    ensures Mag(c, 2 * p) == Mag(c, p) / 2
  {
    var a := Abs(c);
    var m := a / p;
    assert a == m * p + a % p;
    var h := m / 2;
    assert m * p == h * (2 * p) + (m % 2) * p by {
      assert m == 2 * h + m % 2;
      MulAssoc(h, 2, p);
    }
    var low := (m % 2) * p + a % p;
    assert low < 2 * p;
    DivModIs(a, h, 2 * p, low);
  }

  // A coefficient that was known to be nonzero needs one correction bit.
  lemma CorrectedBit(c: int, p: nat)
    requires p > 0 && Mag(c, p) > 1
    ensures Trunc(c, 2 * p) != 0
    ensures Correct(Trunc(c, 2 * p), Mag(c, p) % 2, p) == Trunc(c, p)
  {
    var m := Mag(c, p);
    var h := m / 2;
    HalfMag(c, p);
    assert Mag(c, 2 * p) * (2 * p) == (2 * h) * p by {
      MulAssoc(h, 2, p);
    }
    assert m * p == (2 * h) * p + (m % 2) * p;
    ScaleLe(1, 2 * h, p);
    EvenMultiple(h, p);
  }

  lemma EvenMultiple(h: int, p: nat)
    requires p > 0
    ensures ((2 * h) * p) / p % 2 == 0 && (-((2 * h) * p)) / p % 2 == 0
  {
    ExactQuotient(2 * h, p);
    ExactQuotient(-(2 * h), p);
  }

  lemma ExactQuotient(q: int, p: nat)
    requires p > 0
    ensures (q * p) / p == q
  {
    var k := (q * p) / p;
    if k < q {
      ScaleLe(k + 1, q, p);
    } else if q < k {
      ScaleLe(q + 1, k, p);
    }
  }

  // A coefficient not yet known to be nonzero.
  lemma StillZero(c: int, p: nat)
    requires p > 0 && Mag(c, p) <= 1
    ensures Trunc(c, 2 * p) == 0
    ensures Mag(c, p) == 0 ==> Trunc(c, p) == 0
    ensures Mag(c, p) == 1 ==> Trunc(c, p) == Signed(SignBit(c), p)
  {
    HalfMag(c, p);
  }

  // ---- A stretch of the band without newly nonzero coefficients ----

  function ZeroCount(a: Mags, i: nat, j: nat): nat
    requires j <= 64
    decreases j
  {
    if i >= j then 0 else ZeroCount(a, i, j - 1) + (if a[j - 1] == 0 then 1 else 0)
  }

  function CorrectionBits(a: Mags, i: nat, j: nat): seq<bit>
    requires j <= 64
    decreases j
  {
    if i >= j then [] else CorrectionBits(a, i, j - 1) + (if a[j - 1] > 1 then [a[j - 1] % 2] else [])
  }

  lemma {:induction false} StretchHead(a: Mags, i: nat, j: nat)
    requires i < j <= 64
    ensures ZeroCount(a, i, j) == (if a[i] == 0 then 1 else 0) + ZeroCount(a, i + 1, j)
    ensures CorrectionBits(a, i, j) == (if a[i] > 1 then [a[i] % 2] else []) + CorrectionBits(a, i + 1, j)
  {
    if i + 1 < j {
      StretchHead(a, i, j - 1);
    }
  }

  // z with the coefficients from i to j replaced by those of t.
  function Better(z: Block, t: Block, i: nat, j: nat): Block {
    seq(64, n requires 0 <= n < 64 => if i <= n < j then t[n] else z[n])
  }

  // One correction bit, or none, leads from z to t, for a coefficient of magnitude m.
  predicate OneBitLess(m: nat, z: int, t: int, p: nat)
    requires p > 0
  {
    && (m == 0 ==> z == 0 == t)
    && (m == 1 ==> z == 0)
    && (m > 1 ==> z != 0 && Correct(z, m % 2, p) == t)
  }

  predicate Known(sc: Scan, a: Mags, z: Block, t: Block, i: nat)
    requires IsScan(sc)
  {
    forall n :: i <= n <= sc.se ==> OneBitLess(a[n], z[n], t[n], sc.p)
  }

  predicate NoneNew(a: Mags, i: nat, j: nat)
    requires j <= 64
  {
    forall n :: i <= n < j ==> a[n] != 1
  }

  lemma AdvanceCorrected(sc: Scan, m: nat, z: Block, t: int, i: nat, r: nat, rest: seq<bit>)
    requires IsScan(sc) && i <= sc.se && m > 1 && OneBitLess(m, z[i], t, sc.p)
    ensures Advance(sc, z, i, r, [m % 2] + rest, NEVER) == Advance(sc, z[i := t], i + 1, r, rest, NEVER)
  {
    var s := [m % 2] + rest;
    assert s[0] == m % 2 && s[1..] == rest;
  }

  lemma AdvanceZero(sc: Scan, z: Block, i: nat, r: nat, s: seq<bit>)
    requires IsScan(sc) && i <= sc.se && z[i] == 0 && r > 0
    ensures Advance(sc, z, i, r, s, NEVER) == Advance(sc, z, i + 1, r - 1, s, NEVER)
  {
  }

  lemma BetterAt(z: Block, t: Block, i: nat, k: nat)
    requires i <= k < 64
    ensures Better(z, t, i, k)[k] == z[k]
    ensures Better(z, t, i, k)[k := t[k]] == Better(z, t, i, k + 1)
  {
  }

  lemma BetterStep(z: Block, t: Block, i: nat, j: nat)
    requires i < j <= 64
    ensures Better(z[i := t[i]], t, i + 1, j) == Better(z, t, i, j)
    ensures z[i] == t[i] ==> Better(z, t, i + 1, j) == Better(z, t, i, j)
  {
  }

  lemma {:induction false} AdvanceStretch(sc: Scan, a: Mags, z: Block, t: Block, i: nat, j: nat, r: nat, rest: seq<bit>)
    requires IsScan(sc) && i <= j <= sc.se + 1 && Known(sc, a, z, t, i) && NoneNew(a, i, j)
    requires ZeroCount(a, i, j) <= r
    ensures Advance(sc, z, i, r, CorrectionBits(a, i, j) + rest, NEVER) ==
      Advance(sc, Better(z, t, i, j), j, r - ZeroCount(a, i, j), rest, NEVER)
    decreases j - i
  {
    if i == j {
      assert Better(z, t, i, j) == z;
      assert CorrectionBits(a, i, j) + rest == rest;
    } else {
      StretchHead(a, i, j);
      BetterStep(z, t, i, j);
      assert OneBitLess(a[i], z[i], t[i], sc.p);
      if a[i] == 0 {
        StretchZero(sc, a, z, i, j, r, rest);
        AdvanceStretch(sc, a, z, t, i + 1, j, r - 1, rest);
      } else {
        StretchCorrected(sc, a, z, t, i, j, r, rest);
        AdvanceStretch(sc, a, z[i := t[i]], t, i + 1, j, r, rest);
      }
    }
  }

  lemma StretchZero(sc: Scan, a: Mags, z: Block, i: nat, j: nat, r: nat, rest: seq<bit>)
    requires IsScan(sc) && i < j <= sc.se + 1 && a[i] == 0 && z[i] == 0 && r > 0
    ensures Advance(sc, z, i, r, CorrectionBits(a, i, j) + rest, NEVER) ==
      Advance(sc, z, i + 1, r - 1, CorrectionBits(a, i + 1, j) + rest, NEVER)
  {
    StretchHead(a, i, j);
    NothingBefore(CorrectionBits(a, i + 1, j));
    AdvanceZero(sc, z, i, r, CorrectionBits(a, i, j) + rest);
  }

  lemma StretchCorrected(sc: Scan, a: Mags, z: Block, t: Block, i: nat, j: nat, r: nat, rest: seq<bit>)
    requires IsScan(sc) && i < j <= sc.se + 1 && a[i] > 1 && OneBitLess(a[i], z[i], t[i], sc.p)
    ensures Advance(sc, z, i, r, CorrectionBits(a, i, j) + rest, NEVER) ==
      Advance(sc, z[i := t[i]], i + 1, r, CorrectionBits(a, i + 1, j) + rest, NEVER)
  {
    StretchHead(a, i, j);
    Reassociate([a[i] % 2], CorrectionBits(a, i + 1, j), rest);
    AdvanceCorrected(sc, a[i], z, t[i], i, r, CorrectionBits(a, i + 1, j) + rest);
  }

  lemma BetterTwice(z: Block, t: Block, i: nat, j: nat, k: nat)
    requires i <= j <= k <= 64
    ensures Better(Better(z, t, i, j), t, j, k) == Better(z, t, i, k)
  {
  }

  // ---- The symbols of one block ----

  // The 16th zero of a stretch, after which there are only zeros.
  predicate FewBefore(a: Mags, i: nat, j: nat)
    requires j <= 64
  {
    forall n :: i <= n < j && a[n] > 1 ==> ZeroCount(a, i, n) <= 15
  }

  lemma {:induction false} SixteenthZero(a: Mags, i: nat, j: nat) returns (m: nat)
    requires i <= j <= 64 && NoneNew(a, i, j) && FewBefore(a, i, j) && ZeroCount(a, i, j) > 15
    ensures i <= m < j && a[m] == 0 && ZeroCount(a, i, m) == 15
    ensures CorrectionBits(a, i, m) == CorrectionBits(a, i, j)
    ensures ZeroCount(a, m + 1, j) == ZeroCount(a, i, j) - 16 && CorrectionBits(a, m + 1, j) == []
    ensures forall n :: m < n < j ==> a[n] == 0
    decreases j
  {
    var before := ZeroCount(a, i, j - 1);
    assert a[j - 1] > 1 ==> before <= 15;
    if ZeroCount(a, i, j) == 16 {
      m := j - 1;
    } else {
      assert before > 15 && a[j - 1] == 0;
      m := SixteenthZero(a, i, j - 1);
      forall n | m < n < j
        ensures a[n] == 0
      {
        assert n < j - 1 || n == j - 1;
      }
    }
  }

  // An end of band is due exactly when part of the band is not covered by symbols.
  lemma {:induction false} EmptyStretch(a: Mags, i: nat, j: nat)
    requires i <= j <= 64 && NoneNew(a, i, j)
    ensures i < j <==> ZeroCount(a, i, j) > 0 || CorrectionBits(a, i, j) != []
    decreases j
  {
    if i < j {
      EmptyStretch(a, i, j - 1);
    }
  }

  ghost predicate Setting(sc: Scan, codes: seq<Code>) {
    IsScan(sc) && sc.tab < |codes| && Sound(codes[sc.tab])
  }

  lemma SymbolAhead(sc: Scan, codes: seq<Code>, sym: nat, rest: seq<bit>) returns (d: Fetched)
    requires Setting(sc, codes) && HasCode(codes, Symbol(sc.tab, sym))
    ensures Readable(codes[sc.tab].htbl)
    ensures d == Decode(codes[sc.tab].htbl, TokenBits(codes, Symbol(sc.tab, sym)) + rest)
    ensures d.Got? && d.sym == sym && (TokenBits(codes, Symbol(sc.tab, sym)) + rest)[d.used..] == rest
  {
    assert Sound(codes[sc.tab]);
    SymbolReadBack(codes, Symbol(sc.tab, sym), rest);
    d := Decode(codes[sc.tab].htbl, TokenBits(codes, Symbol(sc.tab, sym)) + rest);
  }

  lemma RefineSymbol(sc: Scan, htbl: HuffTable, z: Block, k: nat, newnz: seq<nat>, s: seq<bit>, sym: nat, s': seq<bit>)
    requires IsScan(sc) && Readable(htbl) && k <= sc.se && Positions(newnz)
    requires Decode(htbl, s).Got? && Decode(htbl, s).sym == sym && s[Decode(htbl, s).used..] == s'
    ensures Refine(sc, htbl, z, k, newnz, s, NEVER) == AfterSymbol(sc, htbl, z, k, newnz, sym, s', NEVER)
  {
  }

  // ZRL: the decoder passes the 16th zero and the corrections before it.
  lemma ZrlDecodes(sc: Scan, codes: seq<Code>, a: Mags, z: Block, t: Block, i: nat, m: nat, newnz: seq<nat>, rest: seq<bit>)
    requires Setting(sc, codes) && HasCode(codes, Symbol(sc.tab, 0xF0)) && Positions(newnz)
    requires i <= m <= sc.se && Known(sc, a, z, t, i) && NoneNew(a, i, m) && a[m] == 0 && ZeroCount(a, i, m) == 15
    ensures Readable(codes[sc.tab].htbl)
    ensures Refine(sc, codes[sc.tab].htbl, z, i, newnz,
                   TokenBits(codes, Symbol(sc.tab, 0xF0)) + (CorrectionBits(a, i, m) + rest), NEVER) ==
      Refine(sc, codes[sc.tab].htbl, Better(z, t, i, m), m + 1, newnz, rest, NEVER)
  {
    var htbl, s := codes[sc.tab].htbl, CorrectionBits(a, i, m) + rest;
    var d := SymbolAhead(sc, codes, 0xF0, s);
    RefineSymbol(sc, htbl, z, i, newnz, TokenBits(codes, Symbol(sc.tab, 0xF0)) + s, 0xF0, s);
    RefineZrl(sc, htbl, a, z, t, i, m, newnz, rest);
  }

  lemma RefineZrl(sc: Scan, htbl: HuffTable, a: Mags, z: Block, t: Block, i: nat, m: nat, newnz: seq<nat>, rest: seq<bit>)
    requires IsScan(sc) && Readable(htbl) && Positions(newnz)
    requires i <= m <= sc.se && Known(sc, a, z, t, i) && NoneNew(a, i, m) && a[m] == 0 && ZeroCount(a, i, m) == 15
    ensures AfterSymbol(sc, htbl, z, i, newnz, 0xF0, CorrectionBits(a, i, m) + rest, NEVER) ==
      Refine(sc, htbl, Better(z, t, i, m), m + 1, newnz, rest, NEVER)
  {
    AdvanceStretch(sc, a, z, t, i, m, 15, rest);
    assert OneBitLess(a[m], z[m], t[m], sc.p);
    assert Better(z, t, i, m)[m] == 0;
    var s := CorrectionBits(a, i, m) + rest;
    assert AfterSymbol(sc, htbl, z, i, newnz, 0xF0, s, NEVER) == PassZeros(sc, htbl, z, i, newnz, s, NEVER);
  }

  // A newly nonzero coefficient: its sign, and the corrections before it.
  lemma NewDecodes(sc: Scan, codes: seq<Code>, a: Mags, z: Block, t: Block, i: nat, k: nat, newnz: seq<nat>, r: nat,
                   sign: bit, rest: seq<bit>)
    requires Setting(sc, codes) && Positions(newnz)
    requires i <= k <= sc.se && Known(sc, a, z, t, i) && NoneNew(a, i, k) && a[k] == 1
    requires ZeroCount(a, i, k) == r <= 15 && t[k] == Signed(sign, sc.p)
    requires HasCode(codes, Symbol(sc.tab, r * 16 + 1))
    ensures Readable(codes[sc.tab].htbl)
    ensures Refine(sc, codes[sc.tab].htbl, z, i, newnz,
                   TokenBits(codes, Symbol(sc.tab, r * 16 + 1)) + ([sign] + (CorrectionBits(a, i, k) + rest)), NEVER) ==
      Refine(sc, codes[sc.tab].htbl, Better(z, t, i, k + 1), k + 1, newnz + [k], rest, NEVER)
  {
    var later := CorrectionBits(a, i, k) + rest;
    var s := TokenBits(codes, Symbol(sc.tab, r * 16 + 1)) + ([sign] + later);
    var d := SymbolAhead(sc, codes, r * 16 + 1, [sign] + later);
    RefineSymbol(sc, codes[sc.tab].htbl, z, i, newnz, s, r * 16 + 1, [sign] + later);
    RefineNew(sc, codes[sc.tab].htbl, z, i, newnz, r, sign, later);
    NewCoefAt(sc, codes[sc.tab].htbl, a, z, t, i, k, newnz, r, rest);
  }

  lemma RefineNew(sc: Scan, htbl: HuffTable, z: Block, i: nat, newnz: seq<nat>, r: nat, sign: bit, later: seq<bit>)
    requires IsScan(sc) && Readable(htbl) && i <= sc.se && Positions(newnz) && r <= 15
    ensures AfterSymbol(sc, htbl, z, i, newnz, r * 16 + 1, [sign] + later, NEVER) ==
      NewCoef(sc, htbl, z, i, newnz, r, Signed(sign, sc.p), later, NEVER)
  {
    assert ([sign] + later)[1..] == later;
  }

  lemma NewCoefAt(sc: Scan, htbl: HuffTable, a: Mags, z: Block, t: Block, i: nat, k: nat, newnz: seq<nat>, r: nat, rest: seq<bit>)
    requires IsScan(sc) && Readable(htbl) && Positions(newnz)
    requires i <= k <= sc.se && Known(sc, a, z, t, i) && NoneNew(a, i, k) && a[k] == 1 && ZeroCount(a, i, k) == r
    ensures NewCoef(sc, htbl, z, i, newnz, r, t[k], CorrectionBits(a, i, k) + rest, NEVER) ==
      Refine(sc, htbl, Better(z, t, i, k + 1), k + 1, newnz + [k], rest, NEVER)
  {
    BetterAt(z, t, i, k);
    assert OneBitLess(a[k], z[k], t[k], sc.p);
    AdvanceStretch(sc, a, z, t, i, k, r, rest);
  }

  // Where the decoder stands when it has read the symbols of a block: before a stretch without newly
  // nonzero coefficients that only an end of band covers, or at the end.
  datatype Place = Place(z: Block, k: nat, newnz: seq<nat>)

  ghost predicate Reached(sc: Scan, a: Mags, coded: Coded, place: Place)
    requires IsScan(sc)
  {
    && place.k <= sc.se + 1 && Positions(place.newnz) && NoneNew(a, place.k, sc.se + 1)
    && coded.br == CorrectionBits(a, place.k, sc.se + 1)
    && (coded.pending <==> place.k <= sc.se)
  }

  ghost predicate NewSigns(sc: Scan, c: Block, a: Mags, t: Block)
    requires IsScan(sc)
  {
    forall n :: sc.ss <= n <= sc.se && a[n] == 1 ==> t[n] == Signed(SignBit(c[n]), sc.p)
  }

  // The encoder is at k; the decoder, at i, has yet to hear of the stretch between.
  ghost predicate InStep(sc: Scan, a: Mags, i: nat, k: nat, r: nat, br: seq<bit>)
    requires IsScan(sc)
  {
    && sc.ss <= i <= k <= sc.se + 1 && NoneNew(a, i, k)
    && r == ZeroCount(a, i, k) && br == CorrectionBits(a, i, k)
    && (OneAhead(sc, a, k) ==> FewBefore(a, i, k))
  }

  lemma {:induction false} BlockDecodes(sc: Scan, codes: seq<Code>, c: Block, a: Mags, z: Block, t: Block, i: nat,
                                        newnz: seq<nat>,
                     k: nat, r: nat, br: seq<bit>, rest: seq<bit>) returns (place: Place)
    requires Setting(sc, codes) && Positions(newnz) && InStep(sc, a, i, k, r, br)
    requires Known(sc, a, z, t, i) && NewSigns(sc, c, a, t)
    requires Emittable(codes, CodeFrom(sc, c, a, k, r, br).tokens)
    ensures Readable(codes[sc.tab].htbl) && Reached(sc, a, CodeFrom(sc, c, a, k, r, br), place)
    ensures i <= place.k && place.z == Better(z, t, i, place.k)
    ensures Refine(sc, codes[sc.tab].htbl, z, i, newnz, Flatten(codes, CodeFrom(sc, c, a, k, r, br).tokens) + rest, NEVER) ==
      Refine(sc, codes[sc.tab].htbl, place.z, place.k, place.newnz, rest, NEVER)
    decreases sc.se + 1 - k, r
  {
    if k > sc.se {
      place := EndCase(sc, codes, c, a, z, t, i, newnz, k, r, br, rest);
    } else if a[k] == 0 {
      assert InStep(sc, a, i, k + 1, r + 1, br) by {
        assert br == CorrectionBits(a, i, k + 1);
      }
      place := BlockDecodes(sc, codes, c, a, z, t, i, newnz, k + 1, r + 1, br, rest);
    } else if r > 15 && OneAhead(sc, a, k) {
      place := ZrlCase(sc, codes, c, a, z, t, i, newnz, k, r, br, rest);
    } else if a[k] > 1 {
      assert InStep(sc, a, i, k + 1, r, br + [a[k] % 2]);
      place := BlockDecodes(sc, codes, c, a, z, t, i, newnz, k + 1, r, br + [a[k] % 2], rest);
    } else {
      place := NewCase(sc, codes, c, a, z, t, i, newnz, k, r, br, rest);
    }
  }

  lemma EndCase(sc: Scan, codes: seq<Code>, c: Block, a: Mags, z: Block, t: Block, i: nat, newnz: seq<nat>,
                k: nat, r: nat, br: seq<bit>, rest: seq<bit>) returns (place: Place)
    requires Setting(sc, codes) && Positions(newnz) && InStep(sc, a, i, k, r, br) && k == sc.se + 1
    ensures Reached(sc, a, CodeFrom(sc, c, a, k, r, br), place) && place == Place(Better(z, t, i, i), i, newnz)
    ensures Readable(codes[sc.tab].htbl)
    ensures CodeFrom(sc, c, a, k, r, br).tokens == [] && Flatten(codes, []) + rest == rest && place.z == z
  {
    assert Sound(codes[sc.tab]);
    EmptyStretch(a, i, k);
    assert Better(z, t, i, i) == z;
    place := Place(z, i, newnz);
  }

  lemma {:induction false} ZrlCase(sc: Scan, codes: seq<Code>, c: Block, a: Mags, z: Block, t: Block, i: nat, newnz: seq<nat>,
                     k: nat, r: nat, br: seq<bit>, rest: seq<bit>) returns (place: Place)
    requires Setting(sc, codes) && Positions(newnz) && InStep(sc, a, i, k, r, br)
    requires Known(sc, a, z, t, i) && NewSigns(sc, c, a, t)
    requires Emittable(codes, CodeFrom(sc, c, a, k, r, br).tokens)
    requires k <= sc.se && a[k] != 0 && r > 15 && OneAhead(sc, a, k)
    ensures Readable(codes[sc.tab].htbl) && Reached(sc, a, CodeFrom(sc, c, a, k, r, br), place)
    ensures i <= place.k && place.z == Better(z, t, i, place.k)
    ensures Refine(sc, codes[sc.tab].htbl, z, i, newnz, Flatten(codes, CodeFrom(sc, c, a, k, r, br).tokens) + rest, NEVER) ==
      Refine(sc, codes[sc.tab].htbl, place.z, place.k, place.newnz, rest, NEVER)
    decreases sc.se + 1 - k, r, 0
  {
    var m := ZrlPlace(sc, a, i, k, r, br);
    var later := CodeFrom(sc, c, a, k, r - 16, []);
    ZrlTokens(sc, c, a, k, r, br);
    HeadTwo(codes, Symbol(sc.tab, 0xF0), br, later.tokens, rest);
    ZrlDecodes(sc, codes, a, z, t, i, m, newnz, Flatten(codes, later.tokens) + rest);
    place := BlockDecodes(sc, codes, c, a, Better(z, t, i, m), t, m + 1, newnz, k, r - 16, [], rest);
    MergePlaces(sc, a, z, t, i, m, place.k);
  }

  lemma ZrlPlace(sc: Scan, a: Mags, i: nat, k: nat, r: nat, br: seq<bit>) returns (m: nat)
    requires IsScan(sc) && InStep(sc, a, i, k, r, br) && k <= sc.se && r > 15 && OneAhead(sc, a, k)
    ensures i <= m < k && NoneNew(a, i, m) && a[m] == 0 && ZeroCount(a, i, m) == 15
    ensures br == CorrectionBits(a, i, m) && InStep(sc, a, m + 1, k, r - 16, [])
  {
    m := SixteenthZero(a, i, k);
  }

  lemma ZrlTokens(sc: Scan, c: Block, a: Mags, k: nat, r: nat, br: seq<bit>)
    requires IsScan(sc) && k <= sc.se && a[k] != 0 && r > 15 && OneAhead(sc, a, k)
    ensures CodeFrom(sc, c, a, k, r, br) == Before([Symbol(sc.tab, 0xF0), Raw(br)], CodeFrom(sc, c, a, k, r - 16, []))
  {
  }

  // z' lags by the zero at m, which stays zero.
  lemma MergePlaces(sc: Scan, a: Mags, z: Block, t: Block, i: nat, m: nat, k: nat)
    requires IsScan(sc) && i <= m < k <= 64 && m <= sc.se && Known(sc, a, z, t, i) && a[m] == 0
    ensures Better(Better(z, t, i, m), t, m + 1, k) == Better(z, t, i, k)
  {
    assert OneBitLess(a[m], z[m], t[m], sc.p);
  }

  // A symbol with raw bits after it, as a part of the bits that the decoder sees.
  lemma HeadTwo(codes: seq<Code>, t: Token, br: seq<bit>, later: seq<Token>, rest: seq<bit>)
    requires Emittable(codes, [t, Raw(br)] + later)
    ensures HasCode(codes, t) && Emittable(codes, later)
    ensures Flatten(codes, [t, Raw(br)] + later) + rest == TokenBits(codes, t) + (br + (Flatten(codes, later) + rest))
  {
    var all := [t, Raw(br)] + later;
    assert all[0] == t && all[1..] == [Raw(br)] + later && all[1..][0] == Raw(br) && all[1..][1..] == later;
    EmittableParts(codes, [t, Raw(br)], later);
    assert HasCode(codes, all[0]);
    var tail := Flatten(codes, later);
    assert Flatten(codes, all[1..]) == br + tail;
    Regroup(TokenBits(codes, t), br, tail, rest);
  }

  lemma HeadThree(codes: seq<Code>, t: Token, b: seq<bit>, br: seq<bit>, later: seq<Token>, rest: seq<bit>)
    requires Emittable(codes, [t, Raw(b), Raw(br)] + later)
    ensures HasCode(codes, t) && Emittable(codes, later)
    ensures Flatten(codes, [t, Raw(b), Raw(br)] + later) + rest ==
      TokenBits(codes, t) + (b + (br + (Flatten(codes, later) + rest)))
  {
    var all := [t, Raw(b), Raw(br)] + later;
    assert all == [t, Raw(b)] + ([Raw(br)] + later);
    HeadTwo(codes, t, b, [Raw(br)] + later, rest);
    EmittableParts(codes, [Raw(br)], later);
    FlattenRaw(codes, br);
    Reassociate(br, Flatten(codes, later), rest);
  }

  lemma {:induction false} NewCase(sc: Scan, codes: seq<Code>, c: Block, a: Mags, z: Block, t: Block, i: nat, newnz: seq<nat>,
                     k: nat, r: nat, br: seq<bit>, rest: seq<bit>) returns (place: Place)
    requires Setting(sc, codes) && Positions(newnz) && InStep(sc, a, i, k, r, br)
    requires Known(sc, a, z, t, i) && NewSigns(sc, c, a, t)
    requires Emittable(codes, CodeFrom(sc, c, a, k, r, br).tokens)
    requires k <= sc.se && a[k] == 1 && r <= 15
    ensures Readable(codes[sc.tab].htbl) && Reached(sc, a, CodeFrom(sc, c, a, k, r, br), place)
    ensures i <= place.k && place.z == Better(z, t, i, place.k)
    ensures Refine(sc, codes[sc.tab].htbl, z, i, newnz, Flatten(codes, CodeFrom(sc, c, a, k, r, br).tokens) + rest, NEVER) ==
      Refine(sc, codes[sc.tab].htbl, place.z, place.k, place.newnz, rest, NEVER)
    decreases sc.se + 1 - k, r, 0
  {
    var sym, sign := Symbol(sc.tab, r * 16 + 1), SignBit(c[k]);
    var z' := Better(z, t, i, k + 1);
    var later := CodeFrom(sc, c, a, k + 1, 0, []);
    HeadThree(codes, sym, [sign], br, later.tokens, rest);
    NewDecodes(sc, codes, a, z, t, i, k, newnz, r, sign, Flatten(codes, later.tokens) + rest);
    assert InStep(sc, a, k + 1, k + 1, 0, []);
    place := BlockDecodes(sc, codes, c, a, z', t, k + 1, newnz + [k], k + 1, 0, [], rest);
    BetterTwice(z, t, i, k + 1, place.k);
  }

  // A block without symbols has nothing new.
  lemma {:induction false} NoSymbols(sc: Scan, c: Block, a: Mags, i: nat, k: nat, r: nat, br: seq<bit>)
    requires IsScan(sc) && i <= k <= sc.se + 1 && NoneNew(a, i, k)
    requires r == ZeroCount(a, i, k) && br == CorrectionBits(a, i, k)
    requires CodeFrom(sc, c, a, k, r, br).tokens == []
    ensures NoneNew(a, i, sc.se + 1) && CodeFrom(sc, c, a, k, r, br).br == CorrectionBits(a, i, sc.se + 1)
    ensures CodeFrom(sc, c, a, k, r, br).pending <==> i <= sc.se
    decreases sc.se + 1 - k
  {
    if k > sc.se {
      EmptyStretch(a, i, k);
    } else if a[k] == 0 {
      assert br == CorrectionBits(a, i, k + 1);
      NoSymbols(sc, c, a, i, k + 1, r + 1, br);
    } else {
      StartsWithSymbol(sc, c, a, k, r, br);
      NoSymbols(sc, c, a, i, k + 1, r, br + [a[k] % 2]);
    }
  }

  lemma StartsWithSymbol(sc: Scan, c: Block, a: Mags, k: nat, r: nat, br: seq<bit>)
    requires IsScan(sc) && k <= sc.se && a[k] != 0
    ensures a[k] == 1 || (r > 15 && OneAhead(sc, a, k)) ==> CodeFrom(sc, c, a, k, r, br).tokens != []
  {
  }

  // ---- The end of a band ----

  lemma {:induction false} StretchBounds(a: Mags, i: nat, j: nat)
    requires i <= j <= 64
    ensures ZeroCount(a, i, j) + |CorrectionBits(a, i, j)| <= j - i
    decreases j
  {
    if i < j {
      StretchBounds(a, i, j - 1);
    }
  }

  lemma EndBandDecodes(sc: Scan, a: Mags, z: Block, t: Block, k: nat, newnz: seq<nat>, eobrun: nat, rest: seq<bit>)
    requires IsScan(sc) && k <= sc.se + 1 && Positions(newnz) && eobrun > 0
    requires Known(sc, a, z, t, k) && NoneNew(a, k, sc.se + 1)
    ensures EndBand(sc, z, k, newnz, eobrun, CorrectionBits(a, k, sc.se + 1) + rest, NEVER) ==
      Done(Better(z, t, k, sc.se + 1), rest, eobrun - 1)
  {
    StretchBounds(a, k, sc.se + 1);
    AdvanceStretch(sc, a, z, t, k, sc.se + 1, 64, rest);
  }

  lemma RunValue(e: nat)
    requires e > 0
    ensures Pow2(Log2(e)) + BitsValue(LowBits(e, Log2(e))) == e
  {
    Log2Bounds(e);
    var p := Pow2(Log2(e));
    DivModIs(e, 1, p, e - p);
    ToBitsValue(e % p, Log2(e));
  }

  function EobBits(codes: seq<Code>, tab: nat, e: nat, b: seq<bit>): seq<bit>
    requires e > 0 ==> HasCode(codes, Symbol(tab, Log2(e) * 16))
  {
    if e == 0 then [] else TokenBits(codes, Symbol(tab, Log2(e) * 16)) + (LowBits(e, Log2(e)) + b)
  }

  lemma EobFlatten(codes: seq<Code>, tab: nat, e: nat, b: seq<bit>)
    requires Emittable(codes, EobTokens(tab, e, b))
    ensures e > 0 ==> HasCode(codes, Symbol(tab, Log2(e) * 16))
    ensures Flatten(codes, EobTokens(tab, e, b)) == EobBits(codes, tab, e, b)
  {
    if e > 0 {
      var sym, low := Symbol(tab, Log2(e) * 16), LowBits(e, Log2(e));
      var ts := EobTokens(tab, e, b);
      assert ts == [sym, Raw(low), Raw(b)] + [];
      HeadThree(codes, sym, low, b, [], []);
      NothingAfter(b);
      NothingAfter(Flatten(codes, ts));
    }
  }

  // The decoder at k meets the symbol of a run that starts with this block.
  lemma EobDecodes(sc: Scan, codes: seq<Code>, a: Mags, z: Block, t: Block, k: nat, newnz: seq<nat>, e: nat, rest: seq<bit>)
    requires Setting(sc, codes) && Positions(newnz) && 0 < e <= 0x7FFF && HasCode(codes, Symbol(sc.tab, Log2(e) * 16))
    requires k <= sc.se && Known(sc, a, z, t, k) && NoneNew(a, k, sc.se + 1)
    ensures Readable(codes[sc.tab].htbl)
    ensures Refine(sc, codes[sc.tab].htbl, z, k, newnz,
                   EobBits(codes, sc.tab, e, CorrectionBits(a, k, sc.se + 1) + rest), NEVER) ==
      Done(Better(z, t, k, sc.se + 1), rest, e - 1)
  {
    var later := CorrectionBits(a, k, sc.se + 1) + rest;
    var low := LowBits(e, Log2(e));
    var d := SymbolAhead(sc, codes, Log2(e) * 16, low + later);
    RefineSymbol(sc, codes[sc.tab].htbl, z, k, newnz, EobBits(codes, sc.tab, e, later), Log2(e) * 16, low + later);
    RunDecodes(sc, codes[sc.tab].htbl, z, k, newnz, e, later);
    EndBandDecodes(sc, a, z, t, k, newnz, e, rest);
  }

  lemma RunDecodes(sc: Scan, htbl: HuffTable, z: Block, k: nat, newnz: seq<nat>, e: nat, later: seq<bit>)
    requires IsScan(sc) && Readable(htbl) && k <= sc.se && Positions(newnz) && 0 < e <= 0x7FFF
    ensures AfterSymbol(sc, htbl, z, k, newnz, Log2(e) * 16, LowBits(e, Log2(e)) + later, NEVER) ==
      EndBand(sc, z, k, newnz, e, later, NEVER)
  {
    RunCategory(e);
    RunValue(e);
    RefineEob(sc, htbl, z, k, newnz, Log2(e), LowBits(e, Log2(e)), later);
  }

  lemma RefineEob(sc: Scan, htbl: HuffTable, z: Block, k: nat, newnz: seq<nat>, r: nat, low: seq<bit>, later: seq<bit>)
    requires IsScan(sc) && Readable(htbl) && k <= sc.se && Positions(newnz) && r <= 14 && |low| == r
    ensures AfterSymbol(sc, htbl, z, k, newnz, r * 16, low + later, NEVER) ==
      EndBand(sc, z, k, newnz, Pow2(r) + BitsValue(low), later, NEVER)
  {
    DivModIs(r * 16, r, 16, 0);
    assert (low + later)[..r] == low && (low + later)[r..] == later;
  }
}
