// Progressive AC refinement (G.1.2.3 of ITU-T T.81): what encode_mcu_AC_refine emits and what
// decode_mcu_AC_refine makes of any bits, as functions.
module ACRefine {
  import opened Numerals
  import opened CanonicalCode
  import opened HuffmanDecode
  import opened TokenStream
  import opened ACScan

  // ---- The encoder ----

  // The transformed coefficients' absolute values, from the pre-pass, and the signs.
  type Mags = a: seq<nat> | |a| == 64 witness seq(64, _ => 0)

  function AbsValues(c: Block, p: nat): Mags
    requires p > 0
  {
    seq(64, n requires 0 <= n < 64 => Mag(c[n], p))
  }

  // A newly nonzero coefficient is still to come: k <= EOB.
  predicate OneAhead(sc: Scan, a: Mags, k: nat)
    requires IsScan(sc)
  {
    exists j :: k <= j <= sc.se && a[j] == 1
  }

  // Coding from position k on, r zeros and the correction bits br after the last symbol.
  function CodeFrom(sc: Scan, c: Block, a: Mags, k: nat, r: nat, br: seq<bit>): Coded
    requires IsScan(sc) && k <= sc.se + 1
    decreases sc.se + 1 - k, r
  {
    if k > sc.se then Coded([], r > 0 || br != [], br)
    else if a[k] == 0 then CodeFrom(sc, c, a, k + 1, r + 1, br)
    else if r > 15 && OneAhead(sc, a, k) then
      Before([Symbol(sc.tab, 0xF0), Raw(br)], CodeFrom(sc, c, a, k, r - 16, []))
    else if a[k] > 1 then CodeFrom(sc, c, a, k + 1, r, br + [a[k] % 2])
    else
      Before([Symbol(sc.tab, r * 16 + 1), Raw([SignBit(c[k])]), Raw(br)],
             CodeFrom(sc, c, a, k + 1, 0, []))
  }

  function CodeRefine(sc: Scan, c: Block): Coded
    requires IsScan(sc)
  {
    CodeFrom(sc, c, AbsValues(c, sc.p), sc.ss, 0, [])
  }

  // ---- The decoder ----

  // A correction bit that is 1 increases the magnitude, unless that was done already.
  function Correct(c: int, b: bit, p: nat): int
    requires p > 0
  {
    if b == 1 && (c / p) % 2 == 0 then (if c >= 0 then c + p else c - p) else c
  }

  datatype Advanced = Stopped(z: Block, k: nat, s: seq<bit>, f: int) | Forced(z: Block)

  // Over nonzero coefficients and r zeros, to the next zero or the end of the band.
  function Advance(sc: Scan, z: Block, k: nat, r: nat, s: seq<bit>, f: int): (a: Advanced)
    requires IsScan(sc) && k <= sc.se + 1
    ensures a.Stopped? ==> k <= a.k <= sc.se + 1
    decreases sc.se + 1 - k
  {
    if k > sc.se then Stopped(z, k, s, f)
    else if z[k] != 0 then
      if Fails(f, s, 1) then Forced(z)
      else Advance(sc, z[k := Correct(z[k], s[0], sc.p)], k + 1, r, s[1..], Next(f))
    else if r == 0 then Stopped(z, k, s, f)
    else Advance(sc, z, k + 1, r - 1, s, f)
  }

  predicate Positions(newnz: seq<nat>) {
    forall i :: 0 <= i < |newnz| ==> newnz[i] < 64
  }

  // undoit: newly nonzero coefficients become zero again.
  function Undo(z: Block, newnz: seq<nat>): Block
    requires Positions(newnz)
    decreases |newnz|
  {
    if newnz == [] then z else Undo(z[newnz[|newnz| - 1] := 0], newnz[..|newnz| - 1])
  }

  // The end-of-band logic: there are fewer than 64 zeros left to pass.
  function EndBand(sc: Scan, z: Block, k: nat, newnz: seq<nat>, eobrun: nat, s: seq<bit>, f: int): Outcome
    requires IsScan(sc) && k <= sc.se + 1 && Positions(newnz) && eobrun > 0
  {
    match Advance(sc, z, k, 64, s, f)
    case Forced(z') => Suspended(Undo(z', newnz))
    case Stopped(z', _, s', _) => Done(z', s', eobrun - 1)
  }

  // The symbol loop, from position k on.
  function Refine(sc: Scan, htbl: HuffTable, z: Block, k: nat, newnz: seq<nat>, s: seq<bit>, f: int): Outcome
    requires IsScan(sc) && Readable(htbl) && k <= sc.se + 2 && Positions(newnz)
    decreases sc.se + 2 - k, 2
  {
    if k > sc.se then Done(z, s, 0)
    else if f == 0 || Decode(htbl, s).Short? then Suspended(Undo(z, newnz))
    else AfterSymbol(sc, htbl, z, k, newnz, Decode(htbl, s).sym, s[Decode(htbl, s).used..], Next(f))
  }

  function AfterSymbol(sc: Scan, htbl: HuffTable, z: Block, k: nat, newnz: seq<nat>, sym: nat, s: seq<bit>, f: int): Outcome
    requires IsScan(sc) && Readable(htbl) && k <= sc.se && Positions(newnz)
    decreases sc.se + 2 - k, 1
  {
    var r := sym / 16;
    if sym % 16 != 0 then
      if Fails(f, s, 1) then Suspended(Undo(z, newnz))
      else NewCoef(sc, htbl, z, k, newnz, r, Signed(s[0], sc.p), s[1..], Next(f))
    else if r == 15 then PassZeros(sc, htbl, z, k, newnz, s, f)
    else if r > 0 && Fails(f, s, r) then Suspended(Undo(z, newnz))
    else EndBand(sc, z, k, newnz, Pow2(r) + BitsValue(s[..r]), s[r..], if r > 0 then Next(f) else f)
  }

  // ZRL: fifteen zeros and the one at which it ends.
  function PassZeros(sc: Scan, htbl: HuffTable, z: Block, k: nat, newnz: seq<nat>, s: seq<bit>, f: int): Outcome
    requires IsScan(sc) && Readable(htbl) && k <= sc.se && Positions(newnz)
    decreases sc.se + 2 - k, 0
  {
    match Advance(sc, z, k, 15, s, f)
    case Forced(z') => Suspended(Undo(z', newnz))
    case Stopped(z', k', s', f') => Refine(sc, htbl, z', k' + 1, newnz, s', f')
  }

  function NewCoef(sc: Scan, htbl: HuffTable, z: Block, k: nat, newnz: seq<nat>, r: nat, v: int, s: seq<bit>, f: int)
    : Outcome
    requires IsScan(sc) && Readable(htbl) && k <= sc.se && Positions(newnz)
    decreases sc.se + 2 - k, 0
  {
    match Advance(sc, z, k, r, s, f)
    case Forced(z') => Suspended(Undo(z', newnz))
    case Stopped(z', k', s', f') =>
      Refine(sc, htbl, z'[Clamp(k') := v], k' + 1, newnz + [Clamp(k')], s', f')
  }

  // The size of a new coefficient should be 1; any other one is taken for 1.
  lemma SizeIgnored(sc: Scan, htbl: HuffTable, z: Block, k: nat, newnz: seq<nat>, sym: nat, s: seq<bit>, f: int)
    requires IsScan(sc) && Readable(htbl) && k <= sc.se && Positions(newnz) && sym % 16 != 0
    ensures AfterSymbol(sc, htbl, z, k, newnz, sym, s, f) == AfterSymbol(sc, htbl, z, k, newnz, sym / 16 * 16 + 1, s, f)
  {
  }

  // decode_mcu_AC_refine.
  function RefineMcu(sc: Scan, htbl: HuffTable, z: Block, eobrun: nat, s: seq<bit>, f: int): Outcome
    requires IsScan(sc) && Readable(htbl)
  {
    if eobrun == 0 then Refine(sc, htbl, z, sc.ss, [], s, f)
    else EndBand(sc, z, sc.ss, [], eobrun, s, f)
  }
}
