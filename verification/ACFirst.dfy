// The first AC scan of a band (G.1.2.2 of ITU-T T.81): encode_mcu_AC_first and decode_mcu_AC_first.
module ACFirst {
  import opened Numerals
  import opened CanonicalCode
  import opened HuffmanDecode
  import opened ACScan
  import opened RunLength

  // The coefficients after the point transform.
  function Shifted(c: Block, p: nat): Block
    requires p > 0
  {
    seq(64, n requires 0 <= n < 64 => ShiftedCoef(c[n], p))
  }

  function ShiftedCoef(c: int, p: nat): int
    requires p > 0
  {
    if c < 0 then -(Mag(c, p) as int) else Mag(c, p)
  }

  function CodeFirst(sc: Scan, c: Block): Coded
    requires IsScan(sc)
  {
    CodeRuns(sc.tab, Shifted(c, sc.p), sc.ss, sc.se, 0)
  }

  function FirstMcu(sc: Scan, htbl: HuffTable, z: Block, eobrun: nat, s: seq<bit>): Outcome
    requires IsScan(sc) && Readable(htbl)
  {
    if eobrun > 0 then Done(z, s, eobrun - 1)
    else
      match ReadRuns(htbl, z, sc.ss, sc.se, sc.se, sc.p, s)
      case Starved(z') => Suspended(z')
      case AtEnd(z', s') => Done(z', s', 0)
      case AtEob(z', r, s') =>
        if r == 0 then Done(z', s', 0)
        else if |s'| < r then Suspended(z')
        else Done(z', s'[r..], Pow2(r) + BitsValue(s'[..r]) - 1)
  }

  // ---- The round trip of one block ----

  predicate Untouched(sc: Scan, z: Block)
    requires IsScan(sc)
  {
    forall n :: sc.ss <= n <= sc.se ==> z[n] == 0
  }

  predicate Representable(sc: Scan, c: Block)
    requires IsScan(sc)
  {
    forall n :: sc.ss <= n <= sc.se ==> NumBits(ShiftedCoef(c[n], sc.p)) <= MAX_COEF_BITS
  }

  // The coder fails on a value of more than 10 bits.
  lemma RepresentableIs(sc: Scan, c: Block)
    requires IsScan(sc)
    ensures Representable(sc, c) <==> forall n :: sc.ss <= n <= sc.se ==> Mag(c[n], sc.p) < 1024
  {
    var k := 10;
    assert Pow2(k) == 1024 by {
      Pow2Small();
    }
    forall n | sc.ss <= n <= sc.se
      ensures NumBits(ShiftedCoef(c[n], sc.p)) <= MAX_COEF_BITS <==> Mag(c[n], sc.p) < 1024
    {
      NumBitsIs(ShiftedCoef(c[n], sc.p), k);
    }
  }

  function Truncs(c: Block, p: nat): Block
    requires p > 0
  {
    seq(64, n requires 0 <= n < 64 => Trunc(c[n], p))
  }

  lemma TruncsScaled(sc: Scan, c: Block)
    requires IsScan(sc)
    ensures Scaled(Shifted(c, sc.p), Truncs(c, sc.p), sc.p, sc.ss, sc.se)
  {
    forall n | 0 <= n < 64
      ensures Trunc(c[n], sc.p) == ShiftedCoef(c[n], sc.p) * sc.p
    {
      NegatedProduct(Mag(c[n], sc.p), sc.p);
    }
  }

  // What is kept of a coefficient is the multiple of 1 << Al next to it on the side of zero.
  lemma TruncIs(c: int, p: nat)
    requires p > 0
    ensures Abs(Trunc(c, p)) <= Abs(c) < Abs(Trunc(c, p)) + p
    ensures Trunc(c, p) % p == 0 && (c >= 0 ==> Trunc(c, p) >= 0) && (c <= 0 ==> Trunc(c, p) <= 0)
  {
    var m := Mag(c, p);
    assert Abs(c) == m * p + Abs(c) % p;
    NegatedProduct(m, p);
    ScaleLe(0, m, p);
    DivModIs(m * p, m, p, 0);
    DivModIs(-m * p, -m, p, 0);
  }

  lemma NegatedProduct(m: int, p: int)
    ensures (-m) * p == -(m * p)
  {
  }

  // A first scan of z: the band of c as far as it is known, and the rest as before.
  function FirstTarget(sc: Scan, c: Block, z: Block): Block
    requires IsScan(sc)
  {
    seq(64, n requires 0 <= n < 64 => if sc.ss <= n <= sc.se then Trunc(c[n], sc.p) else z[n])
  }

  lemma FilledIsTarget(sc: Scan, c: Block, z: Block, z': Block)
    requires IsScan(sc) && Untouched(sc, z)
    requires FilledIn(z, z', Shifted(c, sc.p), Truncs(c, sc.p), sc.ss, sc.se, sc.se)
    ensures z' == FirstTarget(sc, c, z)
  {
    TruncsScaled(sc, c);
  }

  lemma {:induction false} NoValues(tab: nat, v: Block, k: nat, se: nat, r: nat)
    requires k <= se + 1 <= 64 && CodeRuns(tab, v, k, se, r).tokens == []
    ensures forall n :: k <= n <= se ==> v[n] == 0
    ensures CodeRuns(tab, v, k, se, r).pending <==> r > 0 || k <= se
    ensures CodeRuns(tab, v, k, se, r).br == []
    decreases se + 1 - k
  {
    if k <= se {
      if v[k] == 0 {
        NoValues(tab, v, k + 1, se, r + 1);
      } else if r > 15 {
        CodeZrl(tab, v, k, se, r);
      } else {
        CodeValue(tab, v, k, se, r);
      }
    }
  }

  lemma {:induction false} NoCorrections(tab: nat, v: Block, k: nat, se: nat, r: nat)
    requires k <= se + 1 <= 64
    ensures CodeRuns(tab, v, k, se, r).br == []
    decreases se + 1 - k, r
  {
    if k <= se {
      if v[k] == 0 {
        NoCorrections(tab, v, k + 1, se, r + 1);
      } else if r > 15 {
        NoCorrections(tab, v, k, se, r - 16);
      } else {
        NoCorrections(tab, v, k + 1, se, 0);
      }
    }
  }
}
