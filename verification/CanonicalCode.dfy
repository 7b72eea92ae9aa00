// The canonical Huffman code that a list of length counts stands for (Annex C of ITU-T T.81).
module CanonicalCode {
  import opened Numerals

  // JHUFF_TBL: the number of codes of each length, and the symbols in order of increasing length.
  datatype HuffTable = HuffTable(bits: seq<nat>, huffval: seq<nat>)

  // What the C type guarantees of a table: 17 and 256 bytes.
  predicate IsTable(htbl: HuffTable) {
    && |htbl.bits| == 17 && |htbl.huffval| == 256
    && (forall d :: 0 <= d < 17 ==> htbl.bits[d] <= 255)
    && (forall i :: 0 <= i < 256 ==> htbl.huffval[i] <= 255)
  }

  // bits[l] is the number of codes of length l; bits[0] is not used.  Codes(bits, l) is one more
  // than the last code of length l: the number of l-bit strings below all longer codes.
  function Codes(bits: seq<nat>, l: nat): nat
    requires l < |bits|
  {
    if l == 0 then 0 else 2 * Codes(bits, l - 1) + bits[l]
  }

  // The number of codes shorter than l.
  function Offset(bits: seq<nat>, l: nat): nat
    requires l <= |bits|
  {
    if l <= 1 then 0 else Offset(bits, l - 1) + bits[l - 1]
  }

  function NumCodes(bits: seq<nat>): nat {
    Offset(bits, |bits|)
  }

  // A table that leaves at least the all-ones string of the greatest length unused.
  predicate Legal(bits: seq<nat>) {
    |bits| == 17 && NumCodes(bits) <= 256 && Codes(bits, 16) < Pow2(16)
  }

  lemma {:induction false} CodesUpdate(bits: seq<nat>, d: nat, v: nat, l: nat)
    requires 1 <= d < |bits| && l < |bits|
    ensures Codes(bits[d := v], l) ==
      Codes(bits, l) + (if d <= l then (v - bits[d]) * Pow2(l - d) else 0)
  {
    if l > 0 {
      CodesUpdate(bits, d, v, l - 1);
      if d < l {
        MulAssoc(2, v - bits[d], Pow2(l - 1 - d));
      }
    }
  }

  lemma {:induction false} CodesGrow(bits: seq<nat>, k: nat, l: nat)
    requires k <= l < |bits|
    ensures Codes(bits, l) >= Codes(bits, k) * Pow2(l - k)
  {
    if k < l {
      CodesGrow(bits, k, l - 1);
      MulAssoc(2, Codes(bits, k), Pow2(l - 1 - k));
    }
  }

  lemma {:induction false} CodesEmptyAbove(bits: seq<nat>, k: nat, l: nat)
    requires k <= l < |bits| && forall d :: k < d <= l ==> bits[d] == 0
    ensures Codes(bits, l) == Codes(bits, k) * Pow2(l - k)
  {
    if k < l {
      CodesEmptyAbove(bits, k, l - 1);
      MulAssoc(2, Codes(bits, k), Pow2(l - 1 - k));
    }
  }

  lemma {:induction false} CodesEmptyBelow(bits: seq<nat>, l: nat)
    requires l < |bits| && forall d :: 1 <= d <= l ==> bits[d] == 0
    ensures Codes(bits, l) == 0
  {
    if l > 0 {
      CodesEmptyBelow(bits, l - 1);
    }
  }

  // At every length, the codes so far leave room for one more.
  lemma LegalRoom(bits: seq<nat>, l: nat)
    requires |bits| == 17 && Codes(bits, 16) < Pow2(16) && l <= 16
    ensures Codes(bits, l) < Pow2(l)
  {
    CodesGrow(bits, l, 16);
    Pow2Add(l, 16 - l);
    if Codes(bits, l) >= Pow2(l) {
      ScaleLe(Pow2(l), Codes(bits, l), Pow2(16 - l));
    }
  }

  lemma {:induction false} OffsetMonotone(bits: seq<nat>, k: nat, l: nat)
    requires k <= l <= |bits|
    ensures Offset(bits, k) <= Offset(bits, l)
  {
    if k < l {
      OffsetMonotone(bits, k, l - 1);
    }
  }

  // The length of the p-th code in order of increasing length.
  function LenAt(bits: seq<nat>, p: nat): (l: nat)
    requires |bits| == 17 && p < NumCodes(bits)
    ensures 1 <= l <= 16 && Offset(bits, l) <= p < Offset(bits, l + 1)
  {
    LenFrom(bits, p, 16)
  }

  function LenFrom(bits: seq<nat>, p: nat, l: nat): (r: nat)
    requires |bits| == 17 && l <= 16 && p < Offset(bits, l + 1)
    ensures 1 <= r <= l && Offset(bits, r) <= p < Offset(bits, r + 1)
  {
    if Offset(bits, l) <= p then l else LenFrom(bits, p, l - 1)
  }

  lemma LenUnique(bits: seq<nat>, p: nat, l: nat)
    requires |bits| == 17 && p < NumCodes(bits)
    requires 1 <= l <= 16 && Offset(bits, l) <= p < Offset(bits, l + 1)
    ensures LenAt(bits, p) == l
  {
    var k := LenAt(bits, p);
    if k < l {
      OffsetMonotone(bits, k + 1, l);
    } else if l < k {
      OffsetMonotone(bits, l + 1, k);
    }
  }

  // The code itself, as a number of LenAt(bits, p) bits.
  function CodeAt(bits: seq<nat>, p: nat): nat
    requires |bits| == 17 && p < NumCodes(bits)
  {
    var l := LenAt(bits, p);
    2 * Codes(bits, l - 1) + (p - Offset(bits, l))
  }

  lemma CodeRange(bits: seq<nat>, p: nat)
    requires Legal(bits) && p < NumCodes(bits)
    ensures var l := LenAt(bits, p);
      2 * Codes(bits, l - 1) <= CodeAt(bits, p) < Codes(bits, l) < Pow2(l)
  {
    LegalRoom(bits, LenAt(bits, p));
  }

  // The codes follow from each other: the first one is zero, and the next one is greater by one, with
  // zeros behind it where the length grows.
  lemma FirstCode(bits: seq<nat>)
    requires |bits| == 17 && NumCodes(bits) > 0
    ensures CodeAt(bits, 0) == 0
  {
    var l := LenAt(bits, 0);
    forall d | 1 <= d <= l - 1
      ensures bits[d] == 0
    {
      OffsetMonotone(bits, d + 1, l);
    }
    CodesEmptyBelow(bits, l - 1);
  }

  lemma NextCode(bits: seq<nat>, p: nat)
    requires |bits| == 17 && p + 1 < NumCodes(bits)
    ensures LenAt(bits, p) <= LenAt(bits, p + 1)
    ensures CodeAt(bits, p + 1) == (CodeAt(bits, p) + 1) * Pow2(LenAt(bits, p + 1) - LenAt(bits, p))
  {
    var l, m := LenAt(bits, p), LenAt(bits, p + 1);
    if m < l {
      OffsetMonotone(bits, m + 1, l);
    }
    if l < m {
      OffsetMonotone(bits, l + 1, m);
      forall d | l < d <= m - 1
        ensures bits[d] == 0
      {
        OffsetMonotone(bits, l + 1, d);
        OffsetMonotone(bits, d + 1, m);
      }
      CodesEmptyAbove(bits, l, m - 1);
      MulAssoc(2, Codes(bits, l), Pow2(m - 1 - l));
    }
  }

  // ---- Codes as bit strings ----

  type bit = b: int | 0 <= b < 2

  function BitsValue(s: seq<bit>): nat {
    if s == [] then 0 else 2 * BitsValue(s[..|s| - 1]) + s[|s| - 1]
  }

  // The n low bits of v, most significant first.
  function ToBits(v: nat, n: nat): (s: seq<bit>)
    ensures |s| == n
  {
    if n == 0 then [] else ToBits(v / 2, n - 1) + [v % 2]
  }

  lemma BitsValueSnoc(s: seq<bit>, b: bit)
    ensures BitsValue(s + [b]) == 2 * BitsValue(s) + b
  {
    assert (s + [b])[..|s|] == s;
  }

  lemma {:induction false} BitsValueBound(s: seq<bit>)
    ensures BitsValue(s) < Pow2(|s|)
  {
    if s != [] {
      BitsValueBound(s[..|s| - 1]);
    }
  }

  lemma {:induction false} ToBitsValue(v: nat, n: nat)
    requires v < Pow2(n)
    ensures BitsValue(ToBits(v, n)) == v
  {
    if n > 0 {
      ToBitsValue(v / 2, n - 1);
      BitsValueSnoc(ToBits(v / 2, n - 1), v % 2);
    }
  }

  lemma {:induction false} BitsValueInjective(s: seq<bit>, t: seq<bit>)
    requires |s| == |t| && BitsValue(s) == BitsValue(t)
    ensures s == t
  {
    if s != [] {
      BitsValueInjective(s[..|s| - 1], t[..|t| - 1]);
      assert s == s[..|s| - 1] + [s[|s| - 1]] && t == t[..|t| - 1] + [t[|t| - 1]];
    }
  }

  lemma {:induction false} BitsValueAppend(s: seq<bit>, t: seq<bit>)
    ensures BitsValue(s + t) == BitsValue(s) * Pow2(|t|) + BitsValue(t)
  {
    if t == [] {
      assert s + t == s;
    } else {
      var init, last := t[..|t| - 1], t[|t| - 1];
      assert s + t == (s + init) + [last] && t == init + [last];
      BitsValueSnoc(s + init, last);
      BitsValueSnoc(init, last);
      BitsValueAppend(s, init);
      MulAssoc(2, BitsValue(s), Pow2(|init|));
    }
  }

  function CodeWord(bits: seq<nat>, p: nat): (w: seq<bit>)
    requires |bits| == 17 && p < NumCodes(bits)
  {
    ToBits(CodeAt(bits, p), LenAt(bits, p))
  }

  lemma CutAbove(x: nat, y: nat, c: nat, p: nat)
    requires c * p <= x * p + y && y < p
    ensures x >= c
  {
    if x < c {
      ScaleLe(x + 1, c, p);
    }
  }

  // The value of a bit string that starts with a code word, cut at a smaller length: it lies above
  // all codes of that length.
  lemma CodesReach(bits: seq<nat>, p: nat, k: nat)
    requires Legal(bits) && p < NumCodes(bits) && k < LenAt(bits, p)
    ensures Codes(bits, k) * Pow2(LenAt(bits, p) - k) <= CodeAt(bits, p)
  {
    var l := LenAt(bits, p);
    CodesGrow(bits, k, l - 1);
    MulAssoc(2, Codes(bits, k), Pow2(l - 1 - k));
  }

  lemma WordPrefixValue(bits: seq<nat>, p: nat, k: nat)
    requires Legal(bits) && p < NumCodes(bits) && k < LenAt(bits, p)
    ensures BitsValue(CodeWord(bits, p)[..k]) >= Codes(bits, k)
  {
    var w, l := CodeWord(bits, p), LenAt(bits, p);
    assert w == w[..k] + w[k..];
    WordValue(bits, p);
    BitsValueAppend(w[..k], w[k..]);
    BitsValueBound(w[k..]);
    CodesReach(bits, p, k);
    CutAbove(BitsValue(w[..k]), BitsValue(w[k..]), Codes(bits, k), Pow2(l - k));
  }

  lemma WordValue(bits: seq<nat>, p: nat)
    requires Legal(bits) && p < NumCodes(bits)
    ensures BitsValue(CodeWord(bits, p)) == CodeAt(bits, p)
    ensures 2 * Codes(bits, LenAt(bits, p) - 1) <= CodeAt(bits, p) < Codes(bits, LenAt(bits, p))
  {
    CodeRange(bits, p);
    ToBitsValue(CodeAt(bits, p), LenAt(bits, p));
  }

  // No code word is a prefix of another one.
  lemma PrefixFree(bits: seq<nat>, p: nat, q: nat)
    requires Legal(bits) && p < NumCodes(bits) && q < NumCodes(bits)
    requires CodeWord(bits, p) <= CodeWord(bits, q)
    ensures p == q
  {
    var wp, wq := CodeWord(bits, p), CodeWord(bits, q);
    WordValue(bits, p);
    WordValue(bits, q);
    assert wq[..|wp|] == wp;
    if |wp| < |wq| {
      WordPrefixValue(bits, q, |wp|);
    } else {
      assert wp == wq;
    }
  }

  lemma NotAllOnes(bits: seq<nat>, p: nat)
    requires Legal(bits) && p < NumCodes(bits)
    ensures exists i :: 0 <= i < |CodeWord(bits, p)| && CodeWord(bits, p)[i] == 0
  {
    var w := CodeWord(bits, p);
    WordValue(bits, p);
    CodeRange(bits, p);
    if forall i :: 0 <= i < |w| ==> w[i] == 1 {
      AllOnesValue(w);
    }
  }

  lemma {:induction false} AllOnesValue(s: seq<bit>)
    requires forall i :: 0 <= i < |s| ==> s[i] == 1
    ensures BitsValue(s) == Pow2(|s|) - 1
  {
    if s != [] {
      AllOnesValue(s[..|s| - 1]);
    }
  }

  // ---- Concatenation ----

  lemma Reassociate<T>(a: seq<T>, b: seq<T>, c: seq<T>)
    ensures (a + b) + c == a + (b + c)
  {
  }

  lemma Regroup<T>(a: seq<T>, b: seq<T>, c: seq<T>, d: seq<T>)
    ensures (a + (b + c)) + d == a + (b + (c + d))
  {
  }

  // ---- Symbols ----

  function Occurrences(s: seq<nat>, u: nat): nat {
    if s == [] then 0 else Occurrences(s[..|s| - 1], u) + (if s[|s| - 1] == u then 1 else 0)
  }

  lemma {:induction false} OccurrencesAppend(s: seq<nat>, t: seq<nat>, u: nat)
    ensures Occurrences(s + t, u) == Occurrences(s, u) + Occurrences(t, u)
  {
    if t == [] {
      assert s + t == s;
    } else {
      OccurrencesAppend(s, t[..|t| - 1], u);
      assert (s + t)[..|s + t| - 1] == s + t[..|t| - 1];
    }
  }
}
