// jchuff.c: the second half of jpeg_gen_optimal_table.  Code lengths are counted, limited to 16 by
// the procedure of section K.2 of ITU-T T.81, and the symbols are listed by length.
module HuffmanLimit {
  import opened Numerals
  import opened CanonicalCode
  import opened HuffmanOptimality

  const MAX_CLEN := 32

  // ---- Counting ----

  function Histogram(size: seq<nat>): (bits: seq<nat>)
    ensures |bits| == MAX_CLEN + 1 && bits[0] == 0
  {
    if size == [] then seq(MAX_CLEN + 1, _ => 0)
    else
      var bits, d := Histogram(size[..|size| - 1]), size[|size| - 1];
      if 1 <= d <= MAX_CLEN then bits[d := bits[d] + 1] else bits
  }

  // What Kraft's sum at some depth becomes in terms of the histogram.
  lemma {:induction false} HistogramKraft(count: seq<nat>, size: seq<nat>, depth: nat)
    requires |count| == |size| && depth >= MAX_CLEN
    requires forall u :: 0 <= u < |size| ==> (count[u] > 0 <==> size[u] > 0) && size[u] <= MAX_CLEN
    ensures Sum(KraftTerms(count, size, depth)) == Codes(Histogram(size), MAX_CLEN) * Pow2(depth - MAX_CLEN)
  {
    if size == [] {
      CodesEmptyBelow(Histogram(size), MAX_CLEN);
    } else {
      var n := |size| - 1;
      HistogramKraft(count[..n], size[..n], depth);
      assert KraftTerms(count, size, depth)[..n] == KraftTerms(count[..n], size[..n], depth);
      var bits, d := Histogram(size[..n]), size[n];
      if d > 0 {
        CodesUpdate(bits, d, bits[d] + 1, MAX_CLEN);
        Pow2Add(MAX_CLEN - d, depth - MAX_CLEN);
        Distribute(1, Codes(bits, MAX_CLEN), Pow2(MAX_CLEN - d), Pow2(depth - MAX_CLEN));
      }
    }
  }

  function Used(size: seq<nat>): nat {
    if size == [] then 0 else Used(size[..|size| - 1]) + (if size[|size| - 1] > 0 then 1 else 0)
  }

  lemma {:induction false} HistogramSum(size: seq<nat>)
    requires forall u :: 0 <= u < |size| ==> size[u] <= MAX_CLEN
    ensures Sum(Histogram(size)) == Used(size)
  {
    if size == [] {
      var bits := Histogram(size);
      EmptySum(bits);
    } else {
      HistogramSum(size[..|size| - 1]);
      var bits, d := Histogram(size[..|size| - 1]), size[|size| - 1];
      if d > 0 {
        SumUpdate(bits, d, bits[d] + 1);
      }
    }
  }

  lemma {:induction false} EmptySum(s: seq<nat>)
    requires forall i :: 0 <= i < |s| ==> s[i] == 0
    ensures Sum(s) == 0
  {
    if s != [] {
      EmptySum(s[..|s| - 1]);
    }
  }

  // The loop that fills bits[]; it fails on a length above MAX_CLEN.
  method CountLengths(codesize: array<nat>) returns (ok: bool, bits: array<nat>)
    ensures ok <==> forall u :: 0 <= u < codesize.Length ==> codesize[u] <= MAX_CLEN
    ensures fresh(bits) && bits.Length == MAX_CLEN + 1
    ensures ok ==> bits[..] == Histogram(codesize[..])
  {
    bits := new nat[MAX_CLEN + 1](_ => 0);
    assert codesize[..0] == [];
    for i := 0 to codesize.Length
      invariant forall u :: 0 <= u < i ==> codesize[u] <= MAX_CLEN
      invariant bits[..] == Histogram(codesize[..i])
    {
      assert codesize[..i + 1][..i] == codesize[..i];
      if codesize[i] != 0 {
        if codesize[i] > MAX_CLEN {
          return false, bits;
        }
        bits[codesize[i]] := bits[codesize[i]] + 1;
      }
    }
    assert codesize[..codesize.Length] == codesize[..];
    ok := true;
  }

  // ---- Limiting ----

  // A complete code of few enough symbols, with no code longer than i.
  ghost predicate Complete(bits: seq<nat>, i: nat) {
    && |bits| == MAX_CLEN + 1 && i <= MAX_CLEN && bits[0] == 0
    && Codes(bits, MAX_CLEN) == Pow2(MAX_CLEN) && Sum(bits) <= 257
    && forall d :: i < d <= MAX_CLEN ==> bits[d] == 0
  }

  // The greatest length at most j that is in use; 0 if there is none.
  function LongestUpTo(bits: seq<nat>, j: nat): (r: nat)
    requires j < |bits|
    ensures r <= j && (forall d :: r < d <= j ==> bits[d] == 0) && (r > 0 ==> bits[r] > 0)
  {
    if j == 0 || bits[j] > 0 then j else LongestUpTo(bits, j - 1)
  }

  lemma CompleteAt(bits: seq<nat>, i: nat)
    requires Complete(bits, i) && 1 <= i
    ensures Codes(bits, i) == Pow2(i) && bits[i] % 2 == 0
    ensures bits[i] == 2 * (Pow2(i - 1) - Codes(bits, i - 1))
  {
    CompleteValue(bits, i, MAX_CLEN);
    DivModIs(bits[i], Pow2(i - 1) - Codes(bits, i - 1), 2, 0);
  }

  lemma CompleteValue(bits: seq<nat>, i: nat, top: nat)
    requires Complete(bits, i) && top == MAX_CLEN
    ensures Codes(bits, i) == Pow2(i)
  {
    CodesEmptyAbove(bits, i, top);
    Pow2Add(i, top - i);
    SameFactor(Codes(bits, i), Pow2(i), Pow2(top - i));
  }

  lemma SameFactor(a: nat, b: nat, p: nat)
    requires p > 0 && a * p == b * p
    ensures a == b
  {
    if a < b {
      ScaleLt(a, b, p);
    } else if b < a {
      ScaleLt(b, a, p);
    }
  }

  // Codes of the two greatest lengths alone would need far more symbols.
  lemma PrefixFound(bits: seq<nat>, i: nat)
    requires Complete(bits, i) && i > 16
    ensures LongestUpTo(bits, i - 2) >= 1
  {
    CompleteAt(bits, i);
    SumAtLeast(bits, i - 1, i);
    Pow2Monotone(16, i - 1);
    Pow2Small();
    assert Codes(bits, i) == 4 * Codes(bits, i - 2) + 2 * bits[i - 1] + bits[i];
    if LongestUpTo(bits, i - 2) == 0 {
      CodesEmptyBelow(bits, i - 2);
    }
  }

  // Two codes of length i are replaced by their common prefix.
  function DropPair(bits: seq<nat>, i: nat): (bits': seq<nat>)
    requires 2 <= i < |bits| && bits[i] >= 2
  {
    var b: seq<nat> := bits[i := bits[i] - 2];
    b[i - 1 := b[i - 1] + 1]
  }

  // A code of length j becomes the prefix of two codes one bit longer.
  function Extend(bits: seq<nat>, j: nat): (bits': seq<nat>)
    requires 1 <= j < |bits| - 1 && bits[j] >= 1
  {
    var b: seq<nat> := bits[j + 1 := bits[j + 1] + 2];
    b[j := b[j] - 1]
  }

  lemma TwoUpdates(bits: seq<nat>, i: nat, x: nat, j: nat, y: nat, m: nat)
    requires 1 <= i <= m && 1 <= j <= m && i != j && m < |bits|
    ensures Sum(Update2(bits, i, x, j, y)) == Sum(bits) + (x - bits[i]) + (y - bits[j])
    ensures Codes(Update2(bits, i, x, j, y), m) ==
      Codes(bits, m) + (x - bits[i]) * Pow2(m - i) + (y - bits[j]) * Pow2(m - j)
  {
    SumUpdate2(bits, i, x, j, y);
    CodesUpdate(bits, i, x, m);
    CodesUpdate(bits[i := x], j, y, m);
  }

  lemma DropPairKeeps(bits: seq<nat>, i: nat, m: nat)
    requires 2 <= i <= m < |bits| && bits[i] >= 2
    ensures Codes(DropPair(bits, i), m) == Codes(bits, m)
    ensures Sum(DropPair(bits, i)) == Sum(bits) - 1
  {
    TwoUpdates(bits, i, bits[i] - 2, i - 1, bits[i - 1] + 1, m);
    assert DropPair(bits, i) == Update2(bits, i, bits[i] - 2, i - 1, bits[i - 1] + 1);
    assert Pow2(m - (i - 1)) == 2 * Pow2(m - i);
  }

  lemma ExtendKeeps(bits: seq<nat>, j: nat, m: nat)
    requires 1 <= j < m < |bits| && bits[j] >= 1
    ensures Codes(Extend(bits, j), m) == Codes(bits, m)
    ensures Sum(Extend(bits, j)) == Sum(bits) + 1
  {
    TwoUpdates(bits, j + 1, bits[j + 1] + 2, j, bits[j] - 1, m);
    assert Extend(bits, j) == Update2(bits, j + 1, bits[j + 1] + 2, j, bits[j] - 1);
    assert Pow2(m - j) == 2 * Pow2(m - (j + 1));
  }

  // One adjustment: two codes of length i go; their prefix, and the two extensions of the next
  // shorter code below it, take over.
  function Shorten(bits: seq<nat>, i: nat): (bits': seq<nat>)
    requires Complete(bits, i) && i > 16 && bits[i] > 0
    ensures Complete(bits', i) && Sum(bits') == Sum(bits) && bits'[i] + 2 == bits[i]
  {
    CompleteAt(bits, i);
    PrefixFound(bits, i);
    DropPairKeeps(bits, i, MAX_CLEN);
    ExtendKeeps(DropPair(bits, i), LongestUpTo(bits, i - 2), MAX_CLEN);
    Extend(DropPair(bits, i), LongestUpTo(bits, i - 2))
  }

  // The whole adjustment, from length i downwards.
  function Limit(bits: seq<nat>, i: nat): (bits': seq<nat>)
    requires Complete(bits, i) && i >= 16
    ensures Complete(bits', 16) && Sum(bits') == Sum(bits)
    decreases i, bits[i]
  {
    if i == 16 then bits
    else if bits[i] == 0 then Limit(bits, i - 1)
    else Limit(Shorten(bits, i), i)
  }

  // What section K.2 asks of one adjustment at length i: of the lengths below that of the prefix, the
  // greatest in use, j, gives up a code; two codes of length j + 1 take its place; two codes of
  // length i become one of length i - 1; and nothing else changes.
  ghost predicate AdjustedWith(bits: seq<nat>, bits': seq<nat>, j: nat, i: nat) {
    && 1 <= j <= i - 2 && i < |bits| == |bits'|
    && bits[j] > 0 && (forall d :: j < d < i - 1 ==> bits[d] == 0)
    && forall d :: 0 <= d < |bits| ==>
      bits'[d] + (if d == j then 1 else 0) + (if d == i then 2 else 0)
        == bits[d] + (if d == j + 1 then 2 else 0) + (if d == i - 1 then 1 else 0)
  }

  ghost predicate Adjusted(bits: seq<nat>, bits': seq<nat>, i: nat) {
    exists j :: AdjustedWith(bits, bits', j, i)
  }

  // Each adjustment is made at the greatest length in use.
  ghost predicate AdjustedAtLongest(bits: seq<nat>, bits': seq<nat>) {
    exists i :: 16 < i < |bits| && bits[i] > 0 && (forall d :: i < d < |bits| ==> bits[d] == 0)
      && Adjusted(bits, bits', i)
  }

  // The adjustments one after the other, until no code is longer than 16.
  ghost predicate Adjustments(states: seq<seq<nat>>) {
    if |states| <= 1 then |states| == 1 && forall d :: 16 < d < |states[0]| ==> states[0][d] == 0
    else AdjustedAtLongest(states[0], states[1]) && Adjustments(states[1..])
  }

  lemma ShortenAdjusts(bits: seq<nat>, i: nat)
    requires Complete(bits, i) && i > 16 && bits[i] > 0
    ensures Adjusted(bits, Shorten(bits, i), i) && AdjustedAtLongest(bits, Shorten(bits, i))
  {
    PrefixFound(bits, i);
    var j := LongestUpTo(bits, i - 2);
    assert AdjustedWith(bits, Shorten(bits, i), j, i);
  }

  lemma {:induction false} LimitAdjusts(bits: seq<nat>, i: nat) returns (states: seq<seq<nat>>)
    requires Complete(bits, i) && i >= 16
    ensures Adjustments(states) && states[0] == bits && states[|states| - 1] == Limit(bits, i)
    decreases i, bits[i]
  {
    if i == 16 {
      states := [bits];
    } else if bits[i] == 0 {
      states := LimitAdjusts(bits, i - 1);
    } else {
      ShortenAdjusts(bits, i);
      var later := LimitAdjusts(Shorten(bits, i), i);
      states := [bits] + later;
      assert states[1..] == later;
    }
  }

  // The code is limited by adjustments as section K.2 wants them.
  method LimitLengths(bits: array<nat>)
    requires Complete(bits[..], MAX_CLEN)
    modifies bits
    ensures bits[..] == Limit(old(bits[..]), MAX_CLEN)
    ensures exists states :: Adjustments(states) && states[0] == old(bits[..]) && states[|states| - 1] == bits[..]
  {
    for i := MAX_CLEN downto 16
      invariant Complete(bits[..], i) && Limit(bits[..], i) == Limit(old(bits[..]), MAX_CLEN)
    {
      ghost var i1 := i + 1;
      while bits[i + 1] > 0
        invariant Complete(bits[..], i1) && Limit(bits[..], i1) == Limit(old(bits[..]), MAX_CLEN)
        decreases bits[i + 1]
      {
        ShortenOnce(bits, i + 1);
      }
    }
    ghost var states := LimitAdjusts(old(bits[..]), MAX_CLEN);
  }

  // Scans down from j for a length in use.
  method FindLongest(bits: array<nat>, top: nat) returns (j: nat)
    requires top < bits.Length && LongestUpTo(bits[..], top) >= 1
    ensures j == LongestUpTo(bits[..], top)
  {
    j := top;
    while bits[j] == 0
      invariant 1 <= j <= top && LongestUpTo(bits[..], j) == LongestUpTo(bits[..], top)
      decreases j
    {
      j := j - 1;
    }
  }

  method ShortenOnce(bits: array<nat>, i: nat)
    requires Complete(bits[..], i) && i > 16 && bits[i] > 0
    modifies bits
    ensures bits[..] == Shorten(old(bits[..]), i) && Adjusted(old(bits[..]), bits[..], i)
  {
    ghost var was := bits[..];
    CompleteAt(was, i);
    PrefixFound(was, i);
    var j := FindLongest(bits, i - 2);
    bits[i] := bits[i] - 2;
    bits[i - 1] := bits[i - 1] + 1;
    ghost var dropped := DropPair(was, i);
    assert bits[..] == dropped;
    bits[j + 1] := bits[j + 1] + 2;
    bits[j] := bits[j] - 1;
    assert bits[..] == Extend(dropped, j);
    ShortenAdjusts(was, i);
  }

  // ---- The pseudo-symbol gives up its place ----

  function Reduced(bits: seq<nat>): (bits': seq<nat>)
    requires |bits| == MAX_CLEN + 1 && LongestUpTo(bits, 16) >= 1
    ensures |bits'| == 17
  {
    var i := LongestUpTo(bits, 16);
    bits[i := bits[i] - 1][..17]
  }

  lemma CompleteInUse(bits: seq<nat>)
    requires Complete(bits, 16)
    ensures LongestUpTo(bits, 16) >= 1
  {
    CompleteAt(bits, 16);
    if LongestUpTo(bits, 16) == 0 {
      CodesEmptyBelow(bits, 16);
    }
  }

  // One code of the greatest length in use is gone, and all others are still there.
  ghost predicate LongestDropped(bits: seq<nat>, bits': seq<nat>) {
    && |bits| > 16 && |bits'| == 17
    && exists i :: 1 <= i <= 16 && bits[i] == bits'[i] + 1 && (forall d :: i < d <= 16 ==> bits[d] == 0)
                   && (forall d :: 0 <= d <= 16 && d != i ==> bits'[d] == bits[d])
  }

  // One code of the greatest length is left unused.
  lemma ReducedLegal(bits: seq<nat>)
    requires Complete(bits, 16)
    ensures LongestUpTo(bits, 16) >= 1 && Legal(Reduced(bits))
    ensures LongestDropped(bits, Reduced(bits)) && NumCodes(Reduced(bits)) == Sum(bits) - 1
  {
    CompleteInUse(bits);
    CompleteAt(bits, 16);
    var i, m := LongestUpTo(bits, 16), |bits| - 16;
    var b: seq<nat> := bits[i := bits[i] - 1];
    ReducedCodes(bits, i, b, m);
    ReducedCount(bits, i, b, m);
  }

  lemma MinusOne(x: int, p: int)
    requires x == -1
    ensures x * p == -p
  {
  }

  lemma ReducedCodes(bits: seq<nat>, i: nat, b: seq<nat>, k: nat)
    requires 1 <= i < k <= |bits| && bits[i] >= 1 && b == bits[i := bits[i] - 1]
    ensures Codes(b[..k], k - 1) + Pow2(k - 1 - i) == Codes(bits, k - 1)
  {
    CodesUpdate(bits, i, b[i], k - 1);
    MinusOne(b[i] as int - bits[i] as int, Pow2(k - 1 - i));
    CodesCut(b, k - 1, k);
  }

  lemma ReducedCount(bits: seq<nat>, i: nat, b: seq<nat>, k: nat)
    requires 1 <= i < k <= |bits| && bits[i] >= 1 && bits[0] == 0 && b == bits[i := bits[i] - 1]
    requires forall d :: k <= d < |bits| ==> bits[d] == 0
    ensures Offset(b[..k], k) == Sum(bits) - 1
  {
    var cut := b[..k];
    EndPrefixes(cut);
    OffsetIsSum(cut, k);
    assert Offset(cut, k) == Sum(b) by {
      SumCut(b, k);
    }
    SumUpdate(bits, i, bits[i] - 1);
  }

  lemma {:induction false} CodesCut(bits: seq<nat>, l: nat, k: nat)
    requires l < k <= |bits|
    ensures Codes(bits[..k], l) == Codes(bits, l)
  {
    if l > 0 {
      CodesCut(bits, l - 1, k);
    }
  }

  lemma {:induction false} OffsetIsSum(bits: seq<nat>, l: nat)
    requires 1 <= l <= |bits| && bits[0] == 0
    ensures Offset(bits, l) == Sum(bits[..l])
  {
    if l == 1 {
      assert bits[..1] == [0];
      assert Sum([0]) == Sum([0][..0]) + 0;
    } else {
      OffsetIsSum(bits, l - 1);
      assert bits[..l][..l - 1] == bits[..l - 1];
    }
  }

  lemma {:induction false} SumCut(s: seq<nat>, k: nat)
    requires k <= |s| && forall i :: k <= i < |s| ==> s[i] == 0
    ensures Sum(s[..k]) == Sum(s)
    decreases |s|
  {
    if k == |s| {
      assert s[..k] == s;
    } else {
      SumCut(s[..|s| - 1], k);
      assert s[..|s| - 1][..k] == s[..k];
    }
  }
}
