// Why merging the two smallest counts is optimal: no assignment of code lengths that satisfies
// Kraft's inequality beats the sum of the merged counts.
module HuffmanOptimality {
  import opened Numerals

  function Sum(s: seq<nat>): nat {
    if s == [] then 0 else Sum(s[..|s| - 1]) + s[|s| - 1]
  }

  lemma {:induction false} SumUpdate(s: seq<nat>, i: nat, v: nat)
    requires i < |s|
    ensures Sum(s[i := v]) == Sum(s) - s[i] + v
  {
    var last := |s| - 1;
    if i < last {
      SumUpdate(s[..last], i, v);
      assert s[i := v][..last] == s[..last][i := v];
    } else {
      assert s[i := v][..last] == s[..last];
    }
  }

  function Update2(s: seq<nat>, i: nat, x: nat, j: nat, y: nat): seq<nat>
    requires i < |s| && j < |s|
  {
    var t: seq<nat> := s[i := x];
    t[j := y]
  }

  lemma SumUpdate2(s: seq<nat>, i: nat, x: nat, j: nat, y: nat)
    requires i < |s| && j < |s| && i != j
    ensures Sum(Update2(s, i, x, j, y)) == Sum(s) - s[i] - s[j] + x + y
  {
    SumUpdate(s, i, x);
    SumUpdate(s[i := x], j, y);
  }

  lemma {:induction false} SumDouble(s: seq<nat>, t: seq<nat>)
    requires |s| == |t| && forall i :: 0 <= i < |s| ==> t[i] == 2 * s[i]
    ensures Sum(t) == 2 * Sum(s)
  {
    if s != [] {
      SumDouble(s[..|s| - 1], t[..|s| - 1]);
    }
  }

  lemma {:induction false} SumEven(s: seq<nat>)
    requires forall i :: 0 <= i < |s| ==> s[i] % 2 == 0
    ensures Sum(s) % 2 == 0
  {
    if s != [] {
      SumEven(s[..|s| - 1]);
    }
  }

  lemma {:induction false} SumAtLeast(s: seq<nat>, i: nat, j: nat)
    requires i < |s| && j < |s| && i != j
    ensures Sum(s) >= s[i] + s[j]
  {
    SumUpdate2(s, i, 0, j, 0);
  }

  // Symbols with count 0 are not coded; the length recorded for them is irrelevant.
  function CostTerms(freq: seq<nat>, len: seq<nat>): seq<nat>
    requires |freq| == |len|
  {
    seq(|freq|, i requires 0 <= i < |freq| => freq[i] * len[i])
  }

  function Cost(freq: seq<nat>, len: seq<nat>): nat
    requires |freq| == |len|
  {
    Sum(CostTerms(freq, len))
  }

  // A symbol of length len takes 2^(depth - len) of the 2^depth leaves of the full tree.
  function KraftTerm(f: nat, len: nat, depth: nat): nat {
    if f == 0 || len > depth then 0 else Pow2(depth - len)
  }

  function KraftTerms(freq: seq<nat>, len: seq<nat>, depth: nat): seq<nat>
    requires |freq| == |len|
  {
    seq(|freq|, i requires 0 <= i < |freq| => KraftTerm(freq[i], len[i], depth))
  }

  predicate Feasible(freq: seq<nat>, len: seq<nat>, depth: nat) {
    && |freq| == |len|
    && (forall i :: 0 <= i < |freq| && freq[i] > 0 ==> len[i] <= depth)
    && Sum(KraftTerms(freq, len, depth)) <= Pow2(depth)
  }

  ghost predicate CostAtLeast(freq: seq<nat>, bound: nat) {
    forall len, depth :: Feasible(freq, len, depth) ==> Cost(freq, len) >= bound
  }

  // c1 and c2 carry the two smallest nonzero counts.
  predicate Smallest(freq: seq<nat>, c1: nat, c2: nat) {
    && c1 < |freq| && c2 < |freq| && c1 != c2 && 0 < freq[c1] <= freq[c2]
    && forall j :: 0 <= j < |freq| && j != c1 && freq[j] > 0 ==> freq[c2] <= freq[j]
  }

  function Merge(freq: seq<nat>, c1: nat, c2: nat): seq<nat>
    requires c1 < |freq| && c2 < |freq|
  {
    Update2(freq, c1, freq[c1] + freq[c2], c2, 0)
  }

  function Exchange(len: seq<nat>, i: nat, j: nat): (len': seq<nat>)
    requires i < |len| && j < |len|
  {
    Update2(len, i, len[j], j, len[i])
  }

  // Giving the longer code to the rarer symbol.
  lemma ExchangeLengths(freq: seq<nat>, len: seq<nat>, depth: nat, i: nat, j: nat)
    requires Feasible(freq, len, depth) && i < |freq| && j < |freq|
    requires 0 < freq[i] <= freq[j] && len[i] <= len[j]
    ensures Feasible(freq, Exchange(len, i, j), depth)
    ensures Cost(freq, Exchange(len, i, j)) <= Cost(freq, len)
  {
    var len', k, c := Exchange(len, i, j), KraftTerms(freq, len, depth), CostTerms(freq, len);
    if i != j {
      assert KraftTerms(freq, len', depth) == Update2(k, i, k[j], j, k[i]);
      SumUpdate2(k, i, k[j], j, k[i]);
      assert CostTerms(freq, len') == Update2(c, i, freq[i] * len[j], j, freq[j] * len[i]);
      SumUpdate2(c, i, freq[i] * len[j], j, freq[j] * len[i]);
      Rearrangement(freq[i], freq[j], len[i], len[j]);
    } else {
      assert len' == len;
    }
  }

  lemma Rearrangement(a: nat, b: nat, x: nat, y: nat)
    requires a <= b && x <= y
    ensures a * y + b * x <= a * x + b * y
  {
    assert (b - a) * (y - x) >= 0;
  }

  // No code of the full length: one level of the tree is empty.
  lemma DropLevel(freq: seq<nat>, len: seq<nat>, depth: nat)
    requires Feasible(freq, len, depth) && depth > 0
    requires forall i :: 0 <= i < |freq| && freq[i] > 0 ==> len[i] < depth
    ensures Feasible(freq, len, depth - 1)
  {
    SumDouble(KraftTerms(freq, len, depth - 1), KraftTerms(freq, len, depth));
  }

  // Only one code of the full length: its sibling is free, so it can be shortened.
  lemma ShortenLone(freq: seq<nat>, len: seq<nat>, depth: nat, c: nat)
    requires Feasible(freq, len, depth) && depth > 0 && c < |freq| && freq[c] > 0 && len[c] == depth
    requires forall i :: 0 <= i < |freq| && i != c && freq[i] > 0 ==> len[i] < depth
    ensures Feasible(freq, len[c := depth - 1], depth - 1)
    ensures Cost(freq, len[c := depth - 1]) <= Cost(freq, len)
  {
    var len', k := len[c := depth - 1], KraftTerms(freq, len, depth);
    SumUpdate(k, c, 0);
    SumEven(k[c := 0]);
    assert KraftTerms(freq, len', depth) == k[c := 2];
    SumUpdate(k, c, 2);
    var t := CostTerms(freq, len);
    assert CostTerms(freq, len') == t[c := freq[c] * (depth - 1)];
    SumUpdate(t, c, freq[c] * (depth - 1));
    assert freq[c] * (depth - 1) <= freq[c] * depth;
    DropLevel(freq, len', depth);
  }

  // Two siblings of the full length become one symbol of their parent's length.
  lemma MergeSiblings(freq: seq<nat>, len: seq<nat>, depth: nat, c1: nat, c2: nat)
    requires Feasible(freq, len, depth) && depth > 0 && c1 < |freq| && c2 < |freq| && c1 != c2
    requires freq[c1] > 0 && freq[c2] > 0 && len[c1] == len[c2] == depth
    ensures Feasible(Merge(freq, c1, c2), len[c1 := depth - 1], depth)
    ensures Cost(Merge(freq, c1, c2), len[c1 := depth - 1]) + freq[c1] + freq[c2] == Cost(freq, len)
  {
    var freq', len', k := Merge(freq, c1, c2), len[c1 := depth - 1], KraftTerms(freq, len, depth);
    assert KraftTerm(freq'[c1], len'[c1], depth) == Pow2(1) == 2;
    assert KraftTerms(freq', len', depth) == Update2(k, c1, 2, c2, 0);
    SumUpdate2(k, c1, 2, c2, 0);
    MergedCost(freq, len, depth, c1, c2);
  }

  lemma MergedCost(freq: seq<nat>, len: seq<nat>, depth: nat, c1: nat, c2: nat)
    requires |freq| == |len| && depth > 0 && c1 < |freq| && c2 < |freq| && c1 != c2
    requires len[c1] == len[c2] == depth
    ensures Cost(Merge(freq, c1, c2), len[c1 := depth - 1]) + freq[c1] + freq[c2] == Cost(freq, len)
  {
    var t, x := CostTerms(freq, len), (freq[c1] + freq[c2]) * (depth - 1);
    var merged := Update2(t, c1, x, c2, 0);
    assert CostTerms(Merge(freq, c1, c2), len[c1 := depth - 1]) == merged;
    SumUpdate2(t, c1, x, c2, 0);
    Distributed(freq[c1], freq[c2], depth);
  }

  lemma Distributed(a: nat, b: nat, d: nat)
    ensures (a + b) * (d - 1) == a * d + b * d - a - b
  {
  }

  // Any feasible lengths for the counts yield feasible lengths for the merged counts that
  // cost less by at least the two merged counts.
  lemma {:induction false} MergedLengths(freq: seq<nat>, len: seq<nat>, depth: nat, c1: nat, c2: nat)
    returns (len': seq<nat>, depth': nat)
    requires Smallest(freq, c1, c2) && Feasible(freq, len, depth)
    ensures Feasible(Merge(freq, c1, c2), len', depth')
    ensures Cost(Merge(freq, c1, c2), len') + freq[c1] + freq[c2] <= Cost(freq, len)
    decreases depth
  {
    if depth == 0 {
      SumAtLeast(KraftTerms(freq, len, depth), c1, c2);
      assert false;
    } else if x :| 0 <= x < |freq| && freq[x] > 0 && len[x] == depth {
      ExchangeLengths(freq, len, depth, c1, x);
      var len1 := Exchange(len, c1, x);
      if y :| 0 <= y < |freq| && y != c1 && freq[y] > 0 && len1[y] == depth {
        ExchangeLengths(freq, len1, depth, c2, y);
        var len2 := Exchange(len1, c2, y);
        MergeSiblings(freq, len2, depth, c1, c2);
        len', depth' := len2[c1 := depth - 1], depth;
      } else {
        ShortenLone(freq, len1, depth, c1);
        len', depth' := MergedLengths(freq, len1[c1 := depth - 1], depth - 1, c1, c2);
      }
    } else {
      DropLevel(freq, len, depth);
      len', depth' := MergedLengths(freq, len, depth - 1, c1, c2);
    }
  }

  lemma MergeRaisesBound(freq: seq<nat>, c1: nat, c2: nat, bound: nat)
    requires Smallest(freq, c1, c2) && CostAtLeast(Merge(freq, c1, c2), bound)
    ensures CostAtLeast(freq, bound + freq[c1] + freq[c2])
  {
    forall len, depth | Feasible(freq, len, depth)
      ensures Cost(freq, len) >= bound + freq[c1] + freq[c2]
    {
      var len', depth' := MergedLengths(freq, len, depth, c1, c2);
    }
  }
}
