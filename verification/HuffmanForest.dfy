// The forest that jpeg_gen_optimal_table builds by merging, and what every merge keeps.
module HuffmanForest {
  import opened Numerals
  import opened HuffmanOptimality

  // freq[r] > 0 marks r as the root of a tree of that weight; root[u] is the root above symbol u
  // and size[u] its depth.  count holds the original counts.
  datatype Forest = Forest(freq: seq<nat>, size: seq<nat>, root: seq<nat>)

  // The first two roots by (weight, larger index first): what the two linear searches select.
  predicate Before(freq: seq<nat>, i: nat, j: nat)
    requires i < |freq| && j < |freq|
  {
    freq[i] < freq[j] || (freq[i] == freq[j] && i > j)
  }

  predicate FirstTwo(freq: seq<nat>, c1: nat, c2: nat) {
    && c1 < |freq| && c2 < |freq| && freq[c1] > 0 && freq[c2] > 0 && Before(freq, c1, c2)
    && forall j :: 0 <= j < |freq| && j != c1 && j != c2 && freq[j] > 0 ==> Before(freq, c2, j)
  }

  predicate Within(count: seq<nat>, root: seq<nat>, r: nat, u: nat)
    requires u < |count| == |root|
  {
    count[u] > 0 && root[u] == r
  }

  function WeightTerms(count: seq<nat>, root: seq<nat>, r: nat): seq<nat>
    requires |count| == |root|
  {
    seq(|count|, u requires 0 <= u < |count| => if Within(count, root, r, u) then count[u] else 0)
  }

  function LeafTerms(count: seq<nat>, fo: Forest, r: nat): seq<nat>
    requires |count| == |fo.root| == |fo.size|
  {
    seq(|count|, u requires 0 <= u < |count| =>
      if Within(count, fo.root, r, u) then KraftTerm(count[u], fo.size[u], |count|) else 0)
  }

  function Ones(freq: seq<nat>): seq<nat> {
    seq(|freq|, i requires 0 <= i < |freq| => if freq[i] > 0 then 1 else 0)
  }

  function Roots(freq: seq<nat>): nat {
    Sum(Ones(freq))
  }

  ghost predicate Shape(count: seq<nat>, fo: Forest) {
    && |count| == |fo.freq| == |fo.size| == |fo.root|
    && (forall r :: 0 <= r < |count| && fo.freq[r] > 0 ==> Within(count, fo.root, r, r))
    && (forall u :: 0 <= u < |count| && count[u] > 0 ==> fo.root[u] < |count| && fo.freq[fo.root[u]] > 0)
  }

  // Weights are sums over leaves; each tree is complete; no leaf is deeper than merges allow.
  ghost predicate Balanced(count: seq<nat>, fo: Forest) {
    && Shape(count, fo)
    && Sum(fo.freq) == Sum(count)
    && (forall r :: 0 <= r < |count| ==> fo.freq[r] == Sum(WeightTerms(count, fo.root, r)))
    && (forall r :: 0 <= r < |count| && fo.freq[r] > 0 ==> Sum(LeafTerms(count, fo, r)) == Pow2(|count|))
    && (forall u :: 0 <= u < |count| && count[u] > 0 ==> fo.size[u] + Roots(fo.freq) <= |count|)
  }

  // A bound on any coding of the merged counts, plus the cost so far, bounds any coding of the
  // original counts.
  ghost predicate Economical(count: seq<nat>, fo: Forest)
    requires |count| == |fo.size|
  {
    forall bound: nat :: CostAtLeast(fo.freq, bound) ==> CostAtLeast(count, bound + Cost(count, fo.size))
  }

  function Merged(count: seq<nat>, fo: Forest, c1: nat, c2: nat): (fo': Forest)
    requires |count| == |fo.freq| == |fo.size| == |fo.root| && c1 < |count| && c2 < |count|
  {
    Forest(
      Merge(fo.freq, c1, c2),
      seq(|count|, u requires 0 <= u < |count| =>
        if Within(count, fo.root, c1, u) || Within(count, fo.root, c2, u) then fo.size[u] + 1 else fo.size[u]),
      seq(|count|, u requires 0 <= u < |count| => if fo.root[u] == c2 then c1 else fo.root[u]))
  }

  lemma {:induction false} SumAdd(s: seq<nat>, t: seq<nat>, w: seq<nat>)
    requires |s| == |t| == |w| && forall i :: 0 <= i < |s| ==> w[i] == s[i] + t[i]
    ensures Sum(w) == Sum(s) + Sum(t)
  {
    if s != [] {
      SumAdd(s[..|s| - 1], t[..|t| - 1], w[..|w| - 1]);
    }
  }

  lemma {:induction false} SumSingle(s: seq<nat>, i: nat)
    requires i < |s| && forall j :: 0 <= j < |s| && j != i ==> s[j] == 0
    ensures Sum(s) == s[i]
  {
    SumZero(s[i := 0]);
    SumUpdate(s, i, 0);
  }

  lemma {:induction false} SumZero(s: seq<nat>)
    requires forall j :: 0 <= j < |s| ==> s[j] == 0
    ensures Sum(s) == 0
  {
    if s != [] {
      SumZero(s[..|s| - 1]);
    }
  }

  lemma FirstTwoSmallest(freq: seq<nat>, c1: nat, c2: nat)
    requires FirstTwo(freq, c1, c2)
    ensures Smallest(freq, c1, c2)
  {
  }

  lemma WeightKept(freq: seq<nat>, c1: nat, c2: nat, merged: seq<nat>)
    requires c1 < |freq| && c2 < |freq| && c1 != c2 && merged == Merge(freq, c1, c2)
    ensures Sum(merged) == Sum(freq)
  {
    SumUpdate2(freq, c1, freq[c1] + freq[c2], c2, 0);
  }

  lemma RootsDrop(freq: seq<nat>, c1: nat, c2: nat)
    requires c1 < |freq| && c2 < |freq| && c1 != c2 && freq[c1] > 0 && freq[c2] > 0
    ensures Roots(Merge(freq, c1, c2)) == Roots(freq) - 1
    ensures Roots(freq) >= 2
  {
    var ones := Ones(freq);
    assert ones[c1] == 1 && ones[c2] == 1;
    SumAtLeast(ones, c1, c2);
    SumUpdate2(ones, c1, 1, c2, 0);
    assert Ones(Merge(freq, c1, c2)) == Update2(ones, c1, 1, c2, 0);
  }

  lemma MergedWeights(count: seq<nat>, fo: Forest, c1: nat, c2: nat, r: nat)
    requires Balanced(count, fo) && c1 < |count| && c2 < |count| && c1 != c2 && r < |count|
    requires fo.freq[c1] > 0 && fo.freq[c2] > 0
    ensures Merged(count, fo, c1, c2).freq[r] ==
      Sum(WeightTerms(count, Merged(count, fo, c1, c2).root, r))
  {
    var root' := Merged(count, fo, c1, c2).root;
    var w := WeightTerms(count, root', r);
    if r == c1 {
      SumAdd(WeightTerms(count, fo.root, c1), WeightTerms(count, fo.root, c2), w);
    } else if r == c2 {
      SumZero(w);
    } else {
      assert w == WeightTerms(count, fo.root, r);
    }
  }

  lemma JoinedLeaves(count: seq<nat>, fo: Forest, c1: nat, c2: nat)
    requires Balanced(count, fo) && c1 < |count| && c2 < |count| && c1 != c2
    requires fo.freq[c1] > 0 && fo.freq[c2] > 0
    ensures Sum(LeafTerms(count, Merged(count, fo, c1, c2), c1)) == Pow2(|count|)
  {
    var t := LeafTerms(count, Merged(count, fo, c1, c2), c1);
    var t1, t2 := LeafTerms(count, fo, c1), LeafTerms(count, fo, c2);
    var both := seq(|t|, u requires 0 <= u < |t| => t1[u] + t2[u]);
    SumAdd(t1, t2, both);
    RootsDrop(fo.freq, c1, c2);
    forall u | 0 <= u < |count|
      ensures both[u] == 2 * t[u]
    {
      MergedLeaf(count, fo, c1, c2, u);
    }
    SumDouble(t, both);
  }

  lemma MergedLeaves(count: seq<nat>, fo: Forest, c1: nat, c2: nat, r: nat)
    requires Balanced(count, fo) && c1 < |count| && c2 < |count| && c1 != c2 && r < |count|
    requires fo.freq[c1] > 0 && fo.freq[c2] > 0 && fo.freq[r] > 0 && r != c2
    ensures Sum(LeafTerms(count, Merged(count, fo, c1, c2), r)) == Pow2(|count|)
  {
    var fo' := Merged(count, fo, c1, c2);
    var t := LeafTerms(count, fo', r);
    if r == c1 {
      JoinedLeaves(count, fo, c1, c2);
    } else {
      assert t == LeafTerms(count, fo, r);
    }
  }

  lemma MergedLeaf(count: seq<nat>, fo: Forest, c1: nat, c2: nat, u: nat)
    requires Shape(count, fo) && c1 < |count| && c2 < |count| && c1 != c2 && u < |count|
    requires count[u] > 0 ==> fo.size[u] < |count|
    ensures LeafTerms(count, fo, c1)[u] + LeafTerms(count, fo, c2)[u] ==
      2 * LeafTerms(count, Merged(count, fo, c1, c2), c1)[u]
  {
  }

  lemma MergeKeepsShape(count: seq<nat>, fo: Forest, c1: nat, c2: nat)
    requires Shape(count, fo) && c1 < |count| && c2 < |count| && c1 != c2
    requires fo.freq[c1] > 0 && fo.freq[c2] > 0
    ensures Shape(count, Merged(count, fo, c1, c2))
  {
  }

  lemma MergeKeepsDepth(count: seq<nat>, fo: Forest, c1: nat, c2: nat)
    requires Balanced(count, fo) && c1 < |count| && c2 < |count| && c1 != c2
    requires fo.freq[c1] > 0 && fo.freq[c2] > 0
    ensures var fo' := Merged(count, fo, c1, c2);
      forall u :: 0 <= u < |count| && count[u] > 0 ==> fo'.size[u] + Roots(fo'.freq) <= |count|
  {
    RootsDrop(fo.freq, c1, c2);
  }

  lemma MergeKeepsBalance(count: seq<nat>, fo: Forest, c1: nat, c2: nat)
    requires Balanced(count, fo) && FirstTwo(fo.freq, c1, c2)
    ensures Balanced(count, Merged(count, fo, c1, c2))
  {
    var fo' := Merged(count, fo, c1, c2);
    RootsDrop(fo.freq, c1, c2);
    WeightKept(fo.freq, c1, c2, fo'.freq);
    MergeKeepsShape(count, fo, c1, c2);
    MergeKeepsDepth(count, fo, c1, c2);
    forall r | 0 <= r < |count|
      ensures fo'.freq[r] == Sum(WeightTerms(count, fo'.root, r))
    {
      MergedWeights(count, fo, c1, c2, r);
    }
    forall r | 0 <= r < |count| && fo'.freq[r] > 0
      ensures Sum(LeafTerms(count, fo', r)) == Pow2(|count|)
    {
      MergedLeaves(count, fo, c1, c2, r);
    }
  }

  // The cost grows by the two merged weights.
  lemma OneDeeper(n: int, d: int)
    ensures n * (d + 1) == n * d + n
  {
  }

  lemma MergedTerm(count: seq<nat>, fo: Forest, c1: nat, c2: nat, u: nat)
    requires Shape(count, fo) && c1 < |count| && c2 < |count| && c1 != c2 && u < |count|
    ensures CostTerms(count, Merged(count, fo, c1, c2).size)[u] == CostTerms(count, fo.size)[u] +
      WeightTerms(count, fo.root, c1)[u] + WeightTerms(count, fo.root, c2)[u]
  {
    OneDeeper(count[u], fo.size[u]);
  }

  lemma MergedCost(count: seq<nat>, fo: Forest, c1: nat, c2: nat)
    requires Balanced(count, fo) && c1 < |count| && c2 < |count| && c1 != c2
    ensures Cost(count, Merged(count, fo, c1, c2).size) == Cost(count, fo.size) + fo.freq[c1] + fo.freq[c2]
  {
    var size' := Merged(count, fo, c1, c2).size;
    var w1, w2, t := WeightTerms(count, fo.root, c1), WeightTerms(count, fo.root, c2), CostTerms(count, fo.size);
    var w := seq(|count|, u requires 0 <= u < |count| => w1[u] + w2[u]);
    SumAdd(w1, w2, w);
    forall u | 0 <= u < |count|
      ensures CostTerms(count, size')[u] == t[u] + w[u]
    {
      MergedTerm(count, fo, c1, c2, u);
    }
    SumAdd(t, w, CostTerms(count, size'));
  }

  lemma MergeKeepsEconomy(count: seq<nat>, fo: Forest, c1: nat, c2: nat)
    requires Balanced(count, fo) && Economical(count, fo) && FirstTwo(fo.freq, c1, c2)
    ensures Economical(count, Merged(count, fo, c1, c2))
  {
    var fo' := Merged(count, fo, c1, c2);
    MergedCost(count, fo, c1, c2);
    FirstTwoSmallest(fo.freq, c1, c2);
    forall bound: nat | CostAtLeast(fo'.freq, bound)
      ensures CostAtLeast(count, bound + Cost(count, fo'.size))
    {
      MergeRaisesBound(fo.freq, c1, c2, bound);
      assert CostAtLeast(fo.freq, bound + fo.freq[c1] + fo.freq[c2]);
    }
  }

  // ---- The loop before and after ----

  function Identity(n: nat): seq<nat> {
    seq(n, i => i)
  }

  function Planted(count: seq<nat>): Forest {
    Forest(count, seq(|count|, _ => 0), Identity(|count|))
  }

  lemma PlantedSound(count: seq<nat>)
    ensures Balanced(count, Planted(count)) && Economical(count, Planted(count))
  {
    var fo := Planted(count);
    forall r | 0 <= r < |count|
      ensures fo.freq[r] == Sum(WeightTerms(count, fo.root, r))
      ensures fo.freq[r] > 0 ==> Sum(LeafTerms(count, fo, r)) == Pow2(|count|)
    {
      SumSingle(WeightTerms(count, fo.root, r), r);
      SumSingle(LeafTerms(count, fo, r), r);
    }
    SumZero(CostTerms(count, fo.size));
    RootsBound(count);
  }

  lemma {:induction false} RootsBound(freq: seq<nat>)
    ensures Roots(freq) <= |freq|
  {
    if freq != [] {
      RootsBound(freq[..|freq| - 1]);
      assert Ones(freq)[..|freq| - 1] == Ones(freq[..|freq| - 1]);
    }
  }

  // The lengths of one complete tree of least cost.
  ghost predicate OptimalLengths(count: seq<nat>, size: seq<nat>) {
    && |size| == |count|
    && (forall u :: 0 <= u < |count| && count[u] > 0 ==> size[u] <= |count|)
    && Sum(KraftTerms(count, size, |count|)) == Pow2(|count|)
    && CostAtLeast(count, Cost(count, size))
  }

  // When one root c remains, the lengths satisfy Kraft's inequality with equality and no lengths
  // that satisfy it cost less.
  lemma LastRootOptimal(count: seq<nat>, fo: Forest, c: nat)
    requires Balanced(count, fo) && Economical(count, fo) && c < |count| && fo.freq[c] > 0
    requires forall j :: 0 <= j < |count| && j != c ==> fo.freq[j] == 0
    ensures OptimalLengths(count, fo.size)
    ensures forall u :: 0 <= u < |count| && count[u] > 0 ==> fo.root[u] == c
  {
    assert KraftTerms(count, fo.size, |count|) == LeafTerms(count, fo, c);
    assert CostAtLeast(fo.freq, 0);
    assert CostAtLeast(count, 0 + Cost(count, fo.size));
  }

  // ---- Depth against weight ----

  function Fib(n: nat): nat {
    if n < 2 then n else Fib(n - 1) + Fib(n - 2)
  }

  lemma {:induction false} FibMonotone(m: nat, n: nat)
    requires m <= n
    ensures Fib(m) <= Fib(n)
    decreases n
  {
    if m < n {
      FibMonotone(m, n - 1);
      if n == 1 {
      } else if n == 2 {
        assert Fib(2) == 1;
      } else {
        assert Fib(n) == Fib(n - 1) + Fib(n - 2);
      }
    }
  }

  // A leaf at depth d needs a tree of weight Fib(d + 2), and no other tree weighs less than
  // Fib(d + 1).
  ghost predicate HeavyAbove(freq: seq<nat>, r: nat, d: nat)
    requires r < |freq|
  {
    && freq[r] >= Fib(d + 2)
    && forall s :: 0 <= s < |freq| && freq[s] > 0 && s != r ==> freq[s] >= Fib(d + 1)
  }

  ghost predicate Heavy(count: seq<nat>, fo: Forest)
    requires Shape(count, fo)
  {
    forall u :: 0 <= u < |count| && count[u] > 0 ==> HeavyAbove(fo.freq, fo.root[u], fo.size[u])
  }

  lemma PlantedHeavy(count: seq<nat>)
    ensures Shape(count, Planted(count)) && Heavy(count, Planted(count))
  {
    assert Fib(2) == 1;
  }

  lemma MergeBesideHeavy(freq: seq<nat>, c1: nat, c2: nat, r: nat, d: nat)
    requires FirstTwo(freq, c1, c2) && r < |freq| && freq[r] > 0 && r != c1 && r != c2
    requires HeavyAbove(freq, r, d)
    ensures HeavyAbove(Merge(freq, c1, c2), r, d)
  {
  }

  lemma MergeIntoHeavy(freq: seq<nat>, c1: nat, c2: nat, r: nat, d: nat)
    requires FirstTwo(freq, c1, c2) && (r == c1 || r == c2) && HeavyAbove(freq, r, d)
    ensures HeavyAbove(Merge(freq, c1, c2), c1, d + 1)
  {
    assert Fib(d + 3) == Fib(d + 2) + Fib(d + 1);
    FibMonotone(d + 1, d + 2);
  }

  lemma MergeKeepsHeavy(count: seq<nat>, fo: Forest, c1: nat, c2: nat)
    requires Shape(count, fo) && Heavy(count, fo) && FirstTwo(fo.freq, c1, c2)
    ensures Shape(count, Merged(count, fo, c1, c2)) && Heavy(count, Merged(count, fo, c1, c2))
  {
    MergeKeepsShape(count, fo, c1, c2);
    var fo' := Merged(count, fo, c1, c2);
    forall u | 0 <= u < |count| && count[u] > 0
      ensures HeavyAbove(fo'.freq, fo'.root[u], fo'.size[u])
    {
      var r, d := fo.root[u], fo.size[u];
      if r == c1 || r == c2 {
        MergeIntoHeavy(fo.freq, c1, c2, r, d);
      } else {
        MergeBesideHeavy(fo.freq, c1, c2, r, d);
      }
    }
  }

  // ---- The pseudo-symbol is deepest ----

  // p is a symbol of count 1 with the largest index; r is the root above it.  No leaf is deeper, and
  // trees with a leaf just as deep are selected after r.
  ghost predicate NoneDeeper(count: seq<nat>, fo: Forest, p: nat)
    requires Shape(count, fo) && p < |count| && count[p] > 0
  {
    forall u :: 0 <= u < |count| && count[u] > 0 ==>
      && fo.size[u] <= fo.size[p]
      && (fo.size[u] == fo.size[p] && fo.root[u] != fo.root[p] ==> Before(fo.freq, fo.root[p], fo.root[u]))
  }

  // (w, i) was the second of the two trees merged most recently into the tree r; all other
  // trees come after it in the order of selection.
  ghost predicate SelectedInOrder(freq: seq<nat>, r: nat, w: nat, i: nat)
    requires r < |freq|
  {
    && freq[r] <= 2 * w && (freq[r] == 2 * w ==> i < r)
    && forall s :: 0 <= s < |freq| && freq[s] > 0 && s != r ==> freq[s] > w || (freq[s] == w && s < i)
  }

  ghost predicate Deepest(count: seq<nat>, fo: Forest, p: nat, w: nat, i: nat)
    requires Shape(count, fo) && p < |count| && count[p] > 0
  {
    NoneDeeper(count, fo, p) && (fo.size[p] > 0 ==> SelectedInOrder(fo.freq, fo.root[p], w, i))
  }

  lemma PlantedDeepest(count: seq<nat>, p: nat)
    requires p == |count| - 1 && count[p] == 1
    ensures Shape(count, Planted(count)) && Deepest(count, Planted(count), p, 0, 0)
  {
  }

  lemma SelectionStarts(freq: seq<nat>, c1: nat, c2: nat)
    requires FirstTwo(freq, c1, c2)
    ensures SelectedInOrder(Merge(freq, c1, c2), c1, freq[c2], c2)
  {
  }

  lemma MergeIntoDeepest(count: seq<nat>, fo: Forest, p: nat, w: nat, i: nat, c1: nat, c2: nat)
    requires Shape(count, fo) && p < |count| && count[p] > 0 && Deepest(count, fo, p, w, i)
    requires FirstTwo(fo.freq, c1, c2) && (fo.root[p] == c1 || fo.root[p] == c2)
    ensures Shape(count, Merged(count, fo, c1, c2))
    ensures Deepest(count, Merged(count, fo, c1, c2), p, fo.freq[c2], c2)
  {
    MergeKeepsShape(count, fo, c1, c2);
    var fo' := Merged(count, fo, c1, c2);
    SelectionStarts(fo.freq, c1, c2);
    assert fo'.root[p] == c1 && fo'.size[p] == fo.size[p] + 1;
    forall u | 0 <= u < |count| && count[u] > 0
      ensures fo'.size[u] <= fo'.size[p]
      ensures fo'.size[u] == fo'.size[p] ==> fo'.root[u] == c1
    {
    }
  }

  // Two trees that are selected before the tree above p are lower, and together heavier.
  lemma MergeBesideDeepest(count: seq<nat>, fo: Forest, p: nat, w: nat, i: nat, c1: nat, c2: nat)
    requires Shape(count, fo) && p < |count| && count[p] > 0 && Deepest(count, fo, p, w, i)
    requires FirstTwo(fo.freq, c1, c2) && fo.root[p] != c1 && fo.root[p] != c2
    ensures Shape(count, Merged(count, fo, c1, c2))
    ensures Deepest(count, Merged(count, fo, c1, c2), p, w, i)
  {
    MergeKeepsShape(count, fo, c1, c2);
    var fo', r := Merged(count, fo, c1, c2), fo.root[p];
    assert Before(fo.freq, c2, r) && Before(fo.freq, c1, r);
    assert Within(count, fo.root, c1, c1) && fo.size[c1] < fo.size[p];
    SelectionGoesOn(fo.freq, r, w, i, c1, c2);
    forall u | 0 <= u < |count| && count[u] > 0
      ensures fo'.size[u] <= fo'.size[p]
      ensures fo'.size[u] == fo'.size[p] && fo'.root[u] != r ==> Before(fo'.freq, r, fo'.root[u])
    {
    }
  }

  lemma SelectionGoesOn(freq: seq<nat>, r: nat, w: nat, i: nat, c1: nat, c2: nat)
    requires FirstTwo(freq, c1, c2) && r < |freq| && freq[r] > 0 && r != c1 && r != c2
    requires SelectedInOrder(freq, r, w, i)
    ensures SelectedInOrder(Merge(freq, c1, c2), r, w, i)
    ensures Before(Merge(freq, c1, c2), r, c1)
  {
  }
}
