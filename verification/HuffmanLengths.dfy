// jchuff.c: the first half of jpeg_gen_optimal_table, which assigns code lengths by Huffman's
// procedure.  Trees are kept as linked chains of their leaves.
module HuffmanLengths {
  import opened HuffmanOptimality
  import opened HuffmanForest

  const NUM_SYMBOLS := 257
  const PSEUDO_SYMBOL := 256
  const MAX_COUNT := 1_000_000_000

  // ---- The two linear searches ----

  // The root of smallest weight other than skip, the largest index on ties; -1 if there is none.
  method FindSmallest(freq: array<nat>, skip: int) returns (c: int)
    requires forall i :: 0 <= i < freq.Length ==> freq[i] <= MAX_COUNT
    ensures -1 <= c < freq.Length
    ensures c == -1 ==> forall j :: 0 <= j < freq.Length && j != skip ==> freq[j] == 0
    ensures c >= 0 ==> freq[c] > 0 && c != skip
    ensures c >= 0 ==> forall j :: 0 <= j < freq.Length && j != skip && j != c && freq[j] > 0 ==>
      Before(freq[..], c, j)
  {
    c := -1;
    var v := MAX_COUNT;
    for i := 0 to freq.Length
      invariant -1 <= c < i
      invariant c == -1 ==> v == MAX_COUNT
      invariant c >= 0 ==> c != skip && freq[c] > 0 && v == freq[c]
      invariant c == -1 ==> forall j :: 0 <= j < i && j != skip ==> freq[j] == 0
      invariant c >= 0 ==> forall j :: 0 <= j < i && j != skip && j != c && freq[j] > 0 ==>
        Before(freq[..], c, j)
    {
      if freq[i] != 0 && freq[i] <= v && i != skip {
        v := freq[i];
        c := i;
      }
    }
  }

  lemma {:induction false} PartAtMostSum(s: seq<nat>, i: nat)
    requires i < |s|
    ensures s[i] <= Sum(s)
  {
    if i < |s| - 1 {
      PartAtMostSum(s[..|s| - 1], i);
    }
  }

  method SelectTwo(freq: array<nat>) returns (c1: int, c2: int)
    requires Sum(freq[..]) <= MAX_COUNT
    ensures -1 <= c1 < freq.Length && -1 <= c2 < freq.Length
    ensures c2 >= 0 ==> c1 >= 0 && FirstTwo(freq[..], c1, c2)
    ensures c2 < 0 ==> forall j :: 0 <= j < freq.Length && j != c1 ==> freq[j] == 0
    ensures c1 >= 0 ==> freq[c1] > 0
  {
    forall j | 0 <= j < freq.Length
      ensures freq[j] <= MAX_COUNT
    {
      PartAtMostSum(freq[..], j);
    }
    c1 := FindSmallest(freq, -1);
    c2 := FindSmallest(freq, c1);
  }

  // ---- Chains of leaves ----

  ghost predicate IsChain(others: seq<int>, chain: seq<nat>) {
    && chain != []
    && (forall j :: 0 <= j < |chain| ==> chain[j] < |others|)
    && (forall j :: 0 <= j < |chain| - 1 ==> others[chain[j]] == chain[j + 1])
    && others[chain[|chain| - 1]] == -1
  }

  lemma ChainGoesOn(others: seq<int>, chain: seq<nat>, j: nat)
    requires IsChain(others, chain) && j < |chain|
    ensures j < |chain| - 1 ==> others[chain[j]] >= 0
  {
    assert j < |chain| - 1 ==> others[chain[j]] == chain[j + 1];
  }

  ghost predicate Distinct(chain: seq<nat>) {
    forall i, j :: 0 <= i < j < |chain| ==> chain[i] != chain[j]
  }

  // chain lists exactly the leaves of the tree r, r first.
  ghost predicate Lists(count: seq<nat>, root: seq<nat>, r: nat, chain: seq<nat>)
    requires |count| == |root|
  {
    && chain != [] && chain[0] == r && Distinct(chain)
    && (forall j :: 0 <= j < |chain| ==> chain[j] < |count|)
    && (forall u :: 0 <= u < |count| ==> (u in chain <==> Within(count, root, r, u)))
  }

  ghost predicate Chained(count: seq<nat>, fo: Forest, others: seq<int>, chains: seq<seq<nat>>)
    requires Shape(count, fo)
  {
    && |chains| == |count| == |others|
    && forall r :: 0 <= r < |count| && fo.freq[r] > 0 ==>
         IsChain(others, chains[r]) && Lists(count, fo.root, r, chains[r])
  }

  function Bumped(size: seq<nat>, chain: seq<nat>): seq<nat> {
    seq(|size|, u requires 0 <= u < |size| => if u in chain then size[u] + 1 else size[u])
  }

  // Lengthens the codes of a whole chain and returns its last symbol.
  method BumpChain(codesize: array<nat>, others: array<int>, c: nat, ghost chain: seq<nat>)
    returns (last: nat)
    requires codesize.Length == others.Length
    requires IsChain(others[..], chain) && Distinct(chain) && chain[0] == c
    modifies codesize
    ensures codesize[..] == Bumped(old(codesize[..]), chain)
    ensures last == chain[|chain| - 1]
  {
    ghost var j, links := 0, others[..];
    last := c;
    codesize[last] := codesize[last] + 1;
    while others[last] >= 0
      invariant 0 <= j < |chain| && last == chain[j] && others[..] == links
      invariant codesize[..] == Bumped(old(codesize[..]), chain[..j + 1])
      decreases |chain| - j
    {
      assert links[chain[j]] == others[last];
      assert j < |chain| - 1 && links[chain[j]] == chain[j + 1];
      last := others[last];
      codesize[last] := codesize[last] + 1;
      j := j + 1;
      assert chain[..j + 1] == chain[..j] + [chain[j]];
    }
    ChainGoesOn(links, chain, j);
    assert chain[..j + 1] == chain;
  }

  // ---- One merge ----

  function JoinedChains(chains: seq<seq<nat>>, c1: nat, c2: nat): seq<seq<nat>>
    requires c1 < |chains| && c2 < |chains|
  {
    chains[c1 := chains[c1] + chains[c2]][c2 := []]
  }

  lemma ChainUntouched(others: seq<int>, chain: seq<nat>, u: nat, v: int)
    requires IsChain(others, chain) && u < |others| && u !in chain
    ensures IsChain(others[u := v], chain)
  {
  }

  lemma ChainsJoin(count: seq<nat>, fo: Forest, others: seq<int>, chains: seq<seq<nat>>, c1: nat, c2: nat)
    requires Shape(count, fo) && Chained(count, fo, others, chains) && c1 < |count| && c2 < |count| && c1 != c2
    requires fo.freq[c1] > 0 && fo.freq[c2] > 0
    ensures Shape(count, Merged(count, fo, c1, c2))
    ensures var last := chains[c1][|chains[c1]| - 1];
      last < |others| &&
      Chained(count, Merged(count, fo, c1, c2), others[last := c2], JoinedChains(chains, c1, c2))
  {
    MergeKeepsShape(count, fo, c1, c2);
    var fo' := Merged(count, fo, c1, c2);
    var last := chains[c1][|chains[c1]| - 1];
    var others', chains' := others[last := c2], JoinedChains(chains, c1, c2);
    forall r | 0 <= r < |count| && fo'.freq[r] > 0
      ensures IsChain(others', chains'[r]) && Lists(count, fo'.root, r, chains'[r])
    {
      if r == c1 {
        ChainJoined(count, fo.root, others, c1, c2, chains[c1], chains[c2], fo'.root);
      } else {
        ChainElsewhere(count, fo, others, chains, c1, c2, r, last);
      }
    }
  }

  lemma ChainElsewhere(count: seq<nat>, fo: Forest, others: seq<int>, chains: seq<seq<nat>>, c1: nat, c2: nat, r: nat, last: nat)
    requires Shape(count, fo) && Chained(count, fo, others, chains) && c1 < |count| && c2 < |count| && r < |count|
    requires fo.freq[c1] > 0 && fo.freq[r] > 0 && r != c1 && r != c2 && last < |others| && last in chains[c1]
    ensures IsChain(others[last := c2], chains[r]) && Lists(count, Merged(count, fo, c1, c2).root, r, chains[r])
  {
    assert last !in chains[r];
    ChainUntouched(others, chains[r], last, c2);
  }

  lemma ChainJoined(count: seq<nat>, root: seq<nat>, others: seq<int>, c1: nat, c2: nat,
                    a: seq<nat>, b: seq<nat>, root': seq<nat>)
    requires |count| == |root| == |root'| == |others| && c1 != c2 && c2 < |count|
    requires IsChain(others, a) && Lists(count, root, c1, a)
    requires IsChain(others, b) && Lists(count, root, c2, b)
    requires forall u :: 0 <= u < |count| ==> root'[u] == if root[u] == c2 then c1 else root[u]
    ensures IsChain(others[a[|a| - 1] := c2], a + b) && Lists(count, root', c1, a + b)
  {
    var others', both := others[a[|a| - 1] := c2], a + b;
    forall i, j | 0 <= i < |a| && 0 <= j < |b|
      ensures a[i] != b[j]
    {
      assert a[i] in a && b[j] in b;
    }
    forall j | 0 <= j < |both| - 1
      ensures others'[both[j]] == both[j + 1]
    {
      if j < |a| - 1 {
        assert both[j] == a[j] && both[j + 1] == a[j + 1];
      } else if j >= |a| {
        assert both[j] == b[j - |a|] && both[j + 1] == b[j - |a| + 1];
      }
    }
    assert both[|both| - 1] == b[|b| - 1];
    forall u | 0 <= u < |count|
      ensures u in both <==> Within(count, root', c1, u)
    {
      assert u in both <==> u in a || u in b;
    }
  }

  // The sizes after both chains are bumped are those of the merged forest.
  lemma BumpedTwice(count: seq<nat>, fo: Forest, c1: nat, c2: nat, a: seq<nat>, b: seq<nat>)
    requires Shape(count, fo) && c1 < |count| && c2 < |count| && c1 != c2
    requires Lists(count, fo.root, c1, a) && Lists(count, fo.root, c2, b)
    ensures Bumped(Bumped(fo.size, a), b) == Merged(count, fo, c1, c2).size
  {
    var twice, size' := Bumped(Bumped(fo.size, a), b), Merged(count, fo, c1, c2).size;
    assert |twice| == |size'|;
    forall u | 0 <= u < |count|
      ensures twice[u] == size'[u]
    {
      assert u in a <==> Within(count, fo.root, c1, u);
      assert u in b <==> Within(count, fo.root, c2, u);
    }
    assert twice == size';
  }

  method MergeCounts(freq: array<nat>, c1: nat, c2: nat)
    requires c1 < freq.Length && c2 < freq.Length && c1 != c2
    modifies freq
    ensures freq[..] == Merge(old(freq[..]), c1, c2)
  {
    freq[c1] := freq[c1] + freq[c2];
    freq[c2] := 0;
  }

  method MergeTrees(freq: array<nat>, codesize: array<nat>, others: array<int>, c1: nat, c2: nat,
                    ghost count: seq<nat>, ghost fo: Forest, ghost chains: seq<seq<nat>>)
    requires freq != codesize && freq.Length == codesize.Length == others.Length == |count|
    requires fo.freq == freq[..] && fo.size == codesize[..] && Shape(count, fo)
    requires Chained(count, fo, others[..], chains)
    requires c1 < |count| && c2 < |count| && c1 != c2 && freq[c1] > 0 && freq[c2] > 0
    modifies freq, codesize, others
    ensures freq[..] == Merged(count, fo, c1, c2).freq
    ensures codesize[..] == Merged(count, fo, c1, c2).size
    ensures Shape(count, Merged(count, fo, c1, c2))
    ensures Chained(count, Merged(count, fo, c1, c2), others[..], JoinedChains(chains, c1, c2))
  {
    MergeCounts(freq, c1, c2);
    ghost var links := others[..];
    var last := BumpChain(codesize, others, c1, chains[c1]);
    ChainsJoin(count, fo, others[..], chains, c1, c2);
    assert last in chains[c1] && last !in chains[c2];
    ChainUntouched(links, chains[c2], last, c2);
    others[last] := c2;
    assert others[..] == links[last := c2];
    var last2 := BumpChain(codesize, others, c2, chains[c2]);
    BumpedTwice(count, fo, c1, c2, chains[c1], chains[c2]);
  }

  // ---- The merge loop ----

  // What the merge loop leaves: least-cost lengths of one complete tree, none for unused symbols,
  // no length out of proportion to the total count, and none above that of symbol p.
  ghost predicate HuffmanSizes(count: seq<nat>, size: seq<nat>, p: nat) {
    && p < |count| && OptimalLengths(count, size) && UnusedZero(count, size)
    && forall u :: 0 <= u < |count| && count[u] > 0 ==> Fib(size[u] + 2) <= Sum(count) && size[u] <= size[p]
  }

  ghost predicate LoopSound(count: seq<nat>, fo: Forest, p: nat, w: nat, i: nat) {
    && p < |count| && count[p] > 0
    && Balanced(count, fo) && Economical(count, fo) && Heavy(count, fo) && Deepest(count, fo, p, w, i)
    && UnusedZero(count, fo.size)
  }

  ghost predicate UnusedZero(count: seq<nat>, size: seq<nat>)
    requires |count| == |size|
  {
    forall u :: 0 <= u < |count| && count[u] == 0 ==> size[u] == 0
  }

  lemma LoopStarts(count: seq<nat>, p: nat)
    requires p == |count| - 1 && count[p] == 1
    ensures LoopSound(count, Planted(count), p, 0, 0)
  {
    PlantedSound(count);
    PlantedHeavy(count);
    PlantedDeepest(count, p);
  }

  lemma DeepestSteps(count: seq<nat>, fo: Forest, p: nat, w: nat, i: nat, c1: nat, c2: nat)
    returns (w': nat, i': nat)
    requires Shape(count, fo) && p < |count| && count[p] > 0 && Deepest(count, fo, p, w, i)
    requires FirstTwo(fo.freq, c1, c2)
    ensures Shape(count, Merged(count, fo, c1, c2))
    ensures Deepest(count, Merged(count, fo, c1, c2), p, w', i')
  {
    if fo.root[p] == c1 || fo.root[p] == c2 {
      MergeIntoDeepest(count, fo, p, w, i, c1, c2);
      w', i' := fo.freq[c2], c2;
    } else {
      MergeBesideDeepest(count, fo, p, w, i, c1, c2);
      w', i' := w, i;
    }
  }

  lemma UnusedStayZero(count: seq<nat>, fo: Forest, c1: nat, c2: nat)
    requires Shape(count, fo) && UnusedZero(count, fo.size) && c1 < |count| && c2 < |count| && c1 != c2
    ensures UnusedZero(count, Merged(count, fo, c1, c2).size)
  {
  }

  lemma LoopSteps(count: seq<nat>, fo: Forest, p: nat, w: nat, i: nat, c1: nat, c2: nat)
    returns (w': nat, i': nat)
    requires LoopSound(count, fo, p, w, i) && FirstTwo(fo.freq, c1, c2)
    ensures LoopSound(count, Merged(count, fo, c1, c2), p, w', i')
    ensures Roots(Merged(count, fo, c1, c2).freq) < Roots(fo.freq)
  {
    RootsDrop(fo.freq, c1, c2);
    MergeKeepsBalance(count, fo, c1, c2);
    MergeKeepsEconomy(count, fo, c1, c2);
    MergeKeepsHeavy(count, fo, c1, c2);
    UnusedStayZero(count, fo, c1, c2);
    w', i' := DeepestSteps(count, fo, p, w, i, c1, c2);
  }

  lemma LoopEnds(count: seq<nat>, fo: Forest, p: nat, w: nat, i: nat, c: int)
    requires LoopSound(count, fo, p, w, i) && c < |count|
    requires forall j :: 0 <= j < |count| && j != c ==> fo.freq[j] == 0
    ensures HuffmanSizes(count, fo.size, p)
  {
    assert fo.freq[fo.root[p]] > 0;
    LastRootOptimal(count, fo, c);
    SumSingle(fo.freq, c);
  }

  function Singletons(count: seq<nat>): seq<seq<nat>> {
    seq(|count|, i => [i])
  }

  lemma ChainsStart(count: seq<nat>, others: seq<int>)
    requires |others| == |count| && forall i :: 0 <= i < |others| ==> others[i] == -1
    ensures Shape(count, Planted(count)) && Chained(count, Planted(count), others, Singletons(count))
  {
  }

  // freq[PSEUDO_SYMBOL] has been set to 1 already.
  method BuildLengths(freq: array<nat>) returns (codesize: array<nat>)
    requires freq.Length == NUM_SYMBOLS && freq[PSEUDO_SYMBOL] == 1 && Sum(freq[..]) <= MAX_COUNT
    modifies freq
    ensures fresh(codesize) && codesize.Length == NUM_SYMBOLS
    ensures HuffmanSizes(old(freq[..]), codesize[..], PSEUDO_SYMBOL)
  {
    ghost var count := freq[..];
    codesize := new nat[NUM_SYMBOLS](_ => 0);
    var others := new int[NUM_SYMBOLS](_ => -1);
    LoopStarts(count, PSEUDO_SYMBOL);
    ChainsStart(count, others[..]);
    assert Planted(count).size == codesize[..];
    MergeAll(freq, codesize, others, count);
  }

  // One round of the loop: what it keeps, and what it moves forward.
  method MergeTwo(freq: array<nat>, codesize: array<nat>, others: array<int>, c1: nat, c2: nat, ghost count: seq<nat>,
                  ghost fo: Forest, ghost chains: seq<seq<nat>>, ghost w: nat, ghost i: nat)
    returns (ghost fo': Forest, ghost chains': seq<seq<nat>>, ghost w': nat, ghost i': nat)
    requires freq != codesize && freq.Length == codesize.Length == others.Length == |count| == NUM_SYMBOLS
    requires fo.freq == freq[..] && fo.size == codesize[..] && LoopSound(count, fo, PSEUDO_SYMBOL, w, i)
    requires Chained(count, fo, others[..], chains) && FirstTwo(fo.freq, c1, c2)
    modifies freq, codesize, others
    ensures fo'.freq == freq[..] && fo'.size == codesize[..] && LoopSound(count, fo', PSEUDO_SYMBOL, w', i')
    ensures Chained(count, fo', others[..], chains') && Roots(fo'.freq) < Roots(fo.freq)
  {
    w', i' := LoopSteps(count, fo, PSEUDO_SYMBOL, w, i, c1, c2);
    MergeTrees(freq, codesize, others, c1, c2, count, fo, chains);
    fo', chains' := Merged(count, fo, c1, c2), JoinedChains(chains, c1, c2);
  }

  method MergeAll(freq: array<nat>, codesize: array<nat>, others: array<int>, ghost count: seq<nat>)
    requires freq != codesize && freq.Length == codesize.Length == others.Length == |count| == NUM_SYMBOLS
    requires count == freq[..] && Sum(count) <= MAX_COUNT
    requires Planted(count).size == codesize[..] && LoopSound(count, Planted(count), PSEUDO_SYMBOL, 0, 0)
    requires Chained(count, Planted(count), others[..], Singletons(count))
    modifies freq, codesize, others
    ensures HuffmanSizes(count, codesize[..], PSEUDO_SYMBOL)
  {
    ghost var fo, chains := Planted(count), Singletons(count);
    ghost var w, i := 0, 0;
    while true
      invariant fo.freq == freq[..] && fo.size == codesize[..]
      invariant LoopSound(count, fo, PSEUDO_SYMBOL, w, i)
      invariant Chained(count, fo, others[..], chains)
      decreases Roots(fo.freq)
    {
      var c1, c2 := SelectTwo(freq);
      if c2 < 0 {
        LoopEnds(count, fo, PSEUDO_SYMBOL, w, i, c1);
        return;
      }
      fo, chains, w, i := MergeTwo(freq, codesize, others, c1, c2, count, fo, chains, w, i);
    }
  }
}
