// jchuff.c: jpeg_gen_optimal_table as a whole, and why the tables it makes are usable.
module GenOptimalTable {
  import opened Numerals
  import opened CanonicalCode
  import opened HuffmanOptimality
  import opened HuffmanForest
  import opened HuffmanLengths
  import opened HuffmanLimit

  // ---- Listing the symbols ----

  function OfLength(size: seq<nat>, l: nat, n: nat): seq<nat>
    requires n <= |size|
  {
    if n == 0 then [] else OfLength(size, l, n - 1) + (if size[n - 1] == l then [n - 1] else [])
  }

  function UpToLength(size: seq<nat>, l: nat, n: nat): seq<nat>
    requires n <= |size|
  {
    if l == 0 then [] else UpToLength(size, l - 1, n) + OfLength(size, l, n)
  }

  lemma {:induction false} OfLengthCount(size: seq<nat>, l: nat, n: nat)
    requires n <= |size| && 1 <= l <= MAX_CLEN
    ensures |OfLength(size, l, n)| == Histogram(size[..n])[l]
    ensures forall i :: 0 <= i < |OfLength(size, l, n)| ==>
      OfLength(size, l, n)[i] < n && size[OfLength(size, l, n)[i]] == l
  {
    if n > 0 {
      OfLengthCount(size, l, n - 1);
      assert size[..n][..n - 1] == size[..n - 1];
    }
  }

  // Symbol s stands at a place of the list that belongs to its own length.
  predicate InPlace(size: seq<nat>, bits: seq<nat>, l: nat, s: nat, i: nat)
    requires |bits| == MAX_CLEN + 1 && l <= MAX_CLEN
  {
    s < |size| && 1 <= size[s] <= l && Offset(bits, size[s]) <= i < Offset(bits, size[s] + 1)
  }

  // The list has as many symbols of each length as the histogram says, in order of length.
  lemma {:induction false} UpToLengthOrder(size: seq<nat>, l: nat, n: nat)
    requires n <= |size| && l <= MAX_CLEN
    ensures |UpToLength(size, l, n)| == Offset(Histogram(size[..n]), l + 1)
    ensures forall i :: 0 <= i < |UpToLength(size, l, n)| ==>
      InPlace(size[..n], Histogram(size[..n]), l, UpToLength(size, l, n)[i], i)
  {
    if l > 0 {
      UpToLengthOrder(size, l - 1, n);
      OfLengthCount(size, l, n);
      var bits, shorter, same := Histogram(size[..n]), UpToLength(size, l - 1, n), OfLength(size, l, n);
      forall i | 0 <= i < |shorter + same|
        ensures InPlace(size[..n], bits, l, (shorter + same)[i], i)
      {
        if i < |shorter| {
          assert InPlace(size[..n], bits, l - 1, shorter[i], i);
        } else {
          assert size[..n][same[i - |shorter|]] == l;
        }
      }
    }
  }

  lemma {:induction false} OfLengthOnce(size: seq<nat>, l: nat, n: nat, u: nat)
    requires n <= |size|
    ensures Occurrences(OfLength(size, l, n), u) == if u < n && size[u] == l then 1 else 0
  {
    if n > 0 {
      OfLengthOnce(size, l, n - 1, u);
      var init := OfLength(size, l, n - 1);
      assert (init + [n - 1])[..|init|] == init;
      assert init + [] == init;
    }
  }

  lemma OnceMore(shorter: seq<nat>, same: seq<nat>, list: seq<nat>, u: nat)
    requires list == shorter + same
    ensures Occurrences(list, u) == Occurrences(shorter, u) + Occurrences(same, u)
  {
    OccurrencesAppend(shorter, same, u);
  }

  // Every symbol that has a length is listed exactly once.
  lemma {:induction false} UpToLengthOnce(size: seq<nat>, l: nat, n: nat, u: nat)
    requires n <= |size|
    ensures Occurrences(UpToLength(size, l, n), u) == if u < n && 1 <= size[u] <= l then 1 else 0
  {
    if l > 0 {
      UpToLengthOnce(size, l - 1, n, u);
      OfLengthOnce(size, l, n, u);
      OnceMore(UpToLength(size, l - 1, n), OfLength(size, l, n), UpToLength(size, l, n), u);
    }
  }

  predicate Increasing(s: seq<nat>, n: nat) {
    (forall i :: 0 <= i < |s| ==> s[i] < n) && forall i, j :: 0 <= i < j < |s| ==> s[i] < s[j]
  }

  lemma {:induction false} OfLengthOrder(size: seq<nat>, l: nat, n: nat)
    requires n <= |size|
    ensures Increasing(OfLength(size, l, n), n)
  {
    if n > 0 {
      OfLengthOrder(size, l, n - 1);
      var init := OfLength(size, l, n - 1);
      assert init + [] == init;
      assert Increasing(init + [n - 1], n);
    }
  }

  predicate InOrder(size: seq<nat>, l: nat, n: nat, s: nat, t: nat)
    requires n <= |size|
  {
    s < n && t < n && size[s] <= size[t] <= l && (size[s] == size[t] ==> s < t)
  }

  lemma ShorterFirst(size: seq<nat>, l: nat, n: nat, i: nat, j: nat)
    requires n <= |size| && 1 <= l <= MAX_CLEN && i < |UpToLength(size, l - 1, n)| && j < |OfLength(size, l, n)|
    ensures InOrder(size, l, n, UpToLength(size, l - 1, n)[i], OfLength(size, l, n)[j])
  {
    var s := UpToLength(size, l - 1, n)[i];
    OfLengthCount(size, l, n);
    UpToLengthOrder(size, l - 1, n);
    assert InPlace(size[..n], Histogram(size[..n]), l - 1, s, i);
    assert size[..n][s] == size[s];
  }

  lemma SameInOrder(size: seq<nat>, l: nat, n: nat, i: nat, j: nat)
    requires n <= |size| && 1 <= l <= MAX_CLEN && i < j < |OfLength(size, l, n)|
    ensures InOrder(size, l, n, OfLength(size, l, n)[i], OfLength(size, l, n)[j])
  {
    OfLengthOrder(size, l, n);
    OfLengthCount(size, l, n);
  }

  // Shorter codes go to the symbols listed first, and among codes of one length the symbols increase.
  lemma {:induction false} SymbolsInOrder(size: seq<nat>, l: nat, n: nat, i: nat, j: nat)
    requires n <= |size| && l <= MAX_CLEN && i < j < |UpToLength(size, l, n)|
    ensures InOrder(size, l, n, UpToLength(size, l, n)[i], UpToLength(size, l, n)[j])
  {
    var k := |UpToLength(size, l - 1, n)|;
    if j < k {
      SymbolsInOrder(size, l - 1, n, i, j);
    } else if i < k {
      ShorterFirst(size, l, n, i, j - k);
    } else {
      SameInOrder(size, l, n, i - k, j - k);
    }
  }

  lemma {:induction false} OffsetAtMost(size: seq<nat>, l: nat)
    requires l <= MAX_CLEN
    ensures Offset(Histogram(size), l + 1) <= |size|
  {
    if size == [] {
      OffsetZero(Histogram(size), l + 1);
    } else {
      var init, d := size[..|size| - 1], size[|size| - 1];
      OffsetAtMost(init, l);
      if 1 <= d <= MAX_CLEN {
        OffsetUpdate(Histogram(init), d, Histogram(init)[d] + 1, l + 1);
      }
    }
  }

  lemma {:induction false} OffsetZero(bits: seq<nat>, l: nat)
    requires l <= |bits| && forall d :: 0 <= d < |bits| ==> bits[d] == 0
    ensures Offset(bits, l) == 0
  {
    if l > 1 {
      OffsetZero(bits, l - 1);
    }
  }

  lemma {:induction false} OffsetUpdate(bits: seq<nat>, d: nat, v: nat, l: nat)
    requires 1 <= d < |bits| && l <= |bits|
    ensures Offset(bits[d := v], l) == Offset(bits, l) + (if d < l then v - bits[d] else 0)
  {
    if l > 1 {
      OffsetUpdate(bits, d, v, l - 1);
    }
  }

  // The list is at the start of the array, and there are zeros after it.
  ghost predicate Listed(huffval: seq<nat>, p: nat, list: seq<nat>) {
    && |huffval| == 256 && p <= 256 && huffval[..p] == list
    && forall k :: p <= k < 256 ==> huffval[k] == 0
  }

  lemma ListedOne(was: seq<nat>, now: seq<nat>, p: nat, list: seq<nat>, j: nat)
    requires Listed(was, p, list) && p < 256 && now == was[p := j]
    ensures Listed(now, p + 1, list + [j])
  {
    assert now[..p + 1] == was[..p] + [j];
  }

  lemma ListedNext(before: seq<nat>, size: seq<nat>, l: nat, j: nat)
    requires j < |size|
    ensures before + OfLength(size, l, j + 1) ==
      if size[j] == l then (before + OfLength(size, l, j)) + [j] else before + OfLength(size, l, j)
  {
    assert OfLength(size, l, j) + [] == OfLength(size, l, j);
    Reassociate(before, OfLength(size, l, j), [j]);
  }

  // The symbols whose codes have length l.
  method ListLength(codesize: array<nat>, l: nat, huffval: array<nat>, start: nat, ghost before: seq<nat>, ghost n: nat)
    returns (p: nat)
    requires codesize.Length == NUM_SYMBOLS && huffval.Length == 256 && codesize != huffval && n == 256
    requires 1 <= l <= MAX_CLEN && before == UpToLength(codesize[..], l - 1, n) && Listed(huffval[..], start, before)
    modifies huffval
    ensures Listed(huffval[..], p, before + OfLength(codesize[..], l, n))
  {
    p := start;
    ghost var size := codesize[..];
    assert before + [] == before;
    for j := 0 to 256
      invariant codesize[..] == size && Listed(huffval[..], p, before + OfLength(size, l, j))
    {
      PartialFits(size, l, j);
      ListedNext(before, size, l, j);
      if codesize[j] == l {
        ghost var was := huffval[..];
        huffval[p] := j;
        ListedOne(was, huffval[..], p, before + OfLength(size, l, j), j);
        p := p + 1;
      }
    }
  }

  method ListUpTo(codesize: array<nat>, top: nat, huffval: array<nat>, ghost n: nat) returns (p: nat)
    requires codesize.Length == NUM_SYMBOLS && huffval.Length == 256 && codesize != huffval && top == MAX_CLEN && n == 256
    requires Listed(huffval[..], 0, [])
    modifies huffval
    ensures Listed(huffval[..], p, UpToLength(codesize[..], top, n))
  {
    p := 0;
    ghost var size := codesize[..];
    for l := 1 to top + 1
      invariant codesize[..] == size && Listed(huffval[..], p, UpToLength(size, l - 1, n))
    {
      p := ListLength(codesize, l, huffval, p, UpToLength(size, l - 1, n), n);
    }
  }

  method ListSymbols(codesize: array<nat>) returns (huffval: array<nat>, p: nat)
    requires codesize.Length == NUM_SYMBOLS
    ensures fresh(huffval) && huffval.Length == 256 && p <= 256
    ensures huffval[..p] == UpToLength(codesize[..], MAX_CLEN, 256)
    ensures forall i :: p <= i < 256 ==> huffval[i] == 0
  {
    huffval := new nat[256](_ => 0);
    p := ListUpTo(codesize, MAX_CLEN, huffval, 256);
    assert huffval[..][..p] == huffval[..p];
  }

  // There is room for one more symbol while one of the length at hand remains.
  lemma PartialFits(size: seq<nat>, l: nat, j: nat)
    requires |size| >= 256 && 1 <= l <= MAX_CLEN && j < 256
    ensures size[j] == l ==> |UpToLength(size, l - 1, 256)| + |OfLength(size, l, j)| < 256
  {
    UpToLengthOrder(size, l, 256);
    OffsetAtMost(size[..256], l);
    OfLengthGrows(size, l, j + 1, 256);
  }

  lemma {:induction false} OfLengthGrows(size: seq<nat>, l: nat, m: nat, n: nat)
    requires m <= n <= |size|
    ensures |OfLength(size, l, m)| <= |OfLength(size, l, n)|
    decreases n
  {
    if m < n {
      OfLengthGrows(size, l, m, n - 1);
    }
  }

  // ---- The lengths are fit for the second half ----

  // Counts that jpeg_gen_optimal_table can take: the pseudo-symbol has count 1, some real symbol
  // is used, the byte-sized bits[] can count all symbols, and the searches can see all weights.
  ghost predicate Countable(count: seq<nat>) {
    && |count| == NUM_SYMBOLS && count[PSEUDO_SYMBOL] == 1
    && Sum(count) <= MAX_COUNT && 2 <= Used(count) <= 255
  }

  lemma {:induction false} AnotherUsed(count: seq<nat>, u: nat) returns (v: nat)
    requires u < |count| && Used(count) >= 2
    ensures v < |count| && v != u && count[v] > 0
  {
    var n := |count| - 1;
    if u == n {
      v := SomeUsed(count[..n]);
    } else if count[n] > 0 {
      v := n;
    } else {
      v := AnotherUsed(count[..n], u);
    }
  }

  lemma {:induction false} SomeUsed(count: seq<nat>) returns (v: nat)
    requires Used(count) >= 1
    ensures v < |count| && count[v] > 0
  {
    var n := |count| - 1;
    if count[n] > 0 {
      v := n;
    } else {
      v := SomeUsed(count[..n]);
    }
  }

  // With two symbols in a complete tree, neither is the root.
  lemma SizesPositive(count: seq<nat>, size: seq<nat>, u: nat)
    requires OptimalLengths(count, size) && u < |count| && count[u] > 0 && Used(count) >= 2
    ensures size[u] > 0
  {
    var v := AnotherUsed(count, u);
    var k := KraftTerms(count, size, |count|);
    assert k[v] > 0 && (size[u] == 0 ==> k[u] == Pow2(|count|));
    SumAtLeast(k, u, v);
  }

  lemma {:induction false} UsedSame(count: seq<nat>, size: seq<nat>)
    requires |count| == |size| && forall u :: 0 <= u < |count| ==> (count[u] > 0 <==> size[u] > 0)
    ensures Used(count) == Used(size)
  {
    if count != [] {
      UsedSame(count[..|count| - 1], size[..|size| - 1]);
    }
  }

  lemma SizesAgree(count: seq<nat>, size: seq<nat>)
    requires Countable(count) && HuffmanSizes(count, size, PSEUDO_SYMBOL)
    ensures forall u :: 0 <= u < |count| ==> (count[u] > 0 <==> size[u] > 0)
    ensures Used(size) == Used(count)
  {
    forall u | 0 <= u < |count|
      ensures count[u] > 0 <==> size[u] > 0
    {
      if count[u] > 0 {
        SizesPositive(count, size, u);
      }
    }
    UsedSame(count, size);
  }

  predicate AllWithin(size: seq<nat>, limit: nat) {
    forall u :: 0 <= u < |size| ==> size[u] <= limit
  }

  lemma HistogramComplete(count: seq<nat>, size: seq<nat>)
    requires Countable(count) && HuffmanSizes(count, size, PSEUDO_SYMBOL) && AllWithin(size, MAX_CLEN)
    ensures Complete(Histogram(size), MAX_CLEN) && Sum(Histogram(size)) == Used(count)
  {
    SizesAgree(count, size);
    HistogramSum(size);
    HistogramKraft(count, size, |count|);
    Pow2Add(MAX_CLEN, |count| - MAX_CLEN);
    SameFactor(Codes(Histogram(size), MAX_CLEN), Pow2(MAX_CLEN), Pow2(|count| - MAX_CLEN));
  }

  // ---- The whole procedure ----

  function Padded(s: seq<nat>, n: nat): seq<nat>
    requires |s| <= n
  {
    s + seq(n - |s|, _ => 0)
  }

  // The table made from code lengths: bits[] limited and relieved of the pseudo-symbol, and the
  // symbols in order of their original lengths.
  ghost function TableFor(size: seq<nat>): (htbl: HuffTable)
    requires |size| == NUM_SYMBOLS && Complete(Histogram(size), MAX_CLEN)
    requires |UpToLength(size, MAX_CLEN, 256)| <= 256
    ensures |htbl.bits| == 17 && |htbl.huffval| == 256
  {
    CompleteInUse(Limit(Histogram(size), MAX_CLEN));
    HuffTable(Reduced(Limit(Histogram(size), MAX_CLEN)), Padded(UpToLength(size, MAX_CLEN, 256), 256))
  }

  lemma ListFits(size: seq<nat>)
    requires |size| == NUM_SYMBOLS
    ensures |UpToLength(size, MAX_CLEN, 256)| <= 256
  {
    UpToLengthOrder(size, MAX_CLEN, 256);
    OffsetAtMost(size[..256], MAX_CLEN);
  }

  method RemovePseudo(bits: array<nat>) returns (final: seq<nat>)
    requires Complete(bits[..], 16)
    modifies bits
    ensures LongestUpTo(old(bits[..]), 16) >= 1 && final == Reduced(old(bits[..]))
  {
    CompleteInUse(bits[..]);
    var i := FindLongest(bits, 16);
    bits[i] := bits[i] - 1;
    final := bits[..17];
  }

  // The counts come from those of the histogram by the adjustments of section K.2, and by dropping
  // one of the longest codes that are left.
  ghost predicate LimitedTable(bits: seq<nat>, bits': seq<nat>) {
    exists states :: Adjustments(states) && states[0] == bits && LongestDropped(states[|states| - 1], bits')
  }

  // jpeg_gen_optimal_table.  It fails with JERR_HUFF_CLEN_OVERFLOW on a code length above 32.
  method GenOptimalTable(freq: array<nat>) returns (ok: bool, htbl: HuffTable, ghost size: seq<nat>)
    requires freq.Length == NUM_SYMBOLS && Countable(freq[..][PSEUDO_SYMBOL := 1])
    modifies freq
    ensures HuffmanSizes(old(freq[..])[PSEUDO_SYMBOL := 1], size, PSEUDO_SYMBOL)
    ensures ok <==> AllWithin(size, MAX_CLEN)
    ensures ok ==> Complete(Histogram(size), MAX_CLEN) && |UpToLength(size, MAX_CLEN, 256)| <= 256
    ensures ok ==> htbl == TableFor(size) && LimitedTable(Histogram(size), htbl.bits)
  {
    freq[PSEUDO_SYMBOL] := 1;
    ghost var count := freq[..];
    assert count == old(freq[..])[PSEUDO_SYMBOL := 1];
    var codesize := BuildLengths(freq);
    size := codesize[..];
    var bits;
    ok, bits := CountLengths(codesize);
    if !ok {
      htbl := HuffTable([], []);
      return;
    }
    HistogramComplete(count, size);
    ListFits(size);
    LimitLengths(bits);
    ReducedLegal(bits[..]);
    var final := RemovePseudo(bits);
    var huffval, p := ListSymbols(codesize);
    htbl := HuffTable(final, huffval[..]);
    assert huffval[..] == Padded(UpToLength(size, MAX_CLEN, 256), 256);
  }
}
