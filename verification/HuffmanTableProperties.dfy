// What the tables made by jpeg_gen_optimal_table are good for.
module HuffmanTableProperties {
  import opened CanonicalCode
  import opened HuffmanOptimality
  import opened HuffmanForest
  import opened HuffmanLengths
  import opened HuffmanLimit
  import opened GenOptimalTable

  // A table whose first n = NumCodes(bits) symbols are the ones in use, each listed once, with a
  // legal canonical code, and counts that fit in bytes.
  ghost predicate Usable(count: seq<nat>, htbl: HuffTable) {
    && IsTable(htbl) && Legal(htbl.bits) && |count| == NUM_SYMBOLS
    && forall s :: 0 <= s < 256 ==>
         Occurrences(htbl.huffval[..NumCodes(htbl.bits)], s) == if count[s] > 0 then 1 else 0
  }

  // After length limiting, the number of codes is still the number of listed symbols.
  lemma PseudoIsLast(count: seq<nat>, size: seq<nat>)
    requires Countable(count) && HuffmanSizes(count, size, PSEUDO_SYMBOL)
    ensures |size| == NUM_SYMBOLS && Used(size) == Used(size[..256]) + 1
  {
    SizesAgree(count, size);
    assert count[PSEUDO_SYMBOL] > 0;
  }

  lemma ListMatchesCodes(count: seq<nat>, size: seq<nat>)
    requires Countable(count) && HuffmanSizes(count, size, PSEUDO_SYMBOL) && AllWithin(size, MAX_CLEN)
    requires Complete(Histogram(size), MAX_CLEN) && |UpToLength(size, MAX_CLEN, 256)| <= 256
    ensures NumCodes(TableFor(size).bits) == |UpToLength(size, MAX_CLEN, 256)|
  {
    var own := size[..256];
    SizesAgree(count, size);
    HistogramSum(size);
    HistogramSum(own);
    PseudoIsLast(count, size);
    ReducedLegal(Limit(Histogram(size), MAX_CLEN));
    UpToLengthOrder(size, MAX_CLEN, 256);
    WholeOffset(Histogram(own));
  }

  lemma WholeOffset(bits: seq<nat>)
    requires |bits| > 0 && bits[0] == 0
    ensures Offset(bits, |bits|) == Sum(bits)
  {
    OffsetIsSum(bits, |bits|);
    assert bits[..|bits|] == bits;
  }

  lemma TableUsable(count: seq<nat>, size: seq<nat>)
    requires Countable(count) && HuffmanSizes(count, size, PSEUDO_SYMBOL) && AllWithin(size, MAX_CLEN)
    requires Complete(Histogram(size), MAX_CLEN) && |UpToLength(size, MAX_CLEN, 256)| <= 256
    ensures Usable(count, TableFor(size))
  {
    var list, htbl := UpToLength(size, MAX_CLEN, 256), TableFor(size);
    SizesAgree(count, size);
    ReducedLegal(Limit(Histogram(size), MAX_CLEN));
    ListMatchesCodes(count, size);
    UpToLengthOrder(size, MAX_CLEN, 256);
    assert htbl.huffval[..|list|] == list;
    forall i | 0 <= i < 256
      ensures htbl.huffval[i] <= 255
    {
      if i < |list| {
        assert InPlace(size[..256], Histogram(size[..256]), MAX_CLEN, list[i], i);
      }
    }
    forall s | 0 <= s < 256
      ensures Occurrences(list, s) == if count[s] > 0 then 1 else 0
    {
      UpToLengthOnce(size, MAX_CLEN, 256, s);
    }
    BytesSuffice(count, size);
  }

  lemma BytesSuffice(count: seq<nat>, size: seq<nat>)
    requires Countable(count) && HuffmanSizes(count, size, PSEUDO_SYMBOL) && AllWithin(size, MAX_CLEN)
    requires Complete(Histogram(size), MAX_CLEN) && |UpToLength(size, MAX_CLEN, 256)| <= 256
    ensures forall d :: 0 <= d < 17 ==> TableFor(size).bits[d] <= 255
  {
    HistogramComplete(count, size);
    var bits := Limit(Histogram(size), MAX_CLEN);
    forall d | 0 <= d < 17
      ensures TableFor(size).bits[d] <= 255
    {
      PartAtMostSum(bits, d);
    }
  }

  // ---- When no length has to be limited ----

  lemma {:induction false} HistogramZero(size: seq<nat>, d: nat)
    requires 1 <= d <= MAX_CLEN && forall u :: 0 <= u < |size| ==> size[u] != d
    ensures Histogram(size)[d] == 0
  {
    if size != [] {
      HistogramZero(size[..|size| - 1], d);
    }
  }

  lemma LimitNoop(bits: seq<nat>, i: nat)
    requires Complete(bits, 16) && 16 <= i <= MAX_CLEN
    ensures Limit(bits, i) == bits
  {
    if i > 16 {
      LimitNoop(bits, i - 1);
    }
  }

  // The code given to a listed symbol is then as long as Huffman's procedure made it, so the
  // optimality of the lengths is that of the table.
  lemma LengthsKept(count: seq<nat>, size: seq<nat>, i: nat)
    requires Countable(count) && HuffmanSizes(count, size, PSEUDO_SYMBOL) && AllWithin(size, 16)
    requires Complete(Histogram(size), MAX_CLEN) && |UpToLength(size, MAX_CLEN, 256)| <= 256
    requires i < NumCodes(TableFor(size).bits) && i < 256
    ensures TableFor(size).huffval[i] < 256
    ensures LenAt(TableFor(size).bits, i) == size[TableFor(size).huffval[i]]
  {
    var bits, own := Histogram(size), Histogram(size[..256]);
    forall d | 16 < d <= MAX_CLEN
      ensures bits[d] == 0
    {
      HistogramZero(size, d);
    }
    LimitNoop(bits, MAX_CLEN);
    ListMatchesCodes(count, size);
    PseudoLongest(count, size);
    UpToLengthOrder(size, MAX_CLEN, 256);
    var s := UpToLength(size, MAX_CLEN, 256)[i];
    assert InPlace(size[..256], own, MAX_CLEN, s, i);
    OffsetCut(own, size[s], 17);
    OffsetCut(own, size[s] + 1, 17);
    LenUnique(own[..17], i, size[s]);
  }

  lemma PseudoLongest(count: seq<nat>, size: seq<nat>)
    requires Countable(count) && HuffmanSizes(count, size, PSEUDO_SYMBOL) && AllWithin(size, 16)
    ensures LongestUpTo(Histogram(size), 16) >= 1
    ensures Reduced(Histogram(size)) == Histogram(size[..256])[..17]
  {
    SizesPositive(count, size, PSEUDO_SYMBOL);
    assert size == size[..256] + [size[256]];
    TopDropped(size[..256], size[256], size);
  }

  // Dropping a symbol of the greatest length.
  lemma TopDropped(init: seq<nat>, d: nat, size: seq<nat>)
    requires size == init + [d] && 1 <= d <= 16 && AllWithin(init, d)
    ensures LongestUpTo(Histogram(size), 16) == d
    ensures Reduced(Histogram(size)) == Histogram(init)[..17]
  {
    assert size[..|size| - 1] == init;
    var bits := Histogram(size);
    assert bits == Histogram(init)[d := Histogram(init)[d] + 1];
    var top := LongestUpTo(bits, 16);
    assert bits[d] > 0 && d <= top;
    if d < top {
      forall u | 0 <= u < |size|
        ensures size[u] != top
      {
        assert size[u] <= d;
      }
      HistogramZero(size, top);
    }
  }

  lemma {:induction false} OffsetCut(bits: seq<nat>, l: nat, k: nat)
    requires l <= k <= |bits|
    ensures Offset(bits[..k], l) == Offset(bits, l)
  {
    if l > 1 {
      OffsetCut(bits, l - 1, k);
    }
  }

  // ---- Overflow of the code length ----

  // Five steps at once.
  lemma FibAdvance(n: nat)
    ensures Fib(n + 5) == 3 * Fib(n) + 5 * Fib(n + 1)
    ensures Fib(n + 6) == 5 * Fib(n) + 8 * Fib(n + 1)
  {
    assert Fib(n + 2) == Fib(n + 1) + Fib(n);
    assert Fib(n + 3) == Fib(n + 2) + Fib(n + 1);
    assert Fib(n + 4) == Fib(n + 3) + Fib(n + 2);
    assert Fib(n + 5) == Fib(n + 4) + Fib(n + 3);
  }

  lemma FibOf35(n: nat)
    requires n == 35
    ensures Fib(n) == OVERFLOW_COUNT
  {
    FibAdvance(0);
    FibAdvance(5);
    FibAdvance(10);
    FibAdvance(15);
    FibAdvance(20);
    FibAdvance(25);
    FibAdvance(30);
  }

  const OVERFLOW_COUNT := 9_227_465

  lemma SizeWithin(s: nat, total: nat)
    requires Fib(s + 2) <= total < OVERFLOW_COUNT
    ensures s <= MAX_CLEN
  {
    var n := s + 2;
    if s > MAX_CLEN {
      var k := n - (s - 33);
      FibOf35(k);
      FibMonotone(k, n);
    }
  }

  lemma WithinFib(count: seq<nat>, size: seq<nat>, total: nat)
    requires |count| == |size| && UnusedZero(count, size) && total < OVERFLOW_COUNT
    requires forall u :: 0 <= u < |count| && count[u] > 0 ==> Fib(size[u] + 2) <= total
    ensures AllWithin(size, MAX_CLEN)
  {
    forall u | 0 <= u < |size|
      ensures size[u] <= MAX_CLEN
    {
      if count[u] > 0 {
        SizeWithin(size[u], total);
      }
    }
  }

  // A code longer than 32 bits needs more than nine million counted symbols.
  lemma OverflowNeedsCounts(count: seq<nat>, size: seq<nat>)
    requires HuffmanSizes(count, size, PSEUDO_SYMBOL) && Sum(count) < OVERFLOW_COUNT
    ensures AllWithin(size, MAX_CLEN)
  {
    WithinFib(count, size, Sum(count));
  }
}
