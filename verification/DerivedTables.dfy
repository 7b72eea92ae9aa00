// jpeg_make_c_derived_tbl of jchuff.c and jpeg_make_d_derived_tbl of jdhuff.c: the tables that the
// coding loops index, computed from the counts and symbols of a JHUFF_TBL.
module DerivedTables {
  import opened Numerals
  import opened CanonicalCode

  // ---- Figures C.1 and C.2, which both routines share ----

  // The sizes of the first n codes.
  predicate Sized(bits: seq<nat>, sizes: seq<nat>, n: nat)
    requires |bits| == 17
  {
    n <= NumCodes(bits) && n <= |sizes| && forall p :: 0 <= p < n ==> sizes[p] == LenAt(bits, p)
  }

  lemma SizedMore(bits: seq<nat>, sizes: seq<nat>, n: nat, l: nat)
    requires |bits| == 17 && Sized(bits, sizes, n) && n < |sizes| && n < NumCodes(bits) && LenAt(bits, n) == l
    ensures Sized(bits, sizes[n := l], n + 1)
  {
  }

  // The codes of one length.
  method FillLength(huffsize: array<nat>, bits: seq<nat>, l: nat, start: nat) returns (n: nat)
    requires |bits| == 17 && 1 <= l < |bits| && start == Offset(bits, l) && start + bits[l] <= huffsize.Length
    requires Sized(bits, huffsize[..], start)
    modifies huffsize
    ensures n == Offset(bits, l + 1) && Sized(bits, huffsize[..], n)
  {
    var i := bits[l];
    n := start;
    OffsetMonotone(bits, l + 1, |bits|);
    assert Offset(bits, l + 1) == start + bits[l];
    while i > 0
      invariant i <= bits[l] && n == start + bits[l] - i && Sized(bits, huffsize[..], n)
    {
      LenUnique(bits, n, l);
      SizedMore(bits, huffsize[..], n, l);
      ghost var was := huffsize[..];
      huffsize[n] := l;
      assert huffsize[..] == was[n := l];
      n := n + 1;
      i := i - 1;
    }
  }

  // One size per code, and a zero after the last; fails on more than 256 codes.
  method FillSizes(bits: seq<nat>) returns (ok: bool, huffsize: array<nat>, n: nat)
    requires |bits| == 17
    ensures fresh(huffsize) && huffsize.Length == 257
    ensures ok <==> NumCodes(bits) <= 256
    ensures ok ==> n == NumCodes(bits) && huffsize[n] == 0
    ensures ok ==> forall p :: 0 <= p < n ==> huffsize[p] == LenAt(bits, p)
  {
    huffsize := new nat[257](_ => 0);
    n := 0;
    for l := 1 to 17
      invariant n == Offset(bits, l) <= 256 && Sized(bits, huffsize[..], n)
    {
      OffsetMonotone(bits, l + 1, |bits|);
      if n + bits[l] > 256 {
        return false, huffsize, n;
      }
      n := FillLength(huffsize, bits, l, n);
    }
    huffsize[n] := 0;
    ok := true;
  }

  // The canonical codes; fails when a code would not leave the all-ones string unused.
  method FillCodes(huffsize: array<nat>, ghost bits: seq<nat>, ghost n: nat)
    returns (ok: bool, huffcode: array<nat>)
    requires |bits| == 17 && n == NumCodes(bits) <= 256 && huffsize.Length == 257 && huffsize[n] == 0
    requires forall p :: 0 <= p < n ==> huffsize[p] == LenAt(bits, p)
    ensures fresh(huffcode) && huffcode.Length == 257
    ensures ok <==> Legal(bits)
    ensures ok ==> forall p :: 0 <= p < n ==> huffcode[p] == CodeAt(bits, p)
  {
    huffcode := new nat[257](_ => 0);
    var code, si, p := 0, huffsize[0], 0;
    FirstLength(bits);
    while huffsize[p] != 0
      invariant p <= n && (n > 0 ==> 1 <= si <= 17 && p == Offset(bits, si))
      invariant n > 0 ==> code == 2 * Codes(bits, si - 1) && Codes(bits, si - 1) < Pow2(si - 1)
      invariant forall k :: 0 <= k < p ==> huffcode[k] == CodeAt(bits, k)
      decreases if n > 0 then 17 - si else 0
    {
      NextLength(bits, p, si);
      while huffsize[p] == si
        invariant 1 <= si <= 16 && Offset(bits, si) <= p <= Offset(bits, si + 1) <= n
        invariant code == 2 * Codes(bits, si - 1) + (p - Offset(bits, si))
        invariant forall k :: 0 <= k < p ==> huffcode[k] == CodeAt(bits, k)
        decreases n - p
      {
        LenUnique(bits, p, si);
        huffcode[p] := code;
        p := p + 1;
        code := code + 1;
      }
      AllOfLength(bits, p, si);
      assert code == Codes(bits, si);
      if code >= Pow2(si) {
        if Legal(bits) {
          LegalRoom(bits, si);
        }
        return false, huffcode;
      }
      code := code * 2;
      si := si + 1;
    }
    NoneLonger(bits, n, si, p);
    ok := true;
  }

  lemma FirstLength(bits: seq<nat>)
    requires |bits| == 17
    ensures NumCodes(bits) > 0 ==>
      var l := LenAt(bits, 0);
      Offset(bits, l) == 0 && Codes(bits, l - 1) == 0
    ensures NumCodes(bits) == 0 ==> Codes(bits, 16) == 0
  {
    if NumCodes(bits) > 0 {
      OffsetZeroCodes(bits, LenAt(bits, 0));
    } else {
      OffsetZeroCodes(bits, |bits|);
    }
  }

  lemma {:induction false} OffsetZeroCodes(bits: seq<nat>, l: nat)
    requires 1 <= l <= |bits| && Offset(bits, l) == 0
    ensures Codes(bits, l - 1) == 0
  {
    if l > 1 {
      OffsetZeroCodes(bits, l - 1);
    }
  }

  // Codes not handled yet are at least as long as si.
  lemma NextLength(bits: seq<nat>, p: nat, si: nat)
    requires |bits| == 17 && p < NumCodes(bits) && 1 <= si <= 17 && p == Offset(bits, si)
    ensures si <= 16 && LenAt(bits, p) >= si && Offset(bits, si + 1) <= NumCodes(bits)
  {
    OffsetMonotone(bits, si, |bits|);
    var l := LenAt(bits, p);
    if l < si {
      OffsetMonotone(bits, l + 1, si);
    }
    if si <= 16 {
      OffsetMonotone(bits, si + 1, |bits|);
    }
  }

  lemma AllOfLength(bits: seq<nat>, p: nat, si: nat)
    requires |bits| == 17 && 1 <= si <= 16 && Offset(bits, si) <= p <= Offset(bits, si + 1) <= NumCodes(bits)
    requires p < NumCodes(bits) ==> LenAt(bits, p) != si
    ensures p == Offset(bits, si + 1)
  {
    if p < Offset(bits, si + 1) {
      LenUnique(bits, p, si);
    }
  }

  lemma NoneLonger(bits: seq<nat>, n: nat, si: nat, p: nat)
    requires |bits| == 17 && n == NumCodes(bits) <= 256 && p <= n
    requires p < n ==> LenAt(bits, p) == 0
    requires n > 0 ==> 1 <= si <= 17 && p == Offset(bits, si) && Codes(bits, si - 1) < Pow2(si - 1)
    ensures Legal(bits) && p == n
  {
    if n > 0 {
      EmptyBetween(bits, si, |bits|);
      CodesEmptyAbove(bits, si - 1, 16);
      Pow2Add(si - 1, 17 - si);
      ScaleLt(Codes(bits, si - 1), Pow2(si - 1), Pow2(17 - si));
    } else {
      FirstLength(bits);
    }
  }

  lemma {:induction false} EmptyBetween(bits: seq<nat>, k: nat, l: nat)
    requires 1 <= k <= l <= |bits| && Offset(bits, k) == Offset(bits, l)
    ensures forall d :: k <= d < l ==> bits[d] == 0
  {
    if k < l {
      OffsetMonotone(bits, k, l - 1);
      EmptyBetween(bits, k, l - 1);
    }
  }

  // ---- The encoder's table ----

  // No symbol is listed twice, and DC symbols are at most 15.
  predicate SymbolsSound(htbl: HuffTable, n: nat, maxsymbol: nat)
    requires n <= |htbl.huffval|
  {
    && (forall p :: 0 <= p < n ==> htbl.huffval[p] <= maxsymbol)
    && (forall p, q :: 0 <= p < q < n ==> htbl.huffval[p] != htbl.huffval[q])
  }

  function MaxSymbol(isDC: bool): nat {
    if isDC then 15 else 255
  }

  // What the encoder emits for each symbol: code and size, or size 0 for a symbol without a code.
  predicate EncodesWith(htbl: HuffTable, ehufco: seq<nat>, ehufsi: seq<nat>) {
    && |ehufco| == |ehufsi| == 256 && |htbl.bits| == 17 && NumCodes(htbl.bits) <= |htbl.huffval|
    && (forall p :: 0 <= p < NumCodes(htbl.bits) ==>
          htbl.huffval[p] < 256 &&
          ehufco[htbl.huffval[p]] == CodeAt(htbl.bits, p) && ehufsi[htbl.huffval[p]] == LenAt(htbl.bits, p))
    && (forall s :: 0 <= s < 256 && ehufsi[s] != 0 ==> s in htbl.huffval[..NumCodes(htbl.bits)])
  }

  predicate Tabulated(symbols: seq<nat>, values: seq<nat>, table: seq<nat>) {
    forall k :: 0 <= k < |symbols| && k < |values| && symbols[k] < |table| ==> table[symbols[k]] == values[k]
  }

  // jpeg_make_c_derived_tbl.  It accepts exactly the legal tables without repeated symbols.
  method MakeCDerivedTbl(htbl: HuffTable, isDC: bool)
    returns (ok: bool, ehufco: array<nat>, ehufsi: array<nat>)
    requires IsTable(htbl)
    ensures ok <==> Legal(htbl.bits) && SymbolsSound(htbl, NumCodes(htbl.bits), MaxSymbol(isDC))
    ensures ok ==> EncodesWith(htbl, ehufco[..], ehufsi[..])
  {
    ehufco, ehufsi := new nat[256](_ => 0), new nat[256](_ => 0);
    var huffsize, lastp, huffcode;
    ok, huffsize, lastp := FillSizes(htbl.bits);
    if !ok {
      return;
    }
    ok, huffcode := FillCodes(huffsize, htbl.bits, lastp);
    if !ok {
      return;
    }
    ok := FillSymbols(htbl, lastp, huffsize, huffcode, MaxSymbol(isDC), ehufco, ehufsi);
  }

  // A symbol without an entry has not been met.
  lemma NotListed(symbols: seq<nat>, values: seq<nat>, table: seq<nat>, i: nat)
    requires Tabulated(symbols, values, table) && |symbols| <= |values| && i < |table| && table[i] == 0
    requires forall k :: 0 <= k < |symbols| ==> values[k] >= 1
    ensures i !in symbols
  {
  }

  lemma TabulatedMore(symbols: seq<nat>, values: seq<nat>, table: seq<nat>, i: nat)
    requires Tabulated(symbols, values, table) && |symbols| < |values| && i < |table| && i !in symbols
    ensures Tabulated(symbols + [i], values, table[i := values[|symbols|]])
  {
  }

  // Figure C.3: code and size indexed by symbol.
  method FillSymbols(htbl: HuffTable, n: nat, huffsize: array<nat>, huffcode: array<nat>, maxsymbol: nat,
                     ehufco: array<nat>, ehufsi: array<nat>) returns (ok: bool)
    requires |htbl.huffval| == 256 && n <= 256 && maxsymbol <= 255
    requires huffsize.Length == huffcode.Length == 257 && ehufco.Length == ehufsi.Length == 256
    requires ehufco != ehufsi && huffsize != ehufco && huffsize != ehufsi && huffcode != ehufco && huffcode != ehufsi
    requires forall p :: 0 <= p < n ==> huffsize[p] >= 1
    requires forall s :: 0 <= s < 256 ==> ehufsi[s] == 0
    modifies ehufco, ehufsi
    ensures ok <==> SymbolsSound(htbl, n, maxsymbol)
    ensures ok ==> Tabulated(htbl.huffval[..n], huffcode[..], ehufco[..]) && Tabulated(htbl.huffval[..n], huffsize[..], ehufsi[..])
    ensures ok ==> forall s :: 0 <= s < 256 && ehufsi[s] != 0 ==> s in htbl.huffval[..n]
  {
    ghost var hv, sizes, codes := htbl.huffval, huffsize[..], huffcode[..];
    EndPrefixes(hv);
    for p := 0 to n
      invariant SymbolsSound(htbl, p, maxsymbol)
      invariant Tabulated(hv[..p], codes, ehufco[..]) && Tabulated(hv[..p], sizes, ehufsi[..])
      invariant forall s :: 0 <= s < 256 && ehufsi[s] != 0 ==> s in hv[..p]
      invariant huffsize[..] == sizes && huffcode[..] == codes
    {
      var i := htbl.huffval[p];
      if i > maxsymbol || ehufsi[i] != 0 {
        return false;
      }
      Prefixes(hv, p);
      NotListed(hv[..p], sizes, ehufsi[..], i);
      TabulatedMore(hv[..p], codes, ehufco[..], i);
      TabulatedMore(hv[..p], sizes, ehufsi[..], i);
      ghost var co, si := ehufco[..], ehufsi[..];
      ehufco[i] := huffcode[p];
      ehufsi[i] := huffsize[p];
      assert ehufco[..] == co[i := codes[p]] && ehufsi[..] == si[i := sizes[p]];
    }
    ok := true;
  }

  // ---- The decoder's table ----

  const HUFF_LOOKAHEAD := 8

  // The largest code of length l, -1 if there is none; a sentinel above all codes at 17.
  function MaxCode(bits: seq<nat>, l: nat): int
    requires |bits| == 17 && l <= 17
  {
    if l == 17 then 0xF_FFFF else if bits[l] > 0 then Codes(bits, l) - 1 else -1
  }

  // The place of the first symbol of length l, less its code.
  function ValOffset(bits: seq<nat>, l: nat): int
    requires |bits| == 17 && 1 <= l <= 16
  {
    Offset(bits, l) - 2 * Codes(bits, l - 1)
  }

  // Code p, followed by zeros up to eight bits.
  function LookStart(bits: seq<nat>, p: nat): nat
    requires |bits| == 17 && p < NumCodes(bits) && LenAt(bits, p) <= HUFF_LOOKAHEAD
  {
    CodeAt(bits, p) * Pow2(HUFF_LOOKAHEAD - LenAt(bits, p))
  }

  // Entry x of the lookahead tables belongs to code p.
  predicate LooksAt(bits: seq<nat>, p: nat, x: nat)
    requires |bits| == 17 && p < NumCodes(bits) && LenAt(bits, p) <= HUFF_LOOKAHEAD
  {
    LookStart(bits, p) <= x < LookStart(bits, p) + Pow2(HUFF_LOOKAHEAD - LenAt(bits, p))
  }

  // d_derived_tbl.
  datatype DTable = DTable(maxcode: seq<int>, valoffset: seq<int>, lookNbits: seq<nat>, lookSym: seq<nat>)

  ghost predicate DecodesWith(htbl: HuffTable, tbl: DTable) {
    && |htbl.bits| == 17 && |tbl.maxcode| == 18 && |tbl.valoffset| == 17
    && |tbl.lookNbits| == |tbl.lookSym| == 256
    && NumCodes(htbl.bits) <= |htbl.huffval|
    && (forall l :: 1 <= l <= 17 ==> tbl.maxcode[l] == MaxCode(htbl.bits, l))
    && (forall l :: 1 <= l <= 16 && htbl.bits[l] > 0 ==> tbl.valoffset[l] == ValOffset(htbl.bits, l))
    && Filled(htbl, tbl.lookNbits, tbl.lookSym, Offset(htbl.bits, HUFF_LOOKAHEAD + 1))
    && forall x :: Codes(htbl.bits, HUFF_LOOKAHEAD) <= x < 256 ==> tbl.lookNbits[x] == 0
  }

  // The entries of the first n codes are filled.
  ghost predicate Filled(htbl: HuffTable, lookNbits: seq<nat>, lookSym: seq<nat>, n: nat) {
    && |htbl.bits| == 17 && |lookNbits| == |lookSym| == 256 && n <= NumCodes(htbl.bits) <= |htbl.huffval|
    && forall p :: 0 <= p < n ==> FilledFor(htbl, lookNbits, lookSym, p)
  }

  ghost predicate FilledFor(htbl: HuffTable, lookNbits: seq<nat>, lookSym: seq<nat>, p: nat)
    requires |htbl.bits| == 17 && |lookNbits| == |lookSym| == 256 && p < NumCodes(htbl.bits) <= |htbl.huffval|
  {
    && LenAt(htbl.bits, p) <= HUFF_LOOKAHEAD
    && forall x :: 0 <= x < 256 && LooksAt(htbl.bits, p, x) ==>
         lookNbits[x] == LenAt(htbl.bits, p) && lookSym[x] == htbl.huffval[p]
  }

  // Eight-bit strings below the codes of length l that come before the i-th one.
  function LookBelow(bits: seq<nat>, l: nat, i: nat): nat
    requires |bits| == 17 && 1 <= l <= HUFF_LOOKAHEAD
  {
    (2 * Codes(bits, l - 1) + i) * Pow2(HUFF_LOOKAHEAD - l)
  }

  lemma LookBelowNext(bits: seq<nat>, l: nat)
    requires |bits| == 17 && 1 <= l < HUFF_LOOKAHEAD
    ensures LookBelow(bits, l, bits[l]) == LookBelow(bits, l + 1, 0)
  {
    MulAssoc(Codes(bits, l), 2, Pow2(HUFF_LOOKAHEAD - l - 1));
  }

  lemma LookBelowStep(bits: seq<nat>, l: nat, i: nat)
    requires |bits| == 17 && 1 <= l <= HUFF_LOOKAHEAD
    ensures LookBelow(bits, l, i + 1) == LookBelow(bits, l, i) + Pow2(HUFF_LOOKAHEAD - l)
  {
  }

  // A code of a legal table has its entries inside the lookahead table.
  lemma LookFits(bits: seq<nat>, l: nat, i: nat)
    requires Legal(bits) && 1 <= l <= HUFF_LOOKAHEAD && i < bits[l]
    ensures LookBelow(bits, l, i + 1) <= 256
  {
    LegalRoom(bits, l);
    ScaleLe(2 * Codes(bits, l - 1) + i + 1, Pow2(l), Pow2(HUFF_LOOKAHEAD - l));
    Pow2Add(l, HUFF_LOOKAHEAD - l);
    Pow2Small();
  }

  // Writing the entries of one code, which lie above all entries written before.
  method FillOne(htbl: HuffTable, p: nat, l: nat, code: nat, lookNbits: array<nat>, lookSym: array<nat>, ghost i: nat)
    requires IsTable(htbl) && Legal(htbl.bits) && 1 <= l <= HUFF_LOOKAHEAD && i < htbl.bits[l]
    requires p == Offset(htbl.bits, l) + i && p < NumCodes(htbl.bits) && code == CodeAt(htbl.bits, p)
    requires lookNbits != lookSym && lookNbits.Length == lookSym.Length == 256
    requires Filled(htbl, lookNbits[..], lookSym[..], p)
    requires forall q :: 0 <= q < p ==> LookEnd(htbl.bits, q) <= LookBelow(htbl.bits, l, i)
    requires forall x :: LookBelow(htbl.bits, l, i) <= x < 256 ==> lookNbits[x] == 0
    modifies lookNbits, lookSym
    ensures Filled(htbl, lookNbits[..], lookSym[..], p + 1)
    ensures forall q :: 0 <= q < p + 1 ==> LookEnd(htbl.bits, q) <= LookBelow(htbl.bits, l, i + 1)
    ensures forall x :: LookBelow(htbl.bits, l, i + 1) <= x < 256 ==> lookNbits[x] == 0
  {
    LenUnique(htbl.bits, p, l);
    LookBelowStep(htbl.bits, l, i);
    LookFits(htbl.bits, l, i);
    ghost var nbits, syms := lookNbits[..], lookSym[..];
    var lookbits := code * Pow2(HUFF_LOOKAHEAD - l);
    FillEntries(lookNbits, lookSym, lookbits, Pow2(HUFF_LOOKAHEAD - l), l, htbl.huffval[p]);
    FilledKept(htbl, nbits, syms, lookNbits[..], lookSym[..], lookbits, p);
    assert FilledFor(htbl, lookNbits[..], lookSym[..], p);
  }

  // All bit strings that begin with one code.
  method FillEntries(lookNbits: array<nat>, lookSym: array<nat>, start: nat, count: nat, l: nat, sym: nat)
    requires lookNbits != lookSym && lookNbits.Length == lookSym.Length && start + count <= lookNbits.Length
    modifies lookNbits, lookSym
    ensures forall x :: 0 <= x < start || start + count <= x < lookNbits.Length ==>
      lookNbits[x] == old(lookNbits[x]) && lookSym[x] == old(lookSym[x])
    ensures forall x :: start <= x < start + count ==> lookNbits[x] == l && lookSym[x] == sym
  {
    var lookbits, ctr := start, count;
    while ctr > 0
      invariant start <= lookbits == start + count - ctr <= start + count
      invariant forall x :: 0 <= x < start || start + count <= x < lookNbits.Length ==>
        lookNbits[x] == old(lookNbits[x]) && lookSym[x] == old(lookSym[x])
      invariant forall x :: start <= x < lookbits ==> lookNbits[x] == l && lookSym[x] == sym
    {
      lookNbits[lookbits] := l;
      lookSym[lookbits] := sym;
      lookbits := lookbits + 1;
      ctr := ctr - 1;
    }
  }

  lemma FilledKept(htbl: HuffTable, nb: seq<nat>, sym: seq<nat>, nb': seq<nat>, sym': seq<nat>, start: nat, p: nat)
    requires Filled(htbl, nb, sym, p) && |nb'| == |sym'| == 256 && start <= 256
    requires forall q :: 0 <= q < p ==> LookEnd(htbl.bits, q) <= start
    requires nb'[..start] == nb[..start] && sym'[..start] == sym[..start]
    ensures Filled(htbl, nb', sym', p)
  {
    forall q, x | 0 <= q < p && 0 <= x < 256 && FilledFor(htbl, nb, sym, q) && LooksAt(htbl.bits, q, x)
      ensures nb'[x] == LenAt(htbl.bits, q) && sym'[x] == htbl.huffval[q]
    {
      assert x < LookEnd(htbl.bits, q);
      assert nb'[x] == nb'[..start][x] && sym'[x] == sym'[..start][x];
    }
    forall q | 0 <= q < p
      ensures FilledFor(htbl, nb', sym', q)
    {
      assert FilledFor(htbl, nb, sym, q);
    }
  }

  function LookEnd(bits: seq<nat>, q: nat): nat
    requires |bits| == 17 && q < NumCodes(bits)
  {
    if LenAt(bits, q) <= HUFF_LOOKAHEAD then LookStart(bits, q) + Pow2(HUFF_LOOKAHEAD - LenAt(bits, q)) else 0
  }

  method FillLookahead(htbl: HuffTable, huffcode: array<nat>, lookNbits: array<nat>, lookSym: array<nat>)
    requires IsTable(htbl) && Legal(htbl.bits) && huffcode.Length == 257
    requires forall p :: 0 <= p < NumCodes(htbl.bits) ==> huffcode[p] == CodeAt(htbl.bits, p)
    requires lookNbits != lookSym && huffcode != lookNbits && huffcode != lookSym
    requires lookNbits.Length == lookSym.Length == 256 && forall x :: 0 <= x < 256 ==> lookNbits[x] == 0
    modifies lookNbits, lookSym
    ensures Filled(htbl, lookNbits[..], lookSym[..], Offset(htbl.bits, HUFF_LOOKAHEAD + 1))
    ensures forall x :: Codes(htbl.bits, HUFF_LOOKAHEAD) <= x < 256 ==> lookNbits[x] == 0
  {
    var p := 0;
    ghost var bits := htbl.bits;
    for l := 1 to HUFF_LOOKAHEAD + 1
      invariant p == Offset(bits, l) && huffcode[..] == old(huffcode[..])
      invariant Filled(htbl, lookNbits[..], lookSym[..], p)
      invariant l <= HUFF_LOOKAHEAD ==> forall q :: 0 <= q < p ==> LookEnd(bits, q) <= LookBelow(bits, l, 0)
      invariant l <= HUFF_LOOKAHEAD ==> forall x :: LookBelow(bits, l, 0) <= x < 256 ==> lookNbits[x] == 0
      invariant l == HUFF_LOOKAHEAD + 1 ==>
        forall x :: Codes(bits, HUFF_LOOKAHEAD) <= x < 256 ==> lookNbits[x] == 0
    {
      OffsetMonotone(bits, l + 1, |bits|);
      var n := bits[l];
      for i := 0 to htbl.bits[l]
        invariant p == Offset(bits, l) + i && huffcode[..] == old(huffcode[..])
        invariant Filled(htbl, lookNbits[..], lookSym[..], p)
        invariant forall q :: 0 <= q < p ==> LookEnd(bits, q) <= LookBelow(bits, l, i)
        invariant forall x :: LookBelow(bits, l, i) <= x < 256 ==> lookNbits[x] == 0
      {
        assert huffcode[p] == huffcode[..][p];
        FillOne(htbl, p, l, huffcode[p], lookNbits, lookSym, i);
        p := p + 1;
      }
      if l < HUFF_LOOKAHEAD {
        LookBelowNext(bits, l);
      }
    }
  }

  lemma FirstAndLast(bits: seq<nat>, l: nat)
    requires |bits| == 17 && 1 <= l <= 16 && bits[l] > 0
    ensures Offset(bits, l) + bits[l] <= NumCodes(bits)
    ensures CodeAt(bits, Offset(bits, l)) == 2 * Codes(bits, l - 1)
    ensures CodeAt(bits, Offset(bits, l) + bits[l] - 1) == Codes(bits, l) - 1
  {
    OffsetMonotone(bits, l + 1, |bits|);
    LenUnique(bits, Offset(bits, l), l);
    LenUnique(bits, Offset(bits, l) + bits[l] - 1, l);
  }

  // Figure F.15: maxcode and valoffset.
  // The limits for one length, whose codes start at position p.
  method LimitsOf(bits: seq<nat>, huffcode: array<nat>, ghost n: nat, l: nat, p: nat, unset: int)
    returns (top: int, offset: int, next: nat)
    requires |bits| == 17 && n == NumCodes(bits) && n <= huffcode.Length && 1 <= l <= 16 && p == Offset(bits, l)
    requires forall q :: 0 <= q < n ==> huffcode[q] == CodeAt(bits, q)
    ensures top == MaxCode(bits, l) && next == Offset(bits, l + 1)
    ensures offset == (if bits[l] > 0 then ValOffset(bits, l) else unset)
  {
    top, offset, next := -1, unset, p;
    if bits[l] != 0 {
      FirstAndLast(bits, l);
      offset := p - huffcode[p];
      next := p + bits[l];
      top := huffcode[next - 1];
    }
  }

  method FillLimits(bits: seq<nat>, huffcode: array<nat>, ghost n: nat)
    returns (maxcode: array<int>, valoffset: array<int>)
    requires |bits| == 17 && n == NumCodes(bits) && n <= huffcode.Length
    requires forall p :: 0 <= p < n ==> huffcode[p] == CodeAt(bits, p)
    ensures fresh(maxcode) && fresh(valoffset) && maxcode.Length == 18 && valoffset.Length == 17
    ensures forall l :: 1 <= l <= 17 ==> maxcode[l] == MaxCode(bits, l)
    ensures forall l :: 1 <= l <= 16 && bits[l] > 0 ==> valoffset[l] == ValOffset(bits, l)
  {
    maxcode, valoffset := new int[18](_ => 0), new int[17](_ => 0);
    var p := 0;
    for l := 1 to 17
      invariant p == Offset(bits, l)
      invariant forall k :: 1 <= k < l ==> maxcode[k] == MaxCode(bits, k)
      invariant forall k :: 1 <= k < l && bits[k] > 0 ==> valoffset[k] == ValOffset(bits, k)
    {
      var top, offset;
      top, offset, p := LimitsOf(bits, huffcode, n, l, p, valoffset[l]);
      valoffset[l] := offset;
      maxcode[l] := top;
    }
    maxcode[17] := 0xF_FFFF;
  }

  // jpeg_make_d_derived_tbl.  It accepts exactly the legal tables, for DC with symbols up to 15.
  method MakeDDerivedTbl(htbl: HuffTable, isDC: bool) returns (ok: bool, tbl: DTable)
    requires IsTable(htbl)
    ensures ok <==>
      (Legal(htbl.bits) && (isDC ==> forall p :: 0 <= p < NumCodes(htbl.bits) ==> htbl.huffval[p] <= 15))
    ensures ok ==> DecodesWith(htbl, tbl)
  {
    tbl := DTable([], [], [], []);
    var huffsize, numsymbols, huffcode;
    ok, huffsize, numsymbols := FillSizes(htbl.bits);
    if !ok {
      return;
    }
    ok, huffcode := FillCodes(huffsize, htbl.bits, numsymbols);
    if !ok {
      return;
    }
    var maxcode, valoffset := FillLimits(htbl.bits, huffcode, numsymbols);
    var lookNbits, lookSym := new nat[256](_ => 0), new nat[256](_ => 0);
    assert Filled(htbl, lookNbits[..], lookSym[..], 0);
    FillLookahead(htbl, huffcode, lookNbits, lookSym);
    tbl := DTable(maxcode[..], valoffset[..], lookNbits[..], lookSym[..]);
    if isDC {
      for i := 0 to numsymbols
        invariant forall p :: 0 <= p < i ==> htbl.huffval[p] <= 15
      {
        if htbl.huffval[i] > 15 {
          return false, tbl;
        }
      }
    }
  }
}
