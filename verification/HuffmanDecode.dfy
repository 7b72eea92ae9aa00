// jdhuff.c: decoding one symbol, bit by bit (jpeg_huff_decode) or by lookahead (HUFF_DECODE), as a
// function of the bits that remain to be read.
module HuffmanDecode {
  import opened Numerals
  import opened CanonicalCode
  import opened DerivedTables

  // A symbol and the number of bits it takes, or too few bits to tell.
  datatype Fetched = Got(sym: nat, used: nat) | Short

  // The bits read so far, one less than l, are not below the codes of their length.
  predicate Above(bits: seq<nat>, s: seq<bit>, l: nat)
    requires |bits| == 17 && 1 <= l <= 17
  {
    |s| >= l - 1 ==> BitsValue(s[..l - 1]) >= Codes(bits, l - 1)
  }

  // The place in huffval of the code of length l and value v.
  function Place(bits: seq<nat>, l: nat, v: nat): int
    requires |bits| == 17 && 1 <= l <= 16
  {
    v + ValOffset(bits, l)
  }

  lemma ReadOne(s: seq<bit>, l: nat)
    requires 1 <= l <= |s|
    ensures BitsValue(s[..l]) == 2 * BitsValue(s[..l - 1]) + s[l - 1]
  {
    assert s[..l] == s[..l - 1] + [s[l - 1]];
    BitsValueSnoc(s[..l - 1], s[l - 1]);
  }

  lemma StaysAbove(bits: seq<nat>, s: seq<bit>, l: nat)
    requires |bits| == 17 && 1 <= l <= 16 && l <= |s| && Above(bits, s, l)
    requires BitsValue(s[..l]) > MaxCode(bits, l)
    ensures Above(bits, s, l + 1)
  {
    ReadOne(s, l);
  }

  // A code that is in use has its place among the symbols of its length.
  lemma PlaceOfCode(bits: seq<nat>, s: seq<bit>, l: nat)
    requires Legal(bits) && 1 <= l <= 16 && l <= |s| && Above(bits, s, l)
    requires BitsValue(s[..l]) <= MaxCode(bits, l)
    ensures 0 <= Place(bits, l, BitsValue(s[..l])) < NumCodes(bits)
    ensures LenAt(bits, Place(bits, l, BitsValue(s[..l]))) == l
    ensures CodeAt(bits, Place(bits, l, BitsValue(s[..l]))) == BitsValue(s[..l])
  {
    ReadOne(s, l);
    OffsetMonotone(bits, l + 1, |bits|);
    LenUnique(bits, Place(bits, l, BitsValue(s[..l])), l);
  }

  // jpeg_huff_decode started with l bits: the symbol of the first code in use.  After 17 bits
  // without one it fakes a zero.
  function SlowDecode(htbl: HuffTable, s: seq<bit>, l: nat): (r: Fetched)
    requires IsTable(htbl) && Legal(htbl.bits) && 1 <= l <= 17 && Above(htbl.bits, s, l)
    ensures r.Got? ==> 1 <= r.used <= 17 && r.used <= |s| && r.sym <= 255
    decreases 17 - l
  {
    if |s| < l then Short
    else if l == 17 then Got(0, 17)
    else if BitsValue(s[..l]) <= MaxCode(htbl.bits, l) then
      PlaceOfCode(htbl.bits, s, l);
      Got(htbl.huffval[Place(htbl.bits, l, BitsValue(s[..l]))], l)
    else
      StaysAbove(htbl.bits, s, l);
      SlowDecode(htbl, s, l + 1)
  }

  predicate Readable(htbl: HuffTable) {
    IsTable(htbl) && Legal(htbl.bits)
  }

  // The next symbol.
  function Decode(htbl: HuffTable, s: seq<bit>): (r: Fetched)
    requires Readable(htbl)
    ensures r.Got? ==> 1 <= r.used <= 17 && r.used <= |s| && r.sym <= 255
  {
    SlowDecode(htbl, s, 1)
  }

  // More bits do not change a decision that was possible without them.
  lemma {:induction false} DecodeMonotone(htbl: HuffTable, s: seq<bit>, t: seq<bit>, l: nat)
    requires Readable(htbl) && 1 <= l <= 17 && Above(htbl.bits, s, l)
    requires |s| >= l - 1 && SlowDecode(htbl, s, l).Got?
    ensures Above(htbl.bits, s + t, l) && SlowDecode(htbl, s + t, l) == SlowDecode(htbl, s, l)
    decreases 17 - l
  {
    assert (s + t)[..l - 1] == s[..l - 1] && (s + t)[..l] == s[..l];
    if l < 17 && BitsValue(s[..l]) > MaxCode(htbl.bits, l) {
      StaysAbove(htbl.bits, s, l);
      DecodeMonotone(htbl, s, t, l + 1);
    }
  }

  // Decoding undoes encoding: the code of the p-th symbol yields it, whatever follows.
  lemma DecodeWord(htbl: HuffTable, p: nat, rest: seq<bit>)
    requires Readable(htbl) && p < NumCodes(htbl.bits)
    ensures Decode(htbl, CodeWord(htbl.bits, p) + rest) == Got(htbl.huffval[p], LenAt(htbl.bits, p))
  {
    DecodeWordFrom(htbl, p, rest, 1);
  }

  lemma {:induction false} DecodeWordFrom(htbl: HuffTable, p: nat, rest: seq<bit>, l: nat)
    requires Readable(htbl) && p < NumCodes(htbl.bits) && 1 <= l <= LenAt(htbl.bits, p)
    requires Above(htbl.bits, CodeWord(htbl.bits, p) + rest, l)
    ensures SlowDecode(htbl, CodeWord(htbl.bits, p) + rest, l) == Got(htbl.huffval[p], LenAt(htbl.bits, p))
    decreases 17 - l
  {
    var w := CodeWord(htbl.bits, p);
    assert (w + rest)[..l] == w[..l];
    WordValue(htbl.bits, p);
    if l == |w| {
      assert w[..l] == w;
    } else {
      WordPrefixValue(htbl.bits, p, l);
      DecodeWordFrom(htbl, p, rest, l + 1);
    }
  }

  lemma WordIs(bits: seq<nat>, p: nat, w: seq<bit>)
    requires Legal(bits) && p < NumCodes(bits) && LenAt(bits, p) == |w| && CodeAt(bits, p) == BitsValue(w)
    ensures CodeWord(bits, p) == w
  {
    WordValue(bits, p);
    BitsValueInjective(CodeWord(bits, p), w);
  }

  // Bits that do not start with a code word pass for the symbol 0, and 17 of them are taken.
  lemma {:induction false} BadCode(htbl: HuffTable, s: seq<bit>, l: nat)
    requires Readable(htbl) && 1 <= l <= 17 <= |s| && Above(htbl.bits, s, l)
    requires forall p :: 0 <= p < NumCodes(htbl.bits) ==> !(CodeWord(htbl.bits, p) <= s)
    ensures SlowDecode(htbl, s, l) == Got(0, 17)
    decreases 17 - l
  {
    if l < 17 {
      if BitsValue(s[..l]) <= MaxCode(htbl.bits, l) {
        PlaceOfCode(htbl.bits, s, l);
        WordIs(htbl.bits, Place(htbl.bits, l, BitsValue(s[..l])), s[..l]);
        assert false;
      } else {
        StaysAbove(htbl.bits, s, l);
        BadCode(htbl, s, l + 1);
      }
    }
  }

  // The lookahead table agrees with decoding bit by bit, on every eight bits.
  lemma {:induction false} LookaheadAgrees(htbl: HuffTable, tbl: DTable, s: seq<bit>, l: nat)
    requires Readable(htbl) && DecodesWith(htbl, tbl) && |s| >= HUFF_LOOKAHEAD
    requires 1 <= l <= HUFF_LOOKAHEAD + 1 && Above(htbl.bits, s, l)
    ensures var x := BitsValue(s[..HUFF_LOOKAHEAD]);
      && x < 256 && tbl.lookNbits[x] <= HUFF_LOOKAHEAD
      && (tbl.lookNbits[x] != 0 ==> SlowDecode(htbl, s, l) == Got(tbl.lookSym[x], tbl.lookNbits[x]))
      && (tbl.lookNbits[x] == 0 ==>
            && Above(htbl.bits, s, HUFF_LOOKAHEAD + 1)
            && SlowDecode(htbl, s, l) == SlowDecode(htbl, s, HUFF_LOOKAHEAD + 1))
    decreases HUFF_LOOKAHEAD + 1 - l
  {
    var bits, x := htbl.bits, BitsValue(s[..HUFF_LOOKAHEAD]);
    BitsValueBound(s[..HUFF_LOOKAHEAD]);
    Pow2Small();
    if l <= HUFF_LOOKAHEAD {
      var v := BitsValue(s[..l]);
      if v <= MaxCode(bits, l) {
        PlaceOfCode(bits, s, l);
        LookBits(s, l);
        LookPlace(bits, Place(bits, l, v), l);
        assert FilledFor(htbl, tbl.lookNbits, tbl.lookSym, Place(bits, l, v));
      } else {
        StaysAbove(bits, s, l);
        LookaheadAgrees(htbl, tbl, s, l + 1);
      }
    }
  }

  lemma LookBits(s: seq<bit>, l: nat)
    requires 1 <= l <= HUFF_LOOKAHEAD <= |s|
    ensures var v, p := BitsValue(s[..l]), Pow2(HUFF_LOOKAHEAD - l);
      v * p <= BitsValue(s[..HUFF_LOOKAHEAD]) < v * p + p
  {
    assert s[..HUFF_LOOKAHEAD] == s[..l] + s[l..HUFF_LOOKAHEAD];
    BitsValueAppend(s[..l], s[l..HUFF_LOOKAHEAD]);
    BitsValueBound(s[l..HUFF_LOOKAHEAD]);
  }

  lemma LookPlace(bits: seq<nat>, p: nat, l: nat)
    requires |bits| == 17 && p < NumCodes(bits) && LenAt(bits, p) == l <= HUFF_LOOKAHEAD
    ensures p < Offset(bits, HUFF_LOOKAHEAD + 1)
  {
    OffsetMonotone(bits, l + 1, HUFF_LOOKAHEAD + 1);
  }

  // ---- The encoder's side ----

  // What emit_bits makes of a symbol, with the tables of jpeg_make_c_derived_tbl.
  function SymbolBits(ehufco: seq<nat>, ehufsi: seq<nat>, sym: nat): seq<bit>
    requires |ehufco| == |ehufsi| && sym < |ehufco|
  {
    ToBits(ehufco[sym], ehufsi[sym])
  }

  // The decoder of a table inverts the encoder of the same table, symbol by symbol.
  lemma SymbolRoundTrip(htbl: HuffTable, ehufco: seq<nat>, ehufsi: seq<nat>, sym: nat, rest: seq<bit>)
    requires Readable(htbl) && EncodesWith(htbl, ehufco, ehufsi) && sym < 256 && ehufsi[sym] != 0
    ensures Decode(htbl, SymbolBits(ehufco, ehufsi, sym) + rest) == Got(sym, ehufsi[sym])
  {
    var p :| 0 <= p < NumCodes(htbl.bits) && htbl.huffval[p] == sym;
    DecodeWord(htbl, p, rest);
  }
}
