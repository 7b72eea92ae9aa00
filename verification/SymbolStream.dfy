// A run of symbols through the tables, the bit packer, byte stuffing and back.
module SymbolStream {
  import opened Numerals
  import opened ByteStuffing
  import opened CanonicalCode
  import opened BitWriter
  import opened BitReader
  import opened DerivedTables
  import opened HuffmanDecode

  function SymbolString(ehufco: seq<nat>, ehufsi: seq<nat>, syms: seq<nat>): seq<bit>
    requires |ehufco| == |ehufsi| && forall i :: 0 <= i < |syms| ==> syms[i] < |ehufco|
  {
    if syms == [] then [] else SymbolBits(ehufco, ehufsi, syms[0]) + SymbolString(ehufco, ehufsi, syms[1..])
  }

  lemma {:induction false} SymbolStringSnoc(ehufco: seq<nat>, ehufsi: seq<nat>, syms: seq<nat>, sym: nat)
    requires |ehufco| == |ehufsi| && sym < |ehufco| && forall i :: 0 <= i < |syms| ==> syms[i] < |ehufco|
    ensures SymbolString(ehufco, ehufsi, syms + [sym]) ==
      SymbolString(ehufco, ehufsi, syms) + SymbolBits(ehufco, ehufsi, sym)
  {
    if syms == [] {
      assert [] + [sym] == [sym];
      assert [sym][1..] == [];
    } else {
      assert (syms + [sym])[1..] == syms[1..] + [sym];
      SymbolStringSnoc(ehufco, ehufsi, syms[1..], sym);
    }
  }

  // Every symbol of the run has a code.
  predicate Codable(ehufsi: seq<nat>, syms: seq<nat>) {
    |ehufsi| == 256 && forall i :: 0 <= i < |syms| ==> syms[i] < 256 && ehufsi[syms[i]] != 0
  }

  lemma EmittedBits(htbl: HuffTable, ehufco: seq<nat>, ehufsi: seq<nat>, sym: nat)
    requires Readable(htbl) && EncodesWith(htbl, ehufco, ehufsi) && sym < 256 && ehufsi[sym] != 0
    ensures 1 <= ehufsi[sym] <= 16 && LowBits(ehufco[sym], ehufsi[sym]) == SymbolBits(ehufco, ehufsi, sym)
  {
    var p :| 0 <= p < NumCodes(htbl.bits) && htbl.huffval[p] == sym;
    CodeRange(htbl.bits, p);
    DivModIs(ehufco[sym], 0, Pow2(ehufsi[sym]), ehufco[sym]);
  }

  method EncodeSymbols(htbl: HuffTable, ehufco: seq<nat>, ehufsi: seq<nat>, syms: seq<nat>)
    returns (bytes: seq<byte>, ghost data: seq<byte>, ghost k: nat)
    requires Readable(htbl) && EncodesWith(htbl, ehufco, ehufsi) && Codable(ehufsi, syms)
    ensures bytes == Stuff(data) && k < 8
    ensures BytesToBits(data) == SymbolString(ehufco, ehufsi, syms) + LowBits(0x7F, 7)[..k]
  {
    var writer := new Writer();
    EndPrefixes(syms);
    for i := 0 to |syms|
      invariant writer.Valid() && fresh(writer) && writer.before == []
      invariant writer.Bits() == SymbolString(ehufco, ehufsi, syms[..i])
    {
      Prefixes(syms, i);
      SymbolStringSnoc(ehufco, ehufsi, syms[..i], syms[i]);
      EmittedBits(htbl, ehufco, ehufsi, syms[i]);
      var ok := writer.EmitBits(ehufco[syms[i]], ehufsi[syms[i]]);
    }
    k := writer.FlushBits();
    bytes, data := writer.out, writer.data;
  }

  // One decoding step meets exactly the symbol that was encoded, and invents no bits.
  lemma NextSymbol(htbl: HuffTable, ehufco: seq<nat>, ehufsi: seq<nat>, sym: nat, tail: seq<bit>,
                   w: seq<bit>, k: nat, rest: seq<bit>, result: nat)
    requires Readable(htbl) && EncodesWith(htbl, ehufco, ehufsi) && sym < 256 && ehufsi[sym] != 0
    requires Takes(SymbolBits(ehufco, ehufsi, sym) + tail, w, k, rest) && Decode(htbl, w) == Got(result, |w|)
    ensures result == sym && rest == tail
  {
    var s := SymbolBits(ehufco, ehufsi, sym) + tail;
    SymbolRoundTrip(htbl, ehufco, ehufsi, sym, tail);
    DecodeMonotone(htbl, s, Zeros(k), 1);
    DecodeMonotone(htbl, w, rest, 1);
    assert s + Zeros(0) == s;
    assert rest == (w + rest)[|w|..] == s[|w|..] == tail;
  }

  lemma StringHead(ehufco: seq<nat>, ehufsi: seq<nat>, syms: seq<nat>, tail: seq<bit>)
    requires |ehufco| == |ehufsi| && |syms| > 0 && forall i :: 0 <= i < |syms| ==> syms[i] < |ehufco|
    ensures SymbolString(ehufco, ehufsi, syms) + tail ==
      SymbolBits(ehufco, ehufsi, syms[0]) + (SymbolString(ehufco, ehufsi, syms[1..]) + tail)
  {
    Reassociate(SymbolBits(ehufco, ehufsi, syms[0]), SymbolString(ehufco, ehufsi, syms[1..]), tail);
  }

  method DecodeNext(reader: Reader, htbl: HuffTable, tbl: DTable,
                    ghost ehufco: seq<nat>, ghost ehufsi: seq<nat>, ghost sym: nat, ghost tail: seq<bit>)
    returns (result: int)
    requires Readable(htbl) && DecodesWith(htbl, tbl) && EncodesWith(htbl, ehufco, ehufsi)
    requires sym < 256 && ehufsi[sym] != 0
    requires reader.Valid() && reader.Here() && reader.Rest() == SymbolBits(ehufco, ehufsi, sym) + tail
    modifies reader
    ensures reader.Valid() && reader.Here() && reader.Rest() == tail
    ensures result == sym
  {
    ghost var w, k;
    result, w, k := reader.HuffDecode(htbl, tbl);
    NextSymbol(htbl, ehufco, ehufsi, sym, tail, w, k, reader.Rest(), result);
  }

  method DecodeAt(reader: Reader, htbl: HuffTable, tbl: DTable, ghost ehufco: seq<nat>, ghost ehufsi: seq<nat>,
                  ghost syms: seq<nat>, ghost i: nat, ghost tail: seq<bit>)
    returns (sym: int)
    requires Readable(htbl) && DecodesWith(htbl, tbl) && EncodesWith(htbl, ehufco, ehufsi)
    requires i < |syms| && Codable(ehufsi, syms)
    requires reader.Valid() && reader.Here() && reader.Rest() == SymbolString(ehufco, ehufsi, syms[i..]) + tail
    modifies reader
    ensures reader.Valid() && reader.Here() && reader.Rest() == SymbolString(ehufco, ehufsi, syms[i + 1..]) + tail
    ensures sym == syms[i]
  {
    Suffixes(syms, i);
    StringHead(ehufco, ehufsi, syms[i..], tail);
    sym := DecodeNext(reader, htbl, tbl, ehufco, ehufsi, syms[i], SymbolString(ehufco, ehufsi, syms[i + 1..]) + tail);
  }

  method DecodeSymbols(htbl: HuffTable, tbl: DTable, input: seq<byte>, n: nat,
                       ghost ehufco: seq<nat>, ghost ehufsi: seq<nat>, ghost syms: seq<nat>, ghost tail: seq<bit>)
    returns (ok: bool, result: seq<nat>)
    requires Readable(htbl) && DecodesWith(htbl, tbl) && EncodesWith(htbl, ehufco, ehufsi)
    requires n == |syms| && Codable(ehufsi, syms) && Parse(input).marker != 0
    requires BytesToBits(Parse(input).data) == SymbolString(ehufco, ehufsi, syms) + tail
    ensures ok && result == syms
  {
    var reader := new Reader(input, []);
    assert input + [] == input;
    result := [];
    EndPrefixes(syms);
    while |result| < n
      invariant reader.Valid() && fresh(reader) && reader.Here()
      invariant |result| <= n && result == syms[..|result|]
      invariant reader.Rest() == SymbolString(ehufco, ehufsi, syms[|result|..]) + tail
    {
      Prefixes(syms, |result|);
      var sym := DecodeAt(reader, htbl, tbl, ehufco, ehufsi, syms, |result|, tail);
      if sym < 0 {
        return false, result;
      }
      result := result + [sym];
    }
    ok := true;
  }

  // Any run of coded symbols, written, flushed, ended by a marker and read back, is unchanged.
  method SymbolStreamRoundTrip(htbl: HuffTable, syms: seq<nat>, marker: byte, after: seq<byte>)
    returns (ok: bool, result: seq<nat>)
    requires IsTable(htbl) && Legal(htbl.bits) && SymbolsSound(htbl, NumCodes(htbl.bits), 255)
    requires forall i :: 0 <= i < |syms| ==> syms[i] in htbl.huffval[..NumCodes(htbl.bits)]
    requires marker != 0 && marker != 255
    ensures ok && result == syms
  {
    var okE, ehufco, ehufsi := MakeCDerivedTbl(htbl, false);
    var okD, tbl := MakeDDerivedTbl(htbl, false);
    assert Codable(ehufsi[..], syms);
    var bytes;
    ghost var data, k;
    bytes, data, k := EncodeSymbols(htbl, ehufco[..], ehufsi[..], syms);
    ParseStuffed(data, marker, after);
    ok, result := DecodeSymbols(htbl, tbl, bytes + ([0xFF, marker] + after), |syms|,
                                ehufco[..], ehufsi[..], syms, LowBits(0x7F, 7)[..k]);
  }
}
