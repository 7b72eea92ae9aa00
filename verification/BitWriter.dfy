// jchuff.c: emit_bits and flush_bits.  Bits gather in a 24-bit register and leave it as stuffed bytes.
module BitWriter {
  import opened Numerals
  import opened ByteStuffing
  import opened CanonicalCode

  const BYTE_BITS := 8

  function BytesToBits(s: seq<byte>): seq<bit> {
    if s == [] then [] else BytesToBits(s[..|s| - 1]) + ToBits(s[|s| - 1], BYTE_BITS)
  }

  lemma BytesToBitsSnoc(s: seq<byte>, b: byte)
    ensures BytesToBits(s + [b]) == BytesToBits(s) + ToBits(b, BYTE_BITS)
  {
    assert (s + [b])[..|s|] == s;
  }

  // The size low bits of a code in two's complement.
  function LowBits(code: int, size: nat): (s: seq<bit>)
    ensures |s| == size
  {
    ToBits(code % Pow2(size), size)
  }

  lemma HalfOfRest(v: nat, p: nat)
    requires p > 0
    ensures v % (2 * p) / 2 == v / 2 % p && v % (2 * p) % 2 == v % 2
  {
    var q, m := v / (2 * p), v % (2 * p);
    assert v == q * (2 * p) + m;
    assert q * (2 * p) == 2 * (q * p) by { MulAssoc(q, 2, p); }
    DivModIs(v / 2, q, p, m / 2);
  }

  // A code that fits its size, or does not: emit_bits masks it.
  lemma {:induction false} LowBitsOf(code: nat, size: nat)
    ensures LowBits(code, size) == ToBits(code, size)
  {
    if size > 0 {
      HalfOfRest(code, Pow2(size - 1));
      LowBitsOf(code / 2, size - 1);
    }
  }

  lemma {:induction false} ToBitsInverse(s: seq<bit>)
    ensures ToBits(BitsValue(s), |s|) == s
  {
    BitsValueBound(s);
    ToBitsValue(BitsValue(s), |s|);
    BitsValueInjective(ToBits(BitsValue(s), |s|), s);
  }

  // The register that holds the bits p, left-justified.
  function Left(p: seq<bit>): nat
    requires |p| <= 24
  {
    Shl(BitsValue(p), 24 - |p|)
  }

  lemma NothingHeld(p: seq<bit>)
    requires p == []
    ensures Left(p) == 0
  {
    ShlScales(BitsValue(p), 24 - |p|);
  }

  // New bits below those already in the register.
  lemma Merging(pending: seq<bit>, more: seq<bit>)
    requires |pending| + |more| <= 24
    ensures BitsValue(more) * Pow2(24 - |pending| - |more|) + BitsValue(pending) * Pow2(24 - |pending|) ==
      BitsValue(pending + more) * Pow2(24 - |pending + more|)
  {
    var rest := Pow2(24 - |pending| - |more|);
    BitsValueAppend(pending, more);
    Pow2Add(|more|, 24 - |pending| - |more|);
    Distribute(BitsValue(pending), Pow2(|more|), BitsValue(more), rest);
  }

  lemma Gathering(pending: seq<bit>, code: int, size: nat)
    requires |pending| + size <= 24
    ensures code % Pow2(size) * Pow2(24 - (|pending| + size)) + Left(pending) == Left(pending + LowBits(code, size))
  {
    ToBitsValue(code % Pow2(size), size);
    Merging(pending, LowBits(code, size));
    ShlScales(BitsValue(pending), 24 - |pending|);
    ShlScales(BitsValue(pending + LowBits(code, size)), 24 - (|pending| + size));
  }

  // The top byte of the register, and the register without it.
  lemma TopByte(p: seq<bit>, b: nat)
    requires 8 <= |p| <= 24 && b == BitsValue(p) * Pow2(24 - |p|)
    ensures b / 0x1_0000 == BitsValue(p[..8]) < 256
    ensures b * 0x100 % 0x100_0000 == BitsValue(p[8..]) * Pow2(24 - |p[8..]|)
  {
    var hi, lo, k := BitsValue(p[..8]), BitsValue(p[8..]), Pow2(24 - |p|);
    assert p == p[..8] + p[8..];
    BitsValueAppend(p[..8], p[8..]);
    BitsValueBound(p[..8]);
    BitsValueBound(p[8..]);
    Pow2Small();
    assert Pow2(|p[8..]|) * k == 0x1_0000 by {
      Pow2Add(|p[8..]|, 24 - |p|);
    }
    Distribute(hi, Pow2(|p[8..]|), lo, k);
    ScaleLt(lo, Pow2(|p[8..]|), k);
    assert b == hi * 0x1_0000 + lo * k;
    SplitAt16(b, hi, lo * k);
    assert Pow2(24 - |p[8..]|) == Pow2(8) * k by {
      Pow2Add(8, 24 - |p|);
    }
    MulAssoc(lo, 0x100, k);
  }

  method SplitTop(ghost p: seq<bit>, b: nat) returns (c: byte, rest: nat)
    requires 8 <= |p| <= 24 && b == Left(p)
    ensures c == BitsValue(p[..BYTE_BITS]) && rest == Left(p[8..])
  {
    ShlScales(BitsValue(p), 24 - |p|);
    ShlScales(BitsValue(p[8..]), 24 - |p[8..]|);
    TopByte(p, b);
    c := b / 0x1_0000;
    rest := b * 0x100 % 0x100_0000;
  }

  lemma SplitAt16(b: nat, hi: nat, low: nat)
    requires b == hi * 0x1_0000 + low && low < 0x1_0000
    ensures b / 0x1_0000 == hi && b * 0x100 % 0x100_0000 == low * 0x100
  {
  }

  // Moving the first eight pending bits into a byte.
  lemma MoveByte(data: seq<byte>, p: seq<bit>, c: byte)
    requires |p| >= BYTE_BITS && c == BitsValue(p[..BYTE_BITS])
    ensures BytesToBits(data + [c]) + p[BYTE_BITS..] == BytesToBits(data) + p
  {
    assert p == p[..BYTE_BITS] + p[BYTE_BITS..];
    BytesToBitsSnoc(data, c);
    ToBitsInverse(p[..BYTE_BITS]);
    Reassociate(BytesToBits(data), p[..BYTE_BITS], p[BYTE_BITS..]);
  }

  lemma OneMoreByte(before: seq<byte>, data: seq<byte>, c: byte)
    ensures before + Stuff(data + [c]) == (before + Stuff(data)) + StuffedByte(c)
  {
    StuffSnoc(data, c);
    Reassociate(before, Stuff(data), StuffedByte(c));
  }

  // What remains when the bits still in the register are given up.
  lemma CutOnes(bits: seq<bit>, held: seq<bit>, was: seq<bit>, ones: seq<bit>, k: nat)
    requires bits + held == was + ones && k + |held| == |ones|
    ensures bits == was + ones[..k]
  {
    assert bits == (was + ones)[..|was| + k];
  }

  class Writer {
    var putBuffer: nat   // the 24 bits of the register, left-justified
    var putBits: nat     // how many of them are valid
    var out: seq<byte>
    ghost var before: seq<byte>  // earlier segments, with the markers that end them
    ghost var data: seq<byte>    // the other bytes of out, without stuffing
    ghost var pending: seq<bit>  // the bits in the register

    ghost predicate Valid()
      reads this`putBuffer, this`putBits, this`out, this`before, this`data, this`pending
    {
      out == before + Stuff(data) && Register(7)
    }

    // Everything written so far in this segment.
    ghost function Bits(): seq<bit>
      reads this`data, this`pending
    {
      BytesToBits(data) + pending
    }

    constructor ()
      ensures Valid() && Bits() == [] && before == []
    {
      putBuffer, putBits, out := 0, 0, [];
      before, data, pending := [], [], [];
      new;
      NothingHeld(pending);
    }

    // emit_bits.  A size of 0 is an attempt to emit a symbol without a code.
    method EmitBits(code: int, size: nat) returns (ok: bool)
      requires Valid() && size <= 16
      modifies this`putBuffer, this`putBits, this`out, this`data, this`pending
      ensures Valid() && old(out) <= out
      ensures ok <==> size != 0
      ensures Bits() == old(Bits()) + LowBits(code, size)
    {
      if size == 0 {
        return false;
      }
      Gather(code, size);
      while putBits >= 8
        invariant out == before + Stuff(data) && Register(24) && old(out) <= out
        invariant Bits() == old(Bits()) + LowBits(code, size)
      {
        EmitTopByte();
      }
      ok := true;
    }

    ghost predicate Register(limit: nat)
      reads this`putBuffer, this`putBits, this`pending
    {
      |pending| == putBits <= limit <= 24 && putBuffer == Left(pending)
    }

    // Masking, aligning and merging the new bits.
    method Gather(code: int, size: nat)
      requires Register(7) && 1 <= size <= 16
      modifies this`putBuffer, this`putBits, this`pending
      ensures Register(24) && pending == old(pending) + LowBits(code, size)
    {
      Gathering(pending, code, size);
      var buffer := code % Pow2(size);
      putBits := putBits + size;
      putBuffer := buffer * Pow2(24 - putBits) + putBuffer;
      pending := pending + LowBits(code, size);
    }

    method EmitTopByte()
      requires out == before + Stuff(data) && Register(24) && putBits >= 8
      modifies this`putBuffer, this`putBits, this`out, this`data, this`pending
      ensures out == before + Stuff(data) && Register(24) && putBits == old(putBits) - 8
      ensures old(out) <= out && Bits() == old(Bits())
    {
      var c, rest := SplitTop(pending, putBuffer);
      OneMoreByte(before, data, c);
      MoveByte(data, pending, c);
      PutByte(c);
      putBuffer := rest;
      putBits := putBits - 8;
      data, pending := data + [c], pending[8..];
    }

    // emit_byte, with the zero byte that is stuffed after 0xFF.
    method PutByte(c: byte)
      modifies this`out
      ensures out == old(out) + StuffedByte(c)
    {
      out := out + [c];
      if c == 0xFF {
        out := out + [0];
      }
    }

    // flush_bits: the last partial byte is filled with fewer than eight ones.
    method FlushBits() returns (ghost k: nat)
      requires Valid()
      modifies this`putBuffer, this`putBits, this`out, this`data, this`pending
      ensures Valid() && old(out) <= out && pending == []
      ensures k < 8 && BytesToBits(data) == old(Bits()) + LowBits(0x7F, 7)[..k]
    {
      ghost var was, n := Bits(), putBits;
      var ok := EmitBits(0x7F, 7);
      ghost var ones := LowBits(0x7F, 7);
      k := 7 - putBits;
      CutOnes(BytesToBits(data), pending, was, ones, k);
      putBuffer, putBits := 0, 0;
      pending := [];
      NothingHeld(pending);
    }

    // emit_byte for the two bytes of a marker, between two segments.
    method EmitMarker(marker: byte)
      requires Valid() && pending == []
      modifies this`out, this`before, this`data
      ensures Valid() && out == old(out) + [0xFF, marker] && before == out && Bits() == []
    {
      out := out + [0xFF];
      out := out + [marker];
      before, data := out, [];
    }
  }
}
