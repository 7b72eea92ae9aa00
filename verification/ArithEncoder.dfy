// jcarith.c: arith_encode and finish_pass.  The registers, the lazily written output and the two
// counters of stacked 0xFF and pending 0x00 bytes represent one unbounded-precision interval.
module ArithEncoder {
  import opened Numerals
  import opened ByteStuffing
  import opened ArithTable
  import opened ArithIdeal

  // The registers over n completed bytes of value v.  The bound on c + a is what keeps the byte
  // stored after a carry away from 0xFF, and all registers within 32 bits; the last conjunct
  // says that the interval has not left the unit interval.
  ghost predicate SoundRegisters(bins: seq<Bin>, v: nat, n: nat, c: int, a: int, ct: int) {
    && ValidBins(bins) && 0 < a <= 0x1_0000 && 1 <= ct <= 11 && 0 <= c
    && (if ct > 8 then n == 0 && c + a <= 0x1_0000 * Pow2(11 - ct) else c + a <= 0x9_0000 * Pow2(8 - ct))
    && Shl(v, 27 - ct) + c + a <= Pow2(8 * n + 27 - ct)
  }

  function BaseOf(v: nat, c: nat, ct: int): nat
    requires ct <= 27
  {
    Shl(v, 27 - ct) + c
  }

  lemma ShiftWithin(bins: seq<Bin>, v: nat, n: nat, c: int, a: int, ct: int)
    requires SoundRegisters(bins, v, n, c, a, ct) && a < 0x8000 && ct > 1
    ensures SoundRegisters(bins, v, n, 2 * c, 2 * a, ct - 1)
    ensures BaseOf(v, 2 * c, ct - 1) == 2 * BaseOf(v, c, ct)
  {
    assert Shl(v, 28 - ct) == 2 * Shl(v, 27 - ct);
    assert Pow2(8 * n + 28 - ct) == 2 * Pow2(8 * n + 27 - ct);
    assert ct > 9 ==> Pow2(12 - ct) == 2 * Pow2(11 - ct);
    assert ct <= 8 ==> Pow2(9 - ct) == 2 * Pow2(8 - ct);
    Pow2Small();
  }

  lemma NarrowSound(bins: seq<Bin>, v: nat, n: nat, c: int, a: int, ct: int, skip: nat, a0: int, st: nat, next: Bin)
    requires SoundRegisters(bins, v, n, c, a0, ct) && a > 0 && skip + a <= a0
    requires st < |bins| && ValidBin(next)
    ensures SoundRegisters(bins, v, n, c + skip, a, ct)
    ensures SoundRegisters(bins[st := next], v, n, c + skip, a, ct)
  {
  }

  lemma StartSound(bins: seq<Bin>, v: nat, n: nat, c: int, a: int, ct: int)
    requires ValidBins(bins) && v == 0 && n == 0 && c == 0 && a == 0x1_0000 && ct == 11
    ensures SoundRegisters(bins, v, n, c, a, ct) && Shl(v, 27 - ct) == 0
  {
    ShlScales(v, 16);
    Pow2Small();
  }

  // The shift that completes a byte: the nine bits above bit 19 are a data byte and a carry, and
  // the completed bytes have room for that carry.
  lemma ShiftByte(bins: seq<Bin>, v: nat, n: nat, c: int, a: int)
    requires SoundRegisters(bins, v, n, c, a, 1) && a < 0x8000
    ensures 2 * c < 0x900_0000
    ensures 2 * c >= 0x800_0000 ==> v + 1 < Pow2(8 * n)
    ensures SoundRegisters(bins, 256 * v + 2 * c / 0x8_0000, n + 1, 2 * c % 0x8_0000, 2 * a, 8)
    ensures BaseOf(256 * v + 2 * c / 0x8_0000, 2 * c % 0x8_0000, 8) == 2 * BaseOf(v, c, 1)
  {
    Pow2Small();
    assert Pow2(26) == 0x400_0000;
    ShlScales(v, 26);
    ShlScales(256 * v + 2 * c / 0x8_0000, 19);
    Pow2Add(8 * n, 26);
    Pow2Add(8 * n, 27);
    assert 8 * (n + 1) + 27 - 8 == 8 * n + 27;
  }

  lemma CarryValue(head: seq<byte>, b: nat, n: nat)
    requires b <= 254
    ensures Value(head + [b + 1] + Repeat(0, n)) == Value(head + [b] + Repeat(255, n)) + 1
  {
    ValueOnes(head + [b], n);
    ValueZeros(head + [b + 1], n);
    ValueSnoc(head, b);
    ValueSnoc(head, b + 1);
  }

  // Nothing but 0xFF digits leaves no room for a carry.
  lemma NoCarry(digits: seq<byte>, n: nat)
    requires digits == [] + Repeat(0, 0) + [] + Repeat(255, n)
    ensures Value(digits) + 1 == Pow2(8 * |digits|)
  {
    assert digits == [] + Repeat(255, n);
    ValueOnes([], n);
  }

  lemma ZerosGrow(s: seq<byte>, n: nat)
    ensures s + Repeat(0, n + 1) == s + Repeat(0, n) + [0]
  {
    RepeatSnoc(0, n);
  }

  lemma NoZeros(s: seq<byte>)
    ensures s + Repeat(0, 0) == s && s + [] == s
  {
  }

  lemma StackGrows(head: seq<byte>, n: nat)
    ensures head + Repeat(255, n) + [255] == head + Repeat(255, n + 1)
    ensures Value(head + Repeat(255, n) + [255]) == 256 * Value(head + Repeat(255, n)) + 255
  {
    RepeatSnoc(255, n);
    ValueSnoc(head + Repeat(255, n), 255);
  }

  lemma StackEmpty(head: seq<byte>, b: byte)
    ensures head + [b] + Repeat(255, 0) == head + [b]
    ensures Value(head + [b]) == 256 * Value(head) + b
  {
    ValueSnoc(head, b);
  }

  class Encoder {
    var c: int            // base of the coding interval, below the bytes already shifted out
    var a: int            // size of the coding interval
    var sc: nat           // stacked 0xFF bytes, which a carry might still change
    var zc: nat           // pending 0x00 bytes, which might be discarded at the end
    var ct: int           // shifts until the next byte is complete
    var buffer: int       // most recent byte that is not 0xFF; -1 while there is none
    var out: seq<byte>
    var bins: seq<Bin>
    ghost var sent: seq<byte>    // the data bytes of out, without stuffing
    ghost var digits: seq<byte>  // all completed bytes, written or not

    ghost predicate Written()
      reads this`out, this`sent
    {
      && out == Stuff(sent)
      && (sent != [] ==> sent[|sent| - 1] != 0)
    }

    // The completed bytes: those written, the pending zeros, the buffer, the stacked 0xFFs.
    ghost predicate Layout()
      reads this`buffer, this`zc, this`sc, this`sent, this`digits
    {
      && -1 <= buffer <= 254
      && (buffer < 0 ==> zc == 0 && sent == [])
      && digits == sent + Repeat(0, zc) + (if buffer < 0 then [] else [buffer]) + Repeat(255, sc)
    }

    // Holds between any two shifts.
    ghost predicate Sound()
      reads this
    {
      && Written() && Layout()
      && SoundRegisters(bins, Value(digits), |digits|, c, a, ct)
    }

    ghost predicate Valid()
      reads this
    {
      Sound() && a >= 0x8000
    }

    // The interval represented.
    ghost function Interval(): Coder
      requires ct <= 11 && 0 <= c && 0 <= a
      reads this
    {
      Coder(Shl(Value(digits), 27 - ct) + c, a, 8 * |digits| + 11 - ct, bins)
    }

    constructor (bins: seq<Bin>)
      requires ValidBins(bins)
      ensures Valid() && Interval() == Start(bins) && out == []
    {
      c, a, sc, zc, ct, buffer := 0, 0x1_0000, 0, 0, 11, -1;
      this.bins := bins;
      out, sent, digits := [], [], [];
      new;
      StartSound(this.bins, Value(digits), |digits|, c, a, ct);
    }

    // One data byte, with the zero byte that must follow 0xFF.
    method EmitData(b: byte)
      requires out == Stuff(sent)
      modifies this`out, this`sent
      ensures out == Stuff(sent) && sent == old(sent) + [b]
      ensures old(out) <= out
    {
      StuffSnoc(sent, b);
      out := out + [b];
      if b == 0xFF {
        out := out + [0];
      }
      sent := sent + [b];
    }

    method EmitPendingZeros()
      requires out == Stuff(sent)
      modifies this`out, this`sent, this`zc
      ensures out == Stuff(sent) && zc == 0 && sent == old(sent) + Repeat(0, old(zc))
      ensures old(out) <= out
    {
      ghost var n := zc;
      assert sent == sent + Repeat(0, 0);
      while zc > 0
        invariant out == Stuff(sent) && old(out) <= out
        invariant zc <= n && sent == old(sent) + Repeat(0, n - zc)
      {
        EmitData(0);
        zc := zc - 1;
      }
    }

    method EmitAfterZeros(b: byte)
      requires out == Stuff(sent) && b > 0
      modifies this`out, this`sent, this`zc
      ensures Written() && zc == 0 && sent == old(sent + Repeat(0, zc)) + [b]
      ensures old(out) <= out
    {
      EmitPendingZeros();
      EmitData(b);
    }

    // A carry out of the C register: it ends in the buffer byte, and turns the stacked 0xFF
    // bytes behind it into zeros.  No byte already written changes.
    method PropagateCarry()
      requires Written() && Layout()
      requires Value(digits) + 1 < Pow2(8 * |digits|)
      modifies this`out, this`sent, this`zc, this`sc
      ensures Written() && sc == 0 && old(out) <= out
      ensures |sent| + zc == |digits| && Value(sent + Repeat(0, zc)) == Value(digits) + 1
    {
      ghost var head := sent + Repeat(0, zc);
      ghost var low := sc;
      if buffer >= 0 {
        CarryValue(head, buffer, low);
        EmitAfterZeros(buffer + 1);
      } else {
        NoCarry(digits, sc);
      }
      zc := zc + sc;
      sc := 0;
    }

    method EmitStacked()
      requires out == Stuff(sent) && sc > 0
      modifies this`out, this`sent, this`sc
      ensures Written() && sc == 0 && old(out) <= out
      ensures sent == old(sent) + Repeat(255, old(sc))
    {
      ghost var n := sc;
      assert sent == sent + Repeat(255, 0);
      while sc > 0
        invariant out == Stuff(sent) && old(out) <= out
        invariant sc < n ==> Written()
        invariant sc <= n && sent == old(sent) + Repeat(255, n - sc)
      {
        EmitData(0xFF);
        sc := sc - 1;
      }
    }

    method ReleaseBuffer()
      requires Written() && Layout()
      modifies this`out, this`sent, this`zc
      ensures Written() && old(out) <= out
      ensures digits == sent + Repeat(0, zc) + Repeat(255, sc)
    {
      ghost var head := sent + Repeat(0, zc);
      if buffer == 0 {
        ZerosGrow(sent, zc);
        zc := zc + 1;
      } else if buffer > 0 {
        EmitAfterZeros(buffer);
        NoZeros(sent);
      } else {
        NoZeros(head);
        assert head == [];
      }
    }

    // No carry: the buffer and the stacked bytes are final.
    method ReleaseStack()
      requires Written() && Layout()
      modifies this`out, this`sent, this`zc, this`sc
      ensures Written() && sc == 0 && old(out) <= out
      ensures digits == sent + Repeat(0, zc)
    {
      ReleaseBuffer();
      if sc > 0 {
        EmitPendingZeros();
        EmitStacked();
      }
    }

    method StackFF()
      requires Written() && Layout()
      modifies this`sc, this`digits
      ensures Layout() && digits == old(digits) + [255]
      ensures Value(digits) == 256 * Value(old(digits)) + 255
    {
      StackGrows(sent + Repeat(0, zc) + (if buffer < 0 then [] else [buffer]), sc);
      sc := sc + 1;
      digits := digits + [255];
    }

    method NewBuffer(b: byte)
      requires sc == 0 && b <= 254
      modifies this`buffer, this`digits
      ensures Layout() && digits == sent + Repeat(0, zc) + [b]
      ensures Value(digits) == 256 * Value(sent + Repeat(0, zc)) + b
    {
      StackEmpty(sent + Repeat(0, zc), b);
      buffer := b;
      digits := sent + Repeat(0, zc) + [b];
    }

    // The nine bits gathered above bit 19 of C: a data byte and a carry into the bytes before it.
    method PushByte(temp: nat)
      requires Written() && Layout() && temp < 0x120
      requires temp > 0xFF ==> Value(digits) + 1 < Pow2(8 * |digits|)
      modifies this`buffer, this`out, this`sent, this`zc, this`sc, this`digits
      ensures Written() && Layout() && old(out) <= out
      ensures |digits| == |old(digits)| + 1
      ensures Value(digits) == 256 * Value(old(digits)) + temp
    {
      if temp > 0xFF {
        PropagateCarry();
        NewBuffer(temp - 0x100);  // the low byte, which cannot be 0xFF here
      } else if temp == 0xFF {
        StackFF();
      } else {
        ReleaseStack();
        NewBuffer(temp);
      }
    }

    // The shift counter has reached zero: a byte leaves the C register.
    method StoreByte(ghost c0: int, ghost a0: int)
      requires Written() && Layout() && c == 2 * c0 && a == 2 * a0 && a0 < 0x8000 && ct == 0
      requires SoundRegisters(bins, Value(digits), |digits|, c0, a0, 1)
      modifies this`c, this`ct, this`buffer, this`out, this`sent, this`zc, this`sc, this`digits
      ensures Written() && Layout() && old(out) <= out
      ensures |digits| == |old(digits)| + 1 && ct == 8
      ensures SoundRegisters(bins, Value(digits), |digits|, c, a, 8)
      ensures BaseOf(Value(digits), c, 8) == 2 * BaseOf(Value(old(digits)), c0, 1)
    {
      ShiftByte(bins, Value(digits), |digits|, c0, a0);
      PushByte(c / 0x8_0000);
      c := c % 0x8_0000;
      ct := ct + 8;
    }

    // One pass through the renormalisation loop.
    method Shift()
      requires Sound() && a < 0x8000
      modifies this`c, this`a, this`ct, this`buffer, this`out, this`sent, this`zc, this`sc, this`digits
      ensures Sound() && old(out) <= out && a == 2 * old(a)
      ensures Interval() == Doubled(old(Interval()))
    {
      ghost var twice := Doubled(Interval());
      if ct > 1 {
        ShiftWithin(bins, Value(digits), |digits|, c, a, ct);
      }
      a := a * 2;
      c := c * 2;
      ct := ct - 1;
      if ct == 0 {
        StoreByte(old(c), old(a));
      }
      assert Interval() == twice;
    }

    // arith_encode: code the decision val with statistics bin st.
    method Encode(st: nat, val: nat)
      requires Valid() && st < |bins| && val <= 1
      modifies this
      ensures Valid() && old(out) <= out
      ensures Interval() == Step(old(Interval()), Decision(st, val))
    {
      var sv := bins[st];
      var lps := val != Mps(sv);
      var done := Select(st, Qe(sv), lps, NextBin(sv, lps));
      if !done {
        Renormalise();
      }
    }

    // The choice of subinterval, given the size and the successor that the table has for the bin.
    // done tells that the more probable symbol left a large enough interval.
    method Select(st: nat, qe: nat, lps: bool, next: Bin) returns (done: bool)
      requires Valid() && st < |bins| && 0 < qe < 0x8000 && ValidBin(next)
      modifies this`c, this`a, this`bins
      ensures Sound()
      ensures Interval() == Split(old(Interval()), st, qe, lps, next)
      ensures done ==> a >= 0x8000
    {
      ghost var half := Split(Interval(), st, qe, lps, next);
      var c1, a1;
      c1, a1, done := Choose(c, a - qe, qe, lps);
      NarrowSound(bins, Value(digits), |digits|, c, a1, ct, c1 - c, a, st, next);
      c, a := c1, a1;
      if !done {
        bins := bins[st := next];
      }
      assert Interval() == half;
    }

    // The base and the size of the chosen subinterval; rest is the size of the lower one.
    method Choose(c: nat, rest: nat, qe: nat, lps: bool) returns (c1: nat, a1: nat, done: bool)
      requires 0 < qe < 0x8000 <= rest + qe
      ensures c1 == (if TakesUpper(rest, qe, lps) then c + rest else c)
      ensures a1 == (if TakesUpper(rest, qe, lps) then qe else rest)
      ensures done == (!lps && rest >= 0x8000)
    {
      c1, a1 := c, rest;
      if lps {
        if a1 >= qe {
          c1 := c1 + a1;
          a1 := qe;
        }
      } else {
        if a1 >= 0x8000 {
          return c1, a1, true;
        }
        if a1 < qe {
          c1 := c1 + a1;
          a1 := qe;
        }
      }
      done := false;
    }

    // The loop of arith_encode.  It is entered with a < 0x8000 only, so that its test may come first.
    method Renormalise()
      requires Sound()
      modifies this`c, this`a, this`ct, this`buffer, this`out, this`sent, this`zc, this`sc, this`digits
      ensures Valid() && old(out) <= out
      ensures Interval() == Renorm(old(Interval()))
    {
      ghost var first := Interval();
      while a < 0x8000
        invariant Sound() && old(out) <= out
        invariant Renorm(Interval()) == Renorm(first)
        decreases 0x8000 - a
      {
        RenormDoubled(Interval());
        Shift();
      }
    }

    // finish_pass: settle on one point of the interval and write its bytes, without trailing zeros.
    method FinishPass()
      requires Valid()
      modifies this
      ensures Written() && old(out) <= out
      ensures Locates(sent, old(Interval()))
    {
      SettleRegister();
      var b1, b2 := FlushStack();
      ghost var z := FinishBytes(b1, b2);
      PointLocates(sent, z, Value(digits), |digits|, c / 0x800, old(Interval()), ct);
    }

    method SettleRegister()
      requires Valid()
      modifies this`c
      ensures 0 <= c < 0x900_0000 && c % 0x800 == 0
      ensures c >= 0x800_0000 ==> Value(digits) + 1 < Pow2(8 * |digits|)
      ensures old(Interval()).base * Pow2(ct) <= Value(digits) * 0x800_0000 + c
      ensures Value(digits) * 0x800_0000 + c < (old(Interval()).base + a) * Pow2(ct)
    {
      var temp := FinalPoint();
      FinalRegister(bins, Value(digits), |digits|, c, a, ct, temp, temp * Pow2(ct));
      c := temp * Pow2(ct);
    }

    // The last carry, if there is one, and all bytes before the two that are still in the register.
    method FlushStack() returns (b1: byte, b2: byte)
      requires Written() && Layout() && 0 <= c < 0x900_0000
      requires c >= 0x800_0000 ==> Value(digits) + 1 < Pow2(8 * |digits|)
      modifies this`out, this`sent, this`zc, this`sc
      ensures Written() && old(out) <= out
      ensures |sent| + zc == |digits|
      ensures Value(sent + Repeat(0, zc) + [b1] + [b2]) == Value(digits) * 0x1_0000 + c / 0x800
    {
      var low := c / 0x800;
      if c >= 0x800_0000 {
        PropagateCarry();
        low := low - 0x1_0000;
      } else {
        ReleaseStack();
      }
      b1, b2 := low / 0x100, low % 0x100;
      TwoDigits(sent + Repeat(0, zc), b1, b2, low);
    }

    // The point of the interval with the largest number of trailing zero bits.
    method FinalPoint() returns (temp: nat)
      requires 0 <= c && 0x8000 <= a <= 0x1_0000
      ensures c <= temp < c + a && temp % 0x8000 == 0
      ensures forall p: nat, k: nat :: c <= p < c + a && EndsInZeros(p, k) ==> EndsInZeros(temp, k)
    {
      var high := (a - 1 + c) / 0x1_0000;
      temp := high * 0x1_0000;
      DivModIs(temp, 2 * high, 0x8000, 0);
      if temp < c {
        temp := temp + 0x8000;
        DivModIs(temp, 2 * high + 1, 0x8000, 0);
      }
      Roundest(c, a, high, temp);
    }

    // The two bytes left in the register, after the bytes completed earlier.  The result counts
    // the zero bytes that are not written.
    method FinishBytes(b1: byte, b2: byte) returns (ghost z: nat)
      requires Written()
      modifies this`out, this`sent, this`zc
      ensures Written() && old(out) <= out
      ensures sent + Repeat(0, z) == old(sent + Repeat(0, zc)) + [b1] + [b2]
    {
      ghost var head := sent + Repeat(0, zc);
      z := zc + 2;
      if b1 != 0 || b2 != 0 {
        EmitPendingZeros();
        EmitData(b1);
        z := 1;
        if b2 != 0 {
          EmitData(b2);
          z := 0;
        }
      }
      assert sent + Repeat(0, z) == head + [b1] + [b2];
    }
  }

  ghost predicate EndsInZeros(p: nat, k: nat) {
    p % Pow2(k) == 0
  }

  // At most one multiple of 0x10000 is in the interval; if none is, an odd multiple of 0x8000 is.
  lemma Roundest(c: int, a: int, high: nat, temp: nat)
    requires 0 <= c && 0x8000 <= a <= 0x1_0000 && high == (a - 1 + c) / 0x1_0000
    requires temp == if high * 0x1_0000 < c then high * 0x1_0000 + 0x8000 else high * 0x1_0000
    ensures forall p: nat, k: nat :: c <= p < c + a && EndsInZeros(p, k) ==> EndsInZeros(temp, k)
  {
    forall p: nat, k: nat | c <= p < c + a && EndsInZeros(p, k)
      ensures EndsInZeros(temp, k)
    {
      Pow2Small();
      if k <= 15 {
        var half := if high * 0x1_0000 < c then 2 * high + 1 else 2 * high;
        FewerZeros(temp, half, k, 15 - k, 0x8000);
      } else {
        var wide := Pow2(k);
        assert p == p / wide * wide;
        FewerZeros(p, p / wide, 16, k - 16, wide);
        assert p == p / 0x1_0000 * 0x1_0000;
        assert p == temp;
      }
    }
  }

  lemma FewerZeros(p: nat, q: nat, j: nat, more: nat, w: nat)
    requires p == q * w && w == Pow2(j + more)
    ensures p % Pow2(j) == 0
  {
    Pow2Add(j, more);
    MulAssoc(q, Pow2(more), Pow2(j));
    DivModIs(p, q * Pow2(more), Pow2(j), 0);
  }

  lemma TwoDigits(head: seq<byte>, b1: byte, b2: byte, low: int)
    requires low == 0x100 * b1 + b2
    ensures Value(head + [b1] + [b2]) == Value(head) * 0x1_0000 + low
  {
    ValueSnoc(head, b1);
    ValueSnoc(head + [b1], b2);
  }

  // The chosen point, moved up by the shifts still missing from a whole byte.
  lemma FinalRegister(bins: seq<Bin>, v: nat, n: nat, c0: int, a: int, ct: int, temp: nat, c: nat)
    requires SoundRegisters(bins, v, n, c0, a, ct)
    requires c0 <= temp < c0 + a && temp % 0x8000 == 0 && c == temp * Pow2(ct)
    ensures c % 0x800 == 0 && c < 0x900_0000
    ensures c >= 0x800_0000 ==> v + 1 < Pow2(8 * n)
    ensures BaseOf(v, c0, ct) * Pow2(ct) <= v * 0x800_0000 + c < (BaseOf(v, c0, ct) + a) * Pow2(ct)
  {
    PointWithin(v, c0, a, ct, temp);
    RegisterFits(bins, v, n, c0, a, ct, temp, c);
    RegisterBound(c0, a, ct, temp, c);
    RegisterAligned(temp, ct, c);
  }

  lemma PointWithin(v: nat, c0: nat, a: int, ct: int, temp: nat)
    requires 1 <= ct <= 11 && c0 <= temp < c0 + a
    ensures BaseOf(v, c0, ct) * Pow2(ct) <= v * 0x800_0000 + temp * Pow2(ct) < (BaseOf(v, c0, ct) + a) * Pow2(ct)
  {
    RegisterMoved(v, temp, ct);
    ScaleLe(BaseOf(v, c0, ct), BaseOf(v, temp, ct), Pow2(ct));
    ScaleLt(BaseOf(v, temp, ct), BaseOf(v, c0, ct) + a, Pow2(ct));
  }

  lemma RegisterMoved(v: nat, temp: nat, ct: int)
    requires 1 <= ct <= 11
    ensures BaseOf(v, temp, ct) * Pow2(ct) == v * 0x800_0000 + temp * Pow2(ct)
  {
    Pow2Small();
    ShlScales(v, 27 - ct);
    Pow2Add(27 - ct, ct);
    Distribute(v, Pow2(27 - ct), temp, Pow2(ct));
  }

  lemma RegisterFits(bins: seq<Bin>, v: nat, n: nat, c0: int, a: int, ct: int, temp: nat, c: nat)
    requires SoundRegisters(bins, v, n, c0, a, ct) && temp < c0 + a && c == temp * Pow2(ct)
    ensures c >= 0x800_0000 ==> v + 1 < Pow2(8 * n)
  {
    RegisterMoved(v, temp, ct);
    ScaleLt(BaseOf(v, temp, ct), Pow2(8 * n + 27 - ct), Pow2(ct));
    assert Pow2(8 * n + 27 - ct) * Pow2(ct) == Pow2(8 * n) * 0x800_0000 by {
      Pow2Add(8 * n + 27 - ct, ct);
      Pow2Add(8 * n, 27);
      Pow2Small();
    }
  }

  lemma RegisterAligned(temp: nat, ct: int, c: nat)
    requires 1 <= ct <= 11 && temp % 0x8000 == 0 && c == temp * Pow2(ct)
    ensures c % 0x800 == 0
  {
    var q := temp / 0x8000;
    var m := q * Pow2(ct);
    MulAssoc(0x8000, q, Pow2(ct));
    DivModIs(c, 16 * m, 0x800, 0);
  }

  lemma RegisterBound(c0: int, a: int, ct: int, temp: nat, c: nat)
    requires 1 <= ct <= 11 && temp < c0 + a && c == temp * Pow2(ct)
    requires if ct > 8 then c0 + a <= 0x1_0000 * Pow2(11 - ct) else c0 + a <= 0x9_0000 * Pow2(8 - ct)
    ensures c < 0x900_0000
  {
    Pow2Small();
    ScaleLt(temp, c0 + a, Pow2(ct));
    var top, k := if ct > 8 then 11 else 8, if ct > 8 then 0x1_0000 else 0x9_0000;
    ScaleLe(c0 + a, k * Pow2(top - ct), Pow2(ct));
    MulAssoc(k, Pow2(top - ct), Pow2(ct));
    Pow2Add(top - ct, ct);
  }

  // The same comparison of b with x / y, on both sides of a change of denominator.
  lemma Rescaled(b: int, x: int, y: int, p: nat, q: int, r: nat)
    requires q * r == p * y && p > 0 && r > 0
    ensures b * r <= x * y ==> b * p <= x * q
    ensures b * r > x * y ==> b * p > x * q
  {
    calc {
      (x * q) * r;
      { MulAssoc(x, q, r); }
      x * (p * y);
      { MulAssoc(x, p, y); MulAssoc(p, x, y); }
      p * (x * y);
    }
    MulAssoc(b, p, r);
    assert (b * p) * r == p * (b * r);
    if b * r <= x * y {
      ScaleLe(b * r, x * y, p);
      if b * p > x * q {
        ScaleLt(x * q, b * p, r);
      }
    } else {
      ScaleLt(x * y, b * r, p);
      if b * p <= x * q {
        ScaleLe(b * p, x * q, r);
      }
    }
  }

  // Digits that spell a point of the interval locate it, with or without their trailing zeros.
  lemma PointLocates(s: seq<byte>, z: nat, v: nat, n: nat, u: nat, co: Coder, ct: int)
    requires 1 <= ct <= 11 && |s| + z == n + 2 && 16 + co.shift + ct == 8 * n + 27
    requires Value(s + Repeat(0, z)) == v * 0x1_0000 + u
    requires co.base * Pow2(ct) <= v * 0x800_0000 + 0x800 * u < (co.base + co.width) * Pow2(ct)
    ensures Locates(s, co)
  {
    var p, q, r, y := Pow2(8 * |s|), Pow2(16 + co.shift), Pow2(ct), Pow2(8 * z + 11);
    assert q * r == p * y by {
      Pow2Add(16 + co.shift, ct);
      Pow2Add(8 * |s|, 8 * z + 11);
    }
    assert Value(s) * y == v * 0x800_0000 + 0x800 * u by {
      ValueZeros(s, z);
      Pow2Add(8 * z, 11);
      Pow2Small();
      MulAssoc(Value(s), Pow2(8 * z), 0x800);
    }
    Rescaled(co.base, Value(s), y, p, q, r);
    Rescaled(co.base + co.width, Value(s), y, p, q, r);
  }
}
