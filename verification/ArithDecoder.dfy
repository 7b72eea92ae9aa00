// jdarith.c: arith_decode.  The C register holds the distance of the code stream from the base of
// the interval, followed by ct more stream bits; renormalisation is postponed to the next call.
module ArithDecoder {
  import opened Numerals
  import opened ByteStuffing
  import opened ArithTable
  import opened ArithIdeal

  // After the last data byte the decoder supplies zeros.
  function StreamAt(s: seq<byte>, k: nat): byte {
    if k < |s| then s[k] else 0
  }

  // The first k bytes of the stream, as a number.
  function Prefix(s: seq<byte>, k: nat): nat {
    if k == 0 then 0 else 256 * Prefix(s, k - 1) + StreamAt(s, k - 1)
  }

  lemma {:induction false} PrefixIsValue(s: seq<byte>, k: nat)
    requires k <= |s|
    ensures Prefix(s, k) == Value(s[..k])
  {
    if k > 0 {
      PrefixIsValue(s, k - 1);
      ValueSnoc(s[..k - 1], s[k - 1]);
      assert s[..k] == s[..k - 1] + [s[k - 1]];
    }
  }

  lemma {:induction false} PrefixPastEnd(s: seq<byte>, k: nat)
    ensures Prefix(s, |s| + k) == Value(s) * Pow2(8 * k)
  {
    if k == 0 {
      PrefixIsValue(s, |s|);
      assert s[..|s|] == s;
    } else {
      PrefixPastEnd(s, k - 1);
      Pow2Byte(k - 1);
      MulAssoc(256, Value(s), Pow2(8 * (k - 1)));
    }
  }

  lemma RoundDown(v: nat, r: nat, w: nat, q: nat)
    requires w < r && q > 0
    ensures v * (r * q) <= (v * r + w) * q < (v + 1) * (r * q)
  {
    MulAssoc(v, r, q);
    MulAssoc(v + 1, r, q);
    ScaleLe(v * r, v * r + w, q);
    ScaleLt(v * r + w, (v + 1) * r, q);
  }

  // A prefix is the whole fraction rounded down to its precision.
  lemma PrefixRoundsDown(s: seq<byte>, k: nat)
    ensures Prefix(s, k) * Pow2(8 * |s|) <= Value(s) * Pow2(8 * k)
    ensures Value(s) * Pow2(8 * k) < (Prefix(s, k) + 1) * Pow2(8 * |s|)
  {
    if k <= |s| {
      PrefixIsValue(s, k);
      assert s == s[..k] + s[k..];
      ValueAppend(s[..k], s[k..]);
      ValueBound(s[k..]);
      Pow2Add(8 * (|s| - k), 8 * k);
      RoundDown(Value(s[..k]), Pow2(8 * (|s| - k)), Value(s[k..]), Pow2(8 * k));
    } else {
      PrefixPastEnd(s, k - |s|);
      Pow2Add(8 * (k - |s|), 8 * |s|);
      MulAssoc(Value(s), Pow2(8 * (k - |s|)), Pow2(8 * |s|));
      ScaleLt(Prefix(s, k), Prefix(s, k) + 1, Pow2(8 * |s|));
    }
  }

  // Hence the whole fraction reaches a point at shift n exactly when the prefix seen so far does.
  lemma PrefixDecides(s: seq<byte>, k: nat, x: nat, n: nat, ct: nat)
    requires n + ct == 8 * k
    ensures Prefix(s, k) >= x * Pow2(ct) <==> Value(s) * Pow2(n) >= x * Pow2(8 * |s|)
  {
    PrefixRoundsDown(s, k);
    Pow2Add(n, ct);
    FloorDecides(Prefix(s, k), Value(s), x, Pow2(ct), Pow2(n), Pow2(8 * k), Pow2(8 * |s|));
  }

  // f is the floor of v * q * r / p.
  lemma FloorDecides(f: int, v: int, x: int, q: nat, r: nat, y: nat, p: nat)
    requires q > 0 && p > 0 && y == r * q && f * p <= v * y < (f + 1) * p
    ensures f >= x * q <==> v * r >= x * p
  {
    MulAssoc(v, r, q);
    FloorReaches(f, v * r, x, q, p);
  }

  lemma FloorReaches(f: int, v: int, x: int, q: nat, p: nat)
    requires q > 0 && p > 0 && f * p <= v * q < (f + 1) * p
    ensures f >= x * q <==> v >= x * p
  {
    MulAssoc(x, q, p);
    MulAssoc(x, p, q);
    if f >= x * q {
      ScaleLe(x * q, f, p);
      if v < x * p {
        ScaleLt(v, x * p, q);
      }
    } else {
      ScaleLe(f + 1, x * q, p);
      if v >= x * p {
        ScaleLe(x * p, v, q);
      }
    }
  }

  // The register over taken stream bytes, for an interval (base, a, shift).
  ghost predicate SoundRegister(s: seq<byte>, taken: nat, c: int, a: int, ct: int, base: nat, shift: nat) {
    && 0 < a <= 0x1_0000 && 0 <= ct <= 7 && 16 + shift + ct == 8 * taken
    && c == Prefix(s, taken) - base * Pow2(ct)
    && 0 <= c < a * Pow2(ct)
  }

  lemma ShiftWithin(s: seq<byte>, taken: nat, c: int, a: int, ct: int, base: nat, shift: nat, a': int, ct': int, base': nat,
                    shift': nat)
    requires SoundRegister(s, taken, c, a, ct, base, shift) && a < 0x8000 && ct > 0
    requires a' == 2 * a && ct' == ct - 1 && base' == 2 * base && shift' == shift + 1
    ensures SoundRegister(s, taken, c, a', ct', base', shift')
  {
    MulAssoc(base, 2, Pow2(ct - 1));
    MulAssoc(a, 2, Pow2(ct - 1));
  }

  lemma ShiftByte(s: seq<byte>, taken: nat, c: int, a: int, base: nat, shift: nat, c': int, a': int, ct': int, base': nat,
                  shift': nat)
    requires SoundRegister(s, taken, c, a, 0, base, shift) && a < 0x8000
    requires c' == 256 * c + StreamAt(s, taken) && a' == 2 * a && ct' == 7 && base' == 2 * base && shift' == shift + 1
    ensures SoundRegister(s, taken + 1, c', a', ct', base', shift')
  {
    Pow2Small();
  }

  // Comparing the register with the lower part tells which part the stream points into.
  lemma ChooseHalf(s: seq<byte>, taken: nat, c: int, a: int, ct: int, base: nat, shift: nat, qe: int)
    requires SoundRegister(s, taken, c, a, ct, base, shift) && 0 < qe < 0x8000 <= a
    ensures var rest := a - qe;
      && (c >= rest * Pow2(ct) <==> Value(s) * Pow2(16 + shift) >= (base + rest) * Pow2(8 * |s|))
      && (c >= rest * Pow2(ct) ==>
            SoundRegister(s, taken, c - rest * Pow2(ct), qe, ct, base + rest, shift))
      && (c < rest * Pow2(ct) ==> SoundRegister(s, taken, c, rest, ct, base, shift))
  {
    var rest, q := a - qe, Pow2(ct);
    PrefixDecides(s, taken, base + rest, 16 + shift, ct);
    TimesSum(base, rest, q);
    TimesSum(rest, qe, q);
  }

  lemma FirstBytes(s: seq<byte>, a: int, ct: int)
    requires a == 0x1_0000 && ct == 0
    ensures SoundRegister(s, 2, 256 * (256 * 0 + StreamAt(s, 0)) + StreamAt(s, 1), a, ct, 0, 0)
  {
    assert Prefix(s, 1) == StreamAt(s, 0);
    assert Prefix(s, 2) == 256 * Prefix(s, 1) + StreamAt(s, 1);
  }

  class Decoder {
    var c: int             // distance from the base of the interval, and the next ct stream bits
    var a: int             // size of the interval, before renormalisation
    var ct: int            // -16 until the first byte, -8 until the second, then 0..7
    var unread: byte       // the marker that ended the data, or 0
    var input: seq<byte>   // bytes not read yet
    var bins: seq<Bin>
    ghost var segment: Segment  // what the whole input holds
    ghost var taken: nat        // stream bytes fed into c
    ghost var base: nat
    ghost var shift: nat

    ghost predicate InputSound()
      reads this
    {
      if unread == 0 then
        taken <= |segment.data| && Parse(input) == Segment(segment.data[taken..], segment.marker, segment.after)
      else
        taken >= |segment.data| && segment.marker != 0
    }

    ghost predicate Starting()
      reads this
    {
      && a == 0 && base == 0 && shift == 0
      && ((ct == -16 && taken == 0 && c == 0) || (ct == -8 && taken == 1 && c == StreamAt(segment.data, 0)))
    }

    ghost predicate Valid()
      reads this
    {
      && InputSound() && ValidBins(bins)
      && (Starting() || SoundRegister(segment.data, taken, c, a, ct, base, shift))
    }

    // The interval that the decoder is working on, with the postponed renormalisation done.
    ghost function Interval(): Coder
      requires Valid()
      reads this
    {
      if Starting() then Start(bins) else Renorm(Coder(base, a, shift, bins))
    }

    constructor (input: seq<byte>, bins: seq<Bin>)
      requires ValidBins(bins)
      ensures Valid() && Interval() == Start(bins) && segment == Parse(input) && this.bins == bins
    {
      c, a, ct, unread := 0, 0, -16, 0;
      this.input, this.bins := input, bins;
      segment, taken, base, shift := Parse(input), 0, 0, 0;
    }

    // The next stream byte: stuffing removed, zeros after a marker.  It fails at the end of an
    // input without a marker, where the source cannot suspend.
    method FetchByte() returns (ok: bool, data: byte)
      requires InputSound()
      modifies this`input, this`unread, this`taken
      ensures ok ==> InputSound() && taken == old(taken) + 1 && data == StreamAt(segment.data, old(taken))
      ensures !ok ==> segment.marker == 0
    {
      if unread != 0 {
        taken := taken + 1;
        return true, 0;
      }
      if input == [] {
        return false, 0;
      }
      data := input[0];
      input := input[1..];
      if data == 0xFF {
        while true
          invariant data == 0xFF && unread == 0
          invariant taken == old(taken) <= |segment.data|
          invariant ParseAfterFF(input) == Segment(segment.data[taken..], segment.marker, segment.after)
          decreases |input|
        {
          if input == [] {
            return false, 0;
          }
          data := input[0];
          input := input[1..];
          if data != 0xFF {
            break;
          }
        }
        if data == 0 {
          data := 0xFF;
        } else {
          unread := data;
          data := 0;
        }
      }
      assert taken < |segment.data| ==> segment.data[taken..][1..] == segment.data[taken + 1..];
      taken := taken + 1;
      return true, data;
    }

    // The renormalisation loop at the head of arith_decode, which also reads the first two bytes.
    method Renormalise() returns (ok: bool)
      requires Valid()
      modifies this`c, this`a, this`ct, this`input, this`unread, this`taken, this`base, this`shift
      ensures ok ==> Valid() && !Starting() && a >= 0x8000 && Interval() == old(Interval())
      ensures !ok ==> segment.marker == 0
    {
      while a < 0x8000
        invariant Valid() && Interval() == old(Interval())
        decreases if a == 0 then 0x1_0000 - ct else 0x8000 - a
      {
        ok := Shift();
        if !ok {
          return;
        }
      }
      ok := true;
    }

    // One more byte into the register; the second byte of the stream also sets up the interval.
    method FeedByte() returns (ok: bool)
      requires InputSound() && ct < 0
      modifies this`c, this`a, this`ct, this`input, this`unread, this`taken
      ensures ok ==> InputSound() && taken == old(taken) + 1
      ensures ok ==> c == 256 * old(c) + StreamAt(segment.data, old(taken))
      ensures ok ==> ct == (if old(ct) < -8 then old(ct) + 9 else old(ct) + 8)
      ensures ok ==> a == (if old(ct) == -9 then 0x8000 else old(a))
      ensures !ok ==> segment.marker == 0
    {
      var data;
      ok, data := FetchByte();
      if !ok {
        return;
      }
      c := c * 0x100 + data;
      ct := ct + 8;
      if ct < 0 {
        ct := ct + 1;
        if ct == 0 {
          a := 0x8000;
        }
      }
    }

    // Down by one bit; at the end of a byte the next one is fed in.
    method CountDown() returns (ok: bool)
      requires InputSound() && (ct >= 0 || ct == -8 || ct == -16)
      modifies this`c, this`a, this`ct, this`input, this`unread, this`taken
      ensures ok ==> InputSound()
      ensures ok ==> ct == if old(ct) == -16 then -8 else if old(ct) == -8 then 0 else if old(ct) == 0 then 7 else old(ct) - 1
      ensures ok ==> taken == (if old(ct) > 0 then old(taken) else old(taken) + 1)
      ensures ok ==> c == (if old(ct) > 0 then old(c) else 256 * old(c) + StreamAt(segment.data, old(taken)))
      ensures ok ==> a == (if old(ct) == -8 then 0x8000 else old(a))
      ensures !ok ==> segment.marker == 0
    {
      ct := ct - 1;
      ok := true;
      if ct < 0 {
        ok := FeedByte();
      }
    }

    method Shift() returns (ok: bool)
      requires Valid() && a < 0x8000
      modifies this`c, this`a, this`ct, this`input, this`unread, this`taken, this`base, this`shift
      ensures ok ==> Valid() && Interval() == old(Interval())
      ensures ok && old(a) > 0 ==> a == 2 * old(a)
      ensures ok && old(a) == 0 ==> (a == 0 && ct == -8 && old(ct) == -16) || a == 0x1_0000
      ensures !ok ==> segment.marker == 0
    {
      ghost var starting, base', shift' := Starting(), 2 * base, shift + 1;
      if starting {
        FirstBytes(segment.data, 0x1_0000, 0);
      } else {
        RenormDoubled(Coder(base, a, shift, bins));
        if ct > 0 {
          ShiftWithin(segment.data, taken, c, a, ct, base, shift, 2 * a, ct - 1, base', shift');
        } else {
          ShiftByte(segment.data, taken, c, a, base, shift, 256 * c + StreamAt(segment.data, taken), 2 * a, 7, base', shift');
        }
      }
      ok := CountDown();
      if ok {
        a := a * 2;
        if !starting {
          base, shift := base', shift';
          assert SoundRegister(segment.data, taken, c, a, ct, base, shift);
        }
      }
    }

    // arith_decode: the next decision, with statistics bin st.
    method Decode(st: nat) returns (ok: bool, val: nat)
      requires Valid() && st < |bins|
      modifies this
      ensures segment == old(segment)
      ensures ok ==> Valid() && val == Decide(segment.data, old(Interval()), st)
      ensures ok ==> Interval() == Step(old(Interval()), Decision(st, val))
      ensures !ok ==> segment.marker == 0
    {
      ok := Renormalise();
      if !ok {
        return false, 0;
      }
      var sv := bins[st];
      var lps := Select(st, Qe(sv), NextBin(sv, false), NextBin(sv, true));
      val := if lps then 1 - Mps(sv) else Mps(sv);
    }

    // The choice of subinterval, given what the table has for the bin; tells whether the less
    // probable symbol was decoded.
    method Select(st: nat, qe: nat, nextMps: Bin, nextLps: Bin) returns (lps: bool)
      requires Valid() && !Starting() && a >= 0x8000 && st < |bins|
      requires 0 < qe < 0x8000 && ValidBin(nextMps) && ValidBin(nextLps)
      modifies this`c, this`a, this`bins, this`base
      ensures Valid() && !Starting()
      ensures lps <==> (PointsUpper(segment.data, old(Interval()), qe) <==> old(a) - qe >= qe)
      ensures Interval() == Renorm(Split(old(Interval()), st, qe, lps, if lps then nextLps else nextMps))
    {
      ghost var co := Interval();
      var temp := a - qe;
      a := temp;
      temp := temp * Pow2(ct);
      ChooseHalf(segment.data, taken, c, old(a), ct, base, shift, qe);
      if c >= temp {
        c := c - temp;
        base := base + a;
        if a < qe {
          a := qe;
          bins := bins[st := nextMps];
          lps := false;
        } else {
          a := qe;
          bins := bins[st := nextLps];
          lps := true;
        }
      } else if a < 0x8000 {
        if a < qe {
          bins := bins[st := nextLps];
          lps := true;
        } else {
          bins := bins[st := nextMps];
          lps := false;
        }
      } else {
        lps := false;
      }
      assert Coder(base, a, shift, bins) == Split(co, st, qe, lps, if lps then nextLps else nextMps);
    }
  }
}
