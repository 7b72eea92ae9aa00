// Powers of two and base-256 numerals.  Both entropy coders are judged by the number that
// their output bytes denote, so every file of the project leans on these few facts.
module Numerals {

  type byte = b: int | 0 <= b < 256

  function Pow2(n: nat): (r: nat)
    ensures r > 0
  {
    if n == 0 then 1 else Pow2(n - 1) + Pow2(n - 1)
  }

  lemma {:induction false} Pow2Add(m: nat, n: nat)
    ensures Pow2(m + n) == Pow2(m) * Pow2(n)
  {
    if m > 0 {
      Pow2Add(m - 1, n);
      calc {
        Pow2(m + n);
        2 * Pow2(m - 1 + n);
        2 * (Pow2(m - 1) * Pow2(n));
        Pow2(m) * Pow2(n);
      }
    }
  }

  lemma {:induction false} Pow2Monotone(m: nat, n: nat)
    requires m <= n
    ensures Pow2(m) <= Pow2(n)
    decreases n
  {
    if m < n {
      Pow2Monotone(m, n - 1);
    }
  }

  lemma Pow2Small()
    ensures Pow2(0) == 1 && Pow2(1) == 2 && Pow2(2) == 4 && Pow2(3) == 8
    ensures Pow2(4) == 16 && Pow2(5) == 32 && Pow2(6) == 64 && Pow2(7) == 128 && Pow2(8) == 256
    ensures Pow2(11) == 2048 && Pow2(16) == 0x1_0000 && Pow2(19) == 0x8_0000
    ensures Pow2(24) == 0x100_0000 && Pow2(27) == 0x800_0000
  {
    assert Pow2(4) == 16;
    assert Pow2(8) == 256;
    assert Pow2(12) == 4096;
    assert Pow2(16) == 0x1_0000;
    assert Pow2(20) == 0x10_0000;
    assert Pow2(24) == 0x100_0000;
  }

  lemma Pow2Byte(n: nat)
    ensures Pow2(8 * (n + 1)) == 256 * Pow2(8 * n)
  {
    Pow2Add(8, 8 * n);
    Pow2Small();
  }

  lemma MulAssoc(a: int, b: int, c: int)
    ensures a * (b * c) == (a * b) * c == b * (a * c)
  {
  }

  // A shift to the left.
  function Shl(v: nat, n: nat): nat {
    if n == 0 then v else Shl(v, n - 1) + Shl(v, n - 1)
  }

  lemma {:induction false} ShlScales(v: nat, n: nat)
    ensures Shl(v, n) == v * Pow2(n)
  {
    if n > 0 {
      ShlScales(v, n - 1);
      MulAssoc(2, v, Pow2(n - 1));
    }
  }

  lemma Distribute(v: int, m: int, t: int, p: int)
    ensures (v * m + t) * p == v * (m * p) + t * p
  {
  }

  lemma TimesSum(a: int, b: int, p: int)
    ensures (a + b) * p == a * p + b * p
  {
  }

  lemma ScaleLe(a: int, b: int, p: nat)
    requires a <= b
    ensures a * p <= b * p
  {
  }

  lemma ScaleLt(a: int, b: int, p: nat)
    requires a < b && p > 0
    ensures a * p < b * p
  {
  }

  // A quotient and a remainder, recognised.
  lemma DivModIs(x: int, q: int, m: nat, r: nat)
    requires m > 0 && x == q * m + r && r < m
    ensures x / m == q && x % m == r
  {
    var k := x / m;
    assert x == k * m + x % m;
    if k < q {
      ScaleLe(k + 1, q, m);
    } else if q < k {
      ScaleLe(q + 1, k, m);
    }
  }

  lemma Prefixes<T>(s: seq<T>, i: nat)
    requires i < |s|
    ensures s[..i + 1] == s[..i] + [s[i]] && s[..i + 1][..i] == s[..i]
  {
  }

  lemma EndPrefixes<T>(s: seq<T>)
    ensures s[..0] == [] && s[..|s|] == s && s[0..] == s
  {
  }

  lemma Suffixes<T>(s: seq<T>, i: nat)
    requires i < |s|
    ensures s[i..][0] == s[i] && s[i..][1..] == s[i + 1..]
  {
  }

  lemma NothingAfter<T>(b: seq<T>)
    ensures b + ([] + []) == b && b + [] == b && [] + b == b
  {
  }

  lemma NothingBefore<T>(t: seq<T>)
    ensures [] + t == t
  {
  }

  lemma CutAfter<T>(s: seq<T>, t: seq<T>)
    ensures (s + t)[..|s|] == s && (s + t)[|s|..] == t
  {
  }

  lemma CutBefore<T>(s: seq<T>, t: seq<T>, n: nat)
    requires n <= |s|
    ensures (s + t)[..n] == s[..n] && (s + t)[n..] == s[n..] + t
  {
  }

  // The number denoted by base-256 digits, most significant digit first.
  function Value(s: seq<byte>): nat {
    if s == [] then 0 else 256 * Value(s[..|s| - 1]) + s[|s| - 1]
  }

  function Repeat(b: byte, n: nat): (r: seq<byte>)
    ensures |r| == n
  {
    seq(n, _ => b)
  }

  lemma RepeatSnoc(b: byte, n: nat)
    ensures Repeat(b, n + 1) == Repeat(b, n) + [b]
  {
  }

  lemma ValueSnoc(s: seq<byte>, b: byte)
    ensures Value(s + [b]) == 256 * Value(s) + b
  {
    assert (s + [b])[..|s|] == s;
  }

  lemma {:induction false} ValueAppend(s: seq<byte>, t: seq<byte>)
    ensures Value(s + t) == Value(s) * Pow2(8 * |t|) + Value(t)
  {
    if t == [] {
      assert s + t == s;
    } else {
      var init, last := t[..|t| - 1], t[|t| - 1];
      assert s + t == (s + init) + [last] && t == init + [last];
      ValueSnoc(s + init, last);
      ValueSnoc(init, last);
      ValueAppend(s, init);
      Pow2Byte(|init|);
      var p := Pow2(8 * |init|);
      calc {
        Value(s + t);
        256 * Value(s + init) + last;
        256 * (Value(s) * p + Value(init)) + last;
        256 * (Value(s) * p) + Value(t);
        { MulAssoc(256, Value(s), p); }
        Value(s) * (256 * p) + Value(t);
      }
    }
  }

  lemma {:induction false} ValueBound(s: seq<byte>)
    ensures Value(s) < Pow2(8 * |s|)
  {
    if s != [] {
      ValueBound(s[..|s| - 1]);
      Pow2Byte(|s| - 1);
    }
  }

  lemma {:induction false} ValueZeros(s: seq<byte>, n: nat)
    ensures Value(s + Repeat(0, n)) == Value(s) * Pow2(8 * n)
  {
    ValueAppend(s, Repeat(0, n));
    ZerosAreZero(n);
  }

  lemma {:induction false} ZerosAreZero(n: nat)
    ensures Value(Repeat(0, n)) == 0
  {
    if n > 0 {
      ZerosAreZero(n - 1);
      RepeatSnoc(0, n - 1);
      ValueSnoc(Repeat(0, n - 1), 0);
    }
  }

  lemma {:induction false} OnesAlone(n: nat)
    ensures Value(Repeat(255, n)) + 1 == Pow2(8 * n)
  {
    if n > 0 {
      OnesAlone(n - 1);
      RepeatSnoc(255, n - 1);
      ValueSnoc(Repeat(255, n - 1), 255);
      Pow2Byte(n - 1);
    }
  }

  // A run of 0xFF digits is one short of a carry into the digit before it.
  lemma ValueOnes(s: seq<byte>, n: nat)
    ensures Value(s + Repeat(255, n)) + 1 == (Value(s) + 1) * Pow2(8 * n)
  {
    ValueAppend(s, Repeat(255, n));
    OnesAlone(n);
    Distribute(Value(s), 1, 1, Pow2(8 * n));
  }
}
