// Runs of zeros and the values between them, as sequential blocks and first AC scans code them.
module RunLength {
  import opened Numerals
  import opened CanonicalCode
  import opened BitWriter
  import opened HuffmanDecode
  import opened TokenStream
  import opened ACScan

  const MAX_COEF_BITS := 10

  // ---- Values ----

  function NumBits(v: int): nat {
    if v == 0 then 0 else Log2(Abs(v)) + 1
  }

  // The number of bits that the magnitude takes.
  lemma NumBitsIs(v: int, n: nat)
    ensures NumBits(v) <= n <==> Abs(v) < Pow2(n)
  {
    if v != 0 {
      Log2Bounds(Abs(v));
      if NumBits(v) <= n {
        Pow2Monotone(NumBits(v), n);
      } else {
        Pow2Monotone(n, NumBits(v) - 1);
      }
    }
  }

  // The value, or for a negative one its magnitude complemented.
  function ValueBits(v: int): seq<bit> {
    LowBits(if v < 0 then v - 1 else v, NumBits(v))
  }

  // HUFF_EXTEND.
  function Extend(x: nat, n: nat): int
    requires n > 0
  {
    if x < Pow2(n - 1) then x - (Pow2(n) - 1) else x
  }

  lemma ExtendInverse(v: int)
    requires v != 0
    ensures Extend(BitsValue(ValueBits(v)), NumBits(v)) == v
  {
    var n := NumBits(v);
    Log2Bounds(Abs(v));
    var low := if v < 0 then v - 1 else v;
    var p := Pow2(n);
    assert low % p == (if v < 0 then p - 1 - Abs(v) else v) by {
      Wrapped(v, p);
    }
    ToBitsValue(low % p, n);
  }

  lemma Wrapped(v: int, p: nat)
    requires v != 0 && Abs(v) < p
    ensures (if v < 0 then v - 1 else v) % p == (if v < 0 then p - 1 - Abs(v) else v)
  {
    if v < 0 {
      DivModIs(v - 1, -1, p, p - 1 - Abs(v));
    } else {
      DivModIs(v, 0, p, v);
    }
  }

  // ---- The encoder ----

  // Coding v from position k on, r zeros after the last value.
  function CodeRuns(tab: nat, v: Block, k: nat, se: nat, r: nat): Coded
    requires k <= se + 1 <= 64
    decreases se + 1 - k, r
  {
    if k > se then Coded([], r > 0, [])
    else if v[k] == 0 then CodeRuns(tab, v, k + 1, se, r + 1)
    else if r > 15 then Before([Symbol(tab, 0xF0)], CodeRuns(tab, v, k, se, r - 16))
    else Before([Symbol(tab, r * 16 + NumBits(v[k])), Raw(ValueBits(v[k]))], CodeRuns(tab, v, k + 1, se, 0))
  }

  lemma CodeZrl(tab: nat, v: Block, k: nat, se: nat, r: nat)
    requires k <= se <= 63 && v[k] != 0 && r > 15
    ensures CodeRuns(tab, v, k, se, r) == Before([Symbol(tab, 0xF0)], CodeRuns(tab, v, k, se, r - 16))
  {
  }

  lemma CodeValue(tab: nat, v: Block, k: nat, se: nat, r: nat)
    requires k <= se <= 63 && v[k] != 0 && r <= 15
    ensures CodeRuns(tab, v, k, se, r) ==
      Before([Symbol(tab, r * 16 + NumBits(v[k])), Raw(ValueBits(v[k]))], CodeRuns(tab, v, k + 1, se, 0))
  {
  }

  // ---- The decoder ----

  datatype Read = AtEnd(z: Block, s: seq<bit>) | AtEob(z: Block, r: nat, s: seq<bit>) | Starved(z: Block)

  // Reading symbols from position k to se.  Beyond lim values are only skipped.
  // A band that is empty needs no table.
  function ReadRuns(htbl: HuffTable, z: Block, k: nat, se: nat, lim: nat, p: nat, s: seq<bit>): Read
    requires k <= se ==> Readable(htbl)
    decreases se + 1 - k
  {
    if k > se then AtEnd(z, s)
    else if Decode(htbl, s).Short? then Starved(z)
    else AfterSymbol(htbl, z, k, se, lim, p, Decode(htbl, s).sym, s[Decode(htbl, s).used..])
  }

  function AfterSymbol(htbl: HuffTable, z: Block, k: nat, se: nat, lim: nat, p: nat, sym: nat, s: seq<bit>): Read
    requires Readable(htbl) && k <= se
    decreases se + 1 - k, 0
  {
    var r, n := sym / 16, sym % 16;
    if n != 0 then
      if |s| < n then Starved(z)
      else ReadRuns(htbl, Put(z, k, r, lim, Extend(BitsValue(s[..n]), n) * p), k + r + 1, se, lim, p, s[n..])
    else if r != 15 then AtEob(z, r, s)
    else ReadRuns(htbl, z, k + 16, se, lim, p, s)
  }

  function Put(z: Block, k: nat, r: nat, lim: nat, v: int): Block {
    if k <= lim then z[Clamp(k + r) := v] else z
  }

  // Of the positions beyond lim, at most one is written to, and none if lim is behind already.
  predicate BeyondKept(z: Block, z': Block, k: nat, lim: nat) {
    && (k > lim ==> z' == z)
    && forall m, n :: lim < m < n < 64 ==> z'[m] == z[m] || z'[n] == z[n]
  }

  lemma PutBeyond(z: Block, k: nat, r: nat, lim: nat, v: int, z': Block)
    requires BeyondKept(Put(z, k, r, lim, v), z', k + r + 1, lim)
    ensures BeyondKept(z, z', k, lim)
  {
  }

  lemma {:induction false} ReadBeyond(htbl: HuffTable, z: Block, k: nat, se: nat, lim: nat, p: nat, s: seq<bit>)
    requires k <= se ==> Readable(htbl)
    ensures BeyondKept(z, ReadRuns(htbl, z, k, se, lim, p, s).z, k, lim)
    decreases se + 1 - k
  {
    if k <= se && Decode(htbl, s).Got? {
      var r, n, s' := Decode(htbl, s).sym / 16, Decode(htbl, s).sym % 16, s[Decode(htbl, s).used..];
      if n != 0 && |s'| >= n {
        var v := Extend(BitsValue(s'[..n]), n) * p;
        ReadBeyond(htbl, Put(z, k, r, lim, v), k + r + 1, se, lim, p, s'[n..]);
        PutBeyond(z, k, r, lim, v, ReadRuns(htbl, Put(z, k, r, lim, v), k + r + 1, se, lim, p, s'[n..]).z);
      } else if n == 0 && r == 15 {
        ReadBeyond(htbl, z, k + 16, se, lim, p, s');
      }
    }
  }

  // ---- The round trip ----

  // z' is z with the values t from k to se where v is not zero; beyond lim some may be missing.
  predicate FilledIn(z: Block, z': Block, v: Block, t: Block, k: nat, se: nat, lim: nat)
    requires se <= 63
  {
    && (forall n :: 0 <= n < 64 && (n < k || n > se || v[n] == 0) ==> z'[n] == z[n])
    && (forall n :: k <= n <= se ==> z'[n] == t[n] || z'[n] == z[n])
    && (forall n :: k <= n <= se && n <= lim && v[n] != 0 ==> z'[n] == t[n])
  }

  ghost predicate Scaled(v: Block, t: Block, p: nat, k: nat, se: nat)
    requires se <= 63
  {
    forall n :: k <= n <= se ==> t[n] == v[n] * p
  }

  predicate InRange(v: Block, k: nat, se: nat)
    requires se <= 63
  {
    forall n :: k <= n <= se ==> NumBits(v[n]) <= MAX_COEF_BITS
  }

  lemma ReadSymbol(codes: seq<Code>, tab: nat, sym: nat, z: Block, k: nat, se: nat, lim: nat, p: nat, later: seq<bit>)
    requires HasCode(codes, Symbol(tab, sym)) && Sound(codes[tab]) && k <= se
    ensures Readable(codes[tab].htbl)
    ensures ReadRuns(codes[tab].htbl, z, k, se, lim, p, TokenBits(codes, Symbol(tab, sym)) + later) ==
      AfterSymbol(codes[tab].htbl, z, k, se, lim, p, sym, later)
  {
    SymbolReadBack(codes, Symbol(tab, sym), later);
  }

  lemma ReadValue(htbl: HuffTable, z: Block, k: nat, next: nat, se: nat, lim: nat, p: nat, sym: nat, r: nat, v: int, w: int,
                  bits: seq<bit>, later: seq<bit>)
    requires Readable(htbl) && k <= se && next == k + r + 1 && v != 0 && w == v * p
    requires sym / 16 == r && sym % 16 == NumBits(v) && bits == ValueBits(v)
    ensures AfterSymbol(htbl, z, k, se, lim, p, sym, bits + later) ==
      ReadRuns(htbl, Put(z, k, r, lim, w), next, se, lim, p, later)
  {
    ExtendInverse(v);
    CutAfter(bits, later);
    AfterValue(htbl, z, k, se, lim, p, sym, bits + later, r, |bits|, v);
  }

  lemma AfterZrl(htbl: HuffTable, z: Block, k: nat, se: nat, lim: nat, p: nat, s: seq<bit>)
    requires Readable(htbl) && k <= se
    ensures AfterSymbol(htbl, z, k, se, lim, p, 0xF0, s) == ReadRuns(htbl, z, k + 16, se, lim, p, s)
  {
    AfterLongRun(htbl, z, k, se, lim, p, 0xF0, s);
  }

  lemma AfterLongRun(htbl: HuffTable, z: Block, k: nat, se: nat, lim: nat, p: nat, sym: nat, s: seq<bit>)
    requires Readable(htbl) && k <= se && sym / 16 == 15 && sym % 16 == 0
    ensures AfterSymbol(htbl, z, k, se, lim, p, sym, s) == ReadRuns(htbl, z, k + 16, se, lim, p, s)
  {
  }

  lemma AfterEob(htbl: HuffTable, z: Block, k: nat, se: nat, lim: nat, p: nat, r: nat, s: seq<bit>)
    requires Readable(htbl) && k <= se && r <= 14
    ensures AfterSymbol(htbl, z, k, se, lim, p, r * 16, s) == AtEob(z, r, s)
  {
    DivModIs(r * 16, r, 16, 0);
  }

  lemma AfterValue(htbl: HuffTable, z: Block, k: nat, se: nat, lim: nat, p: nat, sym: nat, s: seq<bit>, r: nat, n: nat, v: int)
    requires Readable(htbl) && k <= se && sym / 16 == r && sym % 16 == n && 0 < n <= |s|
    requires v == Extend(BitsValue(s[..n]), n)
    ensures AfterSymbol(htbl, z, k, se, lim, p, sym, s) == ReadRuns(htbl, Put(z, k, r, lim, v * p), k + r + 1, se, lim, p, s[n..])
  {
  }

  // The decoder stands at j, before the r zeros that the encoder has counted; was is what it is going to read.
  lemma {:induction false} RunsDecode(codes: seq<Code>, tab: nat, v: Block, t: Block, z: Block, j: nat, k: nat, se: nat, lim: nat,
                     p: nat, r: nat, coded: Coded, rest: seq<bit>, was: Read) returns (i: nat, z': Block)
    requires tab < |codes| && Sound(codes[tab]) && j + r == k <= se + 1 <= 64 && Readable(codes[tab].htbl)
    requires Emittable(codes, coded.tokens) && coded == CodeRuns(tab, v, k, se, r)
    requires InRange(v, k, se) && Scaled(v, t, p, k, se)
    requires was == ReadRuns(codes[tab].htbl, z, j, se, lim, p, Flatten(codes, coded.tokens) + rest)
    ensures FilledIn(z, z', v, t, k, se, lim) && j <= i && (coded.pending <==> i <= se)
    ensures was == ReadRuns(codes[tab].htbl, z', i, se, lim, p, rest)
    decreases se + 1 - k, r, 2
  {
    if k > se {
      i, z' := j, z;
      NothingBefore(rest);
    } else if v[k] == 0 {
      i, z' := RunsDecode(codes, tab, v, t, z, j, k + 1, se, lim, p, r + 1, coded, rest, was);
      FilledFromZero(z, z', v, t, k, se, lim);
    } else {
      var later, j', r' := SkipZrls(codes, tab, v, z, j, k, se, lim, p, r, coded, rest, was);
      i, z' := ValueCase(codes, tab, v, t, z, j', k, se, lim, p, r', later, rest, was);
    }
  }

  // All the zero runs of length 16 before a value.
  lemma {:induction false} SkipZrls(codes: seq<Code>, tab: nat, v: Block, z: Block, j: nat, k: nat, se: nat, lim: nat, p: nat,
                     r: nat, coded: Coded, rest: seq<bit>, was: Read) returns (later: Coded, j': nat, r': nat)
    requires tab < |codes| && Sound(codes[tab]) && j + r == k <= se <= 63 && v[k] != 0 && Readable(codes[tab].htbl)
    requires Emittable(codes, coded.tokens) && coded == CodeRuns(tab, v, k, se, r)
    requires was == ReadRuns(codes[tab].htbl, z, j, se, lim, p, Flatten(codes, coded.tokens) + rest)
    ensures r' <= 15 && j <= j' && j' + r' == k
    ensures later == CodeRuns(tab, v, k, se, r') && later.pending == coded.pending && Emittable(codes, later.tokens)
    ensures was == ReadRuns(codes[tab].htbl, z, j', se, lim, p, Flatten(codes, later.tokens) + rest)
    decreases r
  {
    if r <= 15 {
      later, j', r' := coded, j, r;
    } else {
      var next, i, left := ZrlStep(codes, tab, v, z, j, k, se, lim, p, r, coded, rest);
      later, j', r' := SkipZrls(codes, tab, v, z, i, k, se, lim, p, left, next, rest, was);
    }
  }

  lemma RangeHolds(v: Block, t: Block, p: nat, k: nat, se: nat)
    requires k <= se <= 63 && InRange(v, k, se) && Scaled(v, t, p, k, se)
    ensures NumBits(v[k]) <= MAX_COEF_BITS && t[k] == v[k] * p && InRange(v, k + 1, se) && Scaled(v, t, p, k + 1, se)
  {
  }

  lemma {:induction false} ValueCase(codes: seq<Code>, tab: nat, v: Block, t: Block, z: Block, j: nat, k: nat, se: nat, lim: nat,
                     p: nat, r: nat, coded: Coded, rest: seq<bit>, was: Read) returns (i: nat, z': Block)
    requires tab < |codes| && Sound(codes[tab]) && j + r == k <= se <= 63 && v[k] != 0 && r <= 15 && Readable(codes[tab].htbl)
    requires Emittable(codes, coded.tokens) && coded == CodeRuns(tab, v, k, se, r)
    requires InRange(v, k, se) && Scaled(v, t, p, k, se)
    requires was == ReadRuns(codes[tab].htbl, z, j, se, lim, p, Flatten(codes, coded.tokens) + rest)
    ensures FilledIn(z, z', v, t, k, se, lim) && j <= i && (coded.pending <==> i <= se)
    ensures was == ReadRuns(codes[tab].htbl, z', i, se, lim, p, rest)
    decreases se + 1 - k, r, 1
  {
    RangeHolds(v, t, p, k, se);
    var head, later := ValueTokens(tab, v, k, se, r, coded);
    ValueStep(codes, tab, v[k], z, j, k, se, lim, p, r, head, coded, later, t[k], rest, was);
    i, z' := AfterValueCase(codes, tab, v, t, z, j, k, se, lim, p, r, later, rest, was);
  }

  lemma {:induction false} AfterValueCase(codes: seq<Code>, tab: nat, v: Block, t: Block, z: Block, j: nat, k: nat, se: nat,
                                          lim: nat,
                     p: nat, r: nat, later: Coded, rest: seq<bit>, was: Read) returns (i: nat, z': Block)
    requires tab < |codes| && Sound(codes[tab]) && j + r == k <= se <= 63 && v[k] != 0 && Readable(codes[tab].htbl)
    requires Emittable(codes, later.tokens) && later == CodeRuns(tab, v, k + 1, se, 0)
    requires InRange(v, k + 1, se) && Scaled(v, t, p, k + 1, se)
    requires was == ReadRuns(codes[tab].htbl, Put(z, j, r, lim, t[k]), k + 1, se, lim, p, Flatten(codes, later.tokens) + rest)
    ensures FilledIn(z, z', v, t, k, se, lim) && k < i && (later.pending <==> i <= se)
    ensures was == ReadRuns(codes[tab].htbl, z', i, se, lim, p, rest)
    decreases se + 1 - k, r, 0
  {
    var zk := Put(z, j, r, lim, t[k]);
    i, z' := RunsDecode(codes, tab, v, t, zk, k + 1, k + 1, se, lim, p, 0, later, rest, was);
    FilledOneMore(z, zk, z', v, t, j, k, se, lim, r);
  }

  lemma ZrlRead(codes: seq<Code>, tab: nat, z: Block, j: nat, i: nat, se: nat, lim: nat, p: nat, tail: seq<bit>)
    requires HasCode(codes, Symbol(tab, 0xF0)) && Sound(codes[tab]) && j <= se && i == j + 16
    ensures ReadRuns(codes[tab].htbl, z, j, se, lim, p, TokenBits(codes, Symbol(tab, 0xF0)) + tail) ==
      ReadRuns(codes[tab].htbl, z, i, se, lim, p, tail)
  {
    ReadSymbol(codes, tab, 0xF0, z, j, se, lim, p, tail);
    AfterZrl(codes[tab].htbl, z, j, se, lim, p, tail);
  }

  lemma ZrlStep(codes: seq<Code>, tab: nat, v: Block, z: Block, j: nat, k: nat, se: nat, lim: nat, p: nat, r: nat, coded: Coded,
                rest: seq<bit>) returns (later: Coded, i: nat, left: nat)
    requires tab < |codes| && Sound(codes[tab]) && j + r == k <= se <= 63 && v[k] != 0 && r > 15
    requires Emittable(codes, coded.tokens) && coded == CodeRuns(tab, v, k, se, r)
    ensures i + left == k && left < r && i > j
    ensures later == CodeRuns(tab, v, k, se, left) && later.pending == coded.pending && Emittable(codes, later.tokens)
    ensures ReadRuns(codes[tab].htbl, z, j, se, lim, p, Flatten(codes, coded.tokens) + rest) ==
      ReadRuns(codes[tab].htbl, z, i, se, lim, p, Flatten(codes, later.tokens) + rest)
  {
    i, left := j + 16, r - 16;
    later := CodeRuns(tab, v, k, se, r - 16);
    CodeZrl(tab, v, k, se, r);
    OneToken(codes, Symbol(tab, 0xF0), later.tokens, rest);
    var tail := Flatten(codes, later.tokens) + rest;
    ZrlRead(codes, tab, z, j, i, se, lim, p, tail);
  }

  lemma ValueTokens(tab: nat, v: Block, k: nat, se: nat, r: nat, coded: Coded) returns (head: seq<Token>, later: Coded)
    requires k <= se <= 63 && v[k] != 0 && r <= 15 && coded == CodeRuns(tab, v, k, se, r)
    ensures head == [Symbol(tab, r * 16 + NumBits(v[k])), Raw(ValueBits(v[k]))]
    ensures later == CodeRuns(tab, v, k + 1, se, 0) && coded.tokens == head + later.tokens && later.pending == coded.pending
  {
    later := CodeRuns(tab, v, k + 1, se, 0);
    CodeValue(tab, v, k, se, r);
    head := [Symbol(tab, r * 16 + NumBits(v[k])), Raw(ValueBits(v[k]))];
  }

  lemma ValueStep(codes: seq<Code>, tab: nat, v: int, z: Block, j: nat, k: nat, se: nat, lim: nat, p: nat, r: nat,
                  head: seq<Token>, coded: Coded, later: Coded, w: int, rest: seq<bit>, was: Read)
    requires tab < |codes| && Sound(codes[tab]) && j + r == k <= se && r <= 15 && Readable(codes[tab].htbl)
    requires v != 0 && NumBits(v) <= MAX_COEF_BITS && w == v * p
    requires head == [Symbol(tab, r * 16 + NumBits(v)), Raw(ValueBits(v))]
    requires Emittable(codes, coded.tokens) && coded.tokens == head + later.tokens
    requires was == ReadRuns(codes[tab].htbl, z, j, se, lim, p, Flatten(codes, coded.tokens) + rest)
    ensures Emittable(codes, later.tokens)
    ensures was == ReadRuns(codes[tab].htbl, Put(z, j, r, lim, w), k + 1, se, lim, p, Flatten(codes, later.tokens) + rest)
  {
    SymbolThenValue(codes, tab, r, v, z, j, k, se, lim, p, w, head, later.tokens, rest);
  }

  lemma SymbolThenValue(codes: seq<Code>, tab: nat, r: nat, v: int, z: Block, j: nat, k: nat, se: nat, lim: nat, p: nat, w: int,
                        head: seq<Token>, later: seq<Token>, rest: seq<bit>)
    requires tab < |codes| && Sound(codes[tab]) && j + r == k <= se && r <= 15
    requires v != 0 && NumBits(v) <= MAX_COEF_BITS && w == v * p
    requires head == [Symbol(tab, r * 16 + NumBits(v)), Raw(ValueBits(v))] && Emittable(codes, head + later)
    ensures Emittable(codes, later) && Readable(codes[tab].htbl)
    ensures ReadRuns(codes[tab].htbl, z, j, se, lim, p, Flatten(codes, head + later) + rest) ==
      ReadRuns(codes[tab].htbl, Put(z, j, r, lim, w), k + 1, se, lim, p, Flatten(codes, later) + rest)
  {
    var sym, bits := r * 16 + NumBits(v), ValueBits(v);
    TwoTokens(codes, Symbol(tab, sym), bits, later, rest);
    var tail := Flatten(codes, later) + rest;
    ReadSymbol(codes, tab, sym, z, j, se, lim, p, bits + tail);
    DivModIs(sym, r, 16, NumBits(v));
    ReadValue(codes[tab].htbl, z, j, k + 1, se, lim, p, sym, r, v, w, bits, tail);
  }

  lemma FilledFromZero(z: Block, z': Block, v: Block, t: Block, k: nat, se: nat, lim: nat)
    requires k <= se <= 63 && v[k] == 0 && FilledIn(z, z', v, t, k + 1, se, lim)
    ensures FilledIn(z, z', v, t, k, se, lim)
  {
  }

  lemma FilledOneMore(z: Block, zk: Block, z': Block, v: Block, t: Block, j: nat, k: nat, se: nat, lim: nat, r: nat)
    requires j + r == k <= se <= 63 && v[k] != 0 && zk == Put(z, j, r, lim, t[k])
    requires FilledIn(zk, z', v, t, k + 1, se, lim)
    ensures FilledIn(z, z', v, t, k, se, lim)
  {
    forall n | 0 <= n < 64 && n != k
      ensures zk[n] == z[n]
    {
    }
  }

  // ---- Tokens at the head of a stream ----

  lemma OneToken(codes: seq<Code>, t: Token, later: seq<Token>, rest: seq<bit>)
    requires Emittable(codes, [t] + later)
    ensures HasCode(codes, t) && Emittable(codes, later)
    ensures Flatten(codes, [t] + later) + rest == TokenBits(codes, t) + (Flatten(codes, later) + rest)
  {
    EmittableParts(codes, [t], later);
    var all := [t] + later;
    assert all[0] == t && all[1..] == later;
    assert HasCode(codes, all[0]);
    Reassociate(TokenBits(codes, t), Flatten(codes, later), rest);
  }

  lemma TwoTokens(codes: seq<Code>, t: Token, bits: seq<bit>, later: seq<Token>, rest: seq<bit>)
    requires Emittable(codes, [t, Raw(bits)] + later)
    ensures HasCode(codes, t) && Emittable(codes, later)
    ensures Flatten(codes, [t, Raw(bits)] + later) + rest == TokenBits(codes, t) + (bits + (Flatten(codes, later) + rest))
  {
    assert [t, Raw(bits)] + later == [t] + ([Raw(bits)] + later);
    OneToken(codes, t, [Raw(bits)] + later, rest);
    OneToken(codes, Raw(bits), later, rest);
  }
}
