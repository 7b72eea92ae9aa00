// jdhuff.c: jpeg_fill_bit_buffer, the bit fetching macros, jpeg_huff_decode and HUFF_DECODE.
module BitReader {
  import opened Numerals
  import opened ByteStuffing
  import opened CanonicalCode
  import opened BitWriter
  import opened DerivedTables
  import opened HuffmanDecode

  const MIN_GET_BITS := 25

  function Zeros(k: nat): (s: seq<bit>)
    ensures |s| == k
  {
    seq(k, _ => 0)
  }

  lemma {:induction false} ZerosAreNothing(k: nat)
    ensures BitsValue(Zeros(k)) == 0
  {
    if k > 0 {
      ZerosAreNothing(k - 1);
      assert Zeros(k)[..k - 1] == Zeros(k - 1);
    }
  }

  lemma LastApart<T>(b: T, s: seq<T>)
    requires s != []
    ensures [b] + s == ([b] + s[..|s| - 1]) + [s[|s| - 1]] && s == s[..|s| - 1] + [s[|s| - 1]]
  {
  }

  lemma {:induction false} BytesToBitsCons(b: byte, s: seq<byte>)
    ensures BytesToBits([b] + s) == ToBits(b, BYTE_BITS) + BytesToBits(s)
  {
    if s == [] {
      assert [b] + s == [] + [b];
      BytesToBitsSnoc([], b);
    } else {
      var init, last := s[..|s| - 1], s[|s| - 1];
      LastApart(b, s);
      BytesToBitsSnoc([b] + init, last);
      BytesToBitsSnoc(init, last);
      BytesToBitsCons(b, init);
      Reassociate(ToBits(b, BYTE_BITS), BytesToBits(init), ToBits(last, BYTE_BITS));
    }
  }

  // The low |held| bits of a 32-bit register.
  ghost predicate Holds(getBuffer: nat, held: seq<bit>) {
    |held| <= 32 && getBuffer < 0x1_0000_0000 && getBuffer % Pow2(|held|) == BitsValue(held)
  }

  // A register of m * p values keeps everything modulo m.
  lemma Truncated(x: nat, m: nat, p: nat)
    requires m > 0 && p > 0
    ensures m * p > 0 && x % (m * p) % m == x % m
  {
    assert m * p > 0 by { ScaleLe(1, m, p); }
    var c, y, a, q := x / (m * p), x % (m * p), x / m, x % m;
    assert x == c * (m * p) + y && x == a * m + q;
    assert c * (m * p) == (c * p) * m by { MulAssoc(c, p, m); }
    assert y == (a - c * p) * m + q by { TakeOut(a, c * p, m); }
    DivModIs(y, a - c * p, m, q);
  }

  lemma TakeOut(a: int, b: int, m: int)
    ensures (a - b) * m == a * m - b * m
  {
  }

  lemma AppendedDigits(g: nat, n: nat, h: nat, m: nat, v: nat)
    requires n > 0 && m > 0 && g % n == h && v < m
    ensures n * m > 0 && (g * m + v) % (n * m) == h * m + v
  {
    assert n * m > 0 by { ScaleLe(1, n, m); }
    var a := g / n;
    assert g == a * n + h;
    Distribute(a, n, h, m);
    assert h * m + v < n * m by { ScaleLe(h + 1, n, m); }
    DivModIs(g * m + v, a, n * m, h * m + v);
  }

  lemma AppendedBits(g: nat, held: seq<bit>, more: seq<bit>)
    requires g % Pow2(|held|) == BitsValue(held)
    ensures (g * Pow2(|more|) + BitsValue(more)) % Pow2(|held + more|) == BitsValue(held + more)
  {
    BitsValueAppend(held, more);
    BitsValueBound(more);
    Pow2Add(|held|, |more|);
    AppendedDigits(g, Pow2(|held|), BitsValue(held), Pow2(|more|), BitsValue(more));
  }

  // Shifting more bits in below the bits held; what falls off the top of the register is not held.
  lemma ShiftIn(getBuffer: nat, held: seq<bit>, more: seq<bit>, x: nat)
    requires Holds(getBuffer, held) && |held| + |more| <= 32
    requires x == getBuffer * Pow2(|more|) + BitsValue(more)
    ensures Holds(x % 0x1_0000_0000, held + more)
  {
    AppendedBits(getBuffer, held, more);
    RegisterKeeps(x, held + more);
  }

  lemma RegisterKeeps(x: nat, s: seq<bit>)
    requires |s| <= 32 && x % Pow2(|s|) == BitsValue(s)
    ensures Holds(x % 0x1_0000_0000, s)
  {
    FullRegister(|s|);
    Truncated(x, Pow2(|s|), Pow2(32 - |s|));
  }

  lemma FullRegister(n: nat)
    requires n <= 32
    ensures Pow2(n) * Pow2(32 - n) == 0x1_0000_0000
  {
    Pow2Add(n, 32 - n);
    Word(16, n + (32 - n));
  }

  lemma Word(h: nat, w: nat)
    requires h == 16 && w == h + h
    ensures Pow2(w) == 0x1_0000_0000
  {
    Pow2Add(h, h);
    assert Pow2(h) == 0x1_0000 by { Pow2Small(); }
  }

  lemma TopDigits(g: nat, n: nat, m: nat, hi: nat, lo: nat)
    requires n > 0 && m > 0 && n * m > 0 && g % (n * m) == hi * m + lo && hi < n && lo < m
    ensures g / m % n == hi && g % m == lo
  {
    var a := g / (n * m);
    assert g == a * (n * m) + (hi * m + lo);
    Distribute(a, n, hi, m);
    var q := a * n + hi;
    assert g == q * m + lo;
    DivModIs(g, q, m, lo);
    DivModIs(g, q, m, lo);
    DivModIs(q, a, n, hi);
  }

  // GET_BITS and PEEK_BITS.
  lemma ShiftOut(getBuffer: nat, held: seq<bit>, n: nat)
    requires Holds(getBuffer, held) && n <= |held|
    ensures getBuffer / Pow2(|held| - n) % Pow2(n) == BitsValue(held[..n])
    ensures Holds(getBuffer, held[n..])
  {
    var r := |held| - n;
    assert held == held[..n] + held[n..];
    BitsValueAppend(held[..n], held[n..]);
    BitsValueBound(held[..n]);
    BitsValueBound(held[n..]);
    Pow2Add(n, r);
    TopDigits(getBuffer, Pow2(n), Pow2(r), BitsValue(held[..n]), BitsValue(held[n..]));
  }

  lemma ZerosAppend(j: nat, k: nat)
    ensures Zeros(j) + Zeros(k) == Zeros(j + k)
  {
  }

  // ---- The data source ----

  datatype Next = Data(c: byte) | Marker(code: byte) | Exhausted

  // Reading one byte, with the stuffed zero after 0xFF and padding 0xFF bytes taken out.  What comes
  // after the input, in the future, plays no part in it.
  method NextByte(input: seq<byte>, ghost future: seq<byte>) returns (next: Next, rest: seq<byte>)
    ensures next.Data? ==> |rest| < |input| && Parse(input + future) == Prepend(next.c, Parse(rest + future))
    ensures next.Data? ==> Parse(input) == Prepend(next.c, Parse(rest))
    ensures next.Marker? ==> next.code != 0 && Parse(input + future) == Segment([], next.code, rest + future)
    ensures next.Marker? ==> Parse(input).marker == next.code
    ensures next.Exhausted? <==> Parse(input) == Segment([], 0, [])
  {
    rest := input;
    DropHead(rest, future);
    if rest == [] {
      return Exhausted, rest;
    }
    var c := rest[0];
    rest := rest[1..];
    if c == 0xFF {
      while true
        invariant c == 0xFF && |rest| < |input| && Parse(input) == ParseAfterFF(rest)
        invariant Parse(input + future) == ParseAfterFF(rest + future)
        decreases |rest|
      {
        DropHead(rest, future);
        if rest == [] {
          return Exhausted, rest;
        }
        c := rest[0];
        rest := rest[1..];
        if c != 0xFF {
          break;
        }
      }
      if c == 0 {
        return Data(0xFF), rest;
      }
      return Marker(c), rest;
    }
    next := Data(c);
  }

  lemma DropHead(s: seq<byte>, t: seq<byte>)
    ensures s != [] ==> (s + t)[0] == s[0] && (s + t)[1..] == s[1..] + t
  {
  }

  // The bits that are still to be delivered: those held, and the data bytes up to the marker.
  function Remaining(held: seq<bit>, input: seq<byte>, unread: byte): seq<bit> {
    held + (if unread == 0 then BytesToBits(Parse(input).data) else [])
  }

  lemma RemainingStep(held: seq<bit>, input: seq<byte>, c: byte, rest: seq<byte>)
    requires Parse(input) == Prepend(c, Parse(rest))
    ensures Remaining(held, input, 0) == Remaining(held + ToBits(c, BYTE_BITS), rest, 0)
  {
    BytesToBitsCons(c, Parse(rest).data);
  }

  lemma Padded(bits: seq<bit>, input: seq<byte>, unread: byte, k: nat)
    requires unread != 0 || k == 0
    ensures Remaining(bits + Zeros(k), input, unread) == Remaining(bits, input, unread) + Zeros(k)
    ensures unread != 0 ==> Remaining(bits, input, unread) == bits
  {
    assert k == 0 ==> bits + Zeros(k) == bits;
  }

  // Appending a byte to the register.
  lemma LoadByte(getBuffer: nat, held: seq<bit>, c: byte)
    requires Holds(getBuffer, held) && |held| < MIN_GET_BITS
    ensures Holds((getBuffer * 256 + c) % 0x1_0000_0000, held + ToBits(c, BYTE_BITS))
  {
    Pow2Small();
    ToBitsValue(c, BYTE_BITS);
    ShiftIn(getBuffer, held, ToBits(c, BYTE_BITS), getBuffer * 256 + c);
  }

  // Filling the register with zero bits.
  method StuffZeros(buffer: nat, left: nat, ghost bits: seq<bit>) returns (padded: nat)
    requires Holds(buffer, bits) && |bits| == left <= MIN_GET_BITS
    ensures Holds(padded, bits + Zeros(MIN_GET_BITS - left))
  {
    ghost var k := MIN_GET_BITS - left;
    ZerosAreNothing(k);
    ShiftIn(buffer, bits, Zeros(k), buffer * Pow2(k));
    padded := buffer * Pow2(MIN_GET_BITS - left) % 0x1_0000_0000;
  }

  // Whether a marker has been met, or lies ahead.
  predicate MarkerIn(unread: byte, input: seq<byte>) {
    unread != 0 || Parse(input).marker != 0
  }

  // The marker that ends the segment, and what comes after it.
  function Ending(unread: byte, input: seq<byte>): (byte, seq<byte>) {
    if unread != 0 then (unread, input) else (Parse(input).marker, Parse(input).after)
  }

  // The loading loop of jpeg_fill_bit_buffer, on its local copies of the state.
  method LoadBytes(getBuffer: nat, bitsLeft: nat, input: seq<byte>, ghost future: seq<byte>, ghost held: seq<bit>)
    returns (ok: bool, buffer: nat, left: nat, source: seq<byte>, marker: byte, ghost bits: seq<bit>)
    requires |held| == bitsLeft && Holds(getBuffer, held)
    ensures !ok ==> Parse(input).marker == 0
    ensures ok ==> |bits| == left && Holds(buffer, bits) && bitsLeft <= left
    ensures ok ==> Remaining(bits, source + future, marker) == Remaining(held, input + future, 0)
    ensures ok ==> marker != 0 || left >= MIN_GET_BITS
    ensures ok ==> MarkerIn(marker, source) == MarkerIn(0, input)
    ensures ok ==> Ending(marker, source + future) == Ending(0, input + future)
  {
    buffer, left, source, marker, bits := getBuffer, bitsLeft, input, 0, held;
    while left < MIN_GET_BITS && marker == 0
      invariant |bits| == left && Holds(buffer, bits) && bitsLeft <= left
      invariant Remaining(bits, source + future, marker) == Remaining(held, input + future, 0)
      invariant MarkerIn(marker, source) == MarkerIn(0, input)
      invariant Ending(marker, source + future) == Ending(0, input + future)
      decreases if marker == 0 then |source| + 1 else 0
    {
      var next, rest := NextByte(source, future);
      match next {
        case Exhausted =>
          ok := false;
          return;
        case Marker(code) =>
          source, marker := rest, code;
        case Data(c) =>
          RemainingStep(bits, source + future, c, rest + future);
          LoadByte(buffer, bits, c);
          source := rest;
          buffer := (buffer * 256 + c) % 0x1_0000_0000;
          left := left + 8;
          bits := bits + ToBits(c, BYTE_BITS);
      }
    }
    ok := true;
  }

  // The whole of it, still on local copies; short tells that the register had to be padded.
  method Fill(getBuffer: nat, bitsLeft: nat, input: seq<byte>, ghost future: seq<byte>, unread: byte, nbits: nat,
              ghost held: seq<bit>)
    returns (ok: bool, buffer: nat, left: nat, source: seq<byte>, marker: byte, short: bool,
             ghost bits: seq<bit>, ghost k: nat)
    requires |held| == bitsLeft && Holds(getBuffer, held) && nbits <= MIN_GET_BITS
    ensures !ok ==> !MarkerIn(unread, input)
    ensures ok ==> |bits| == left && Holds(buffer, bits) && left >= nbits
    ensures ok ==> Remaining(bits, source + future, marker) == Remaining(held, input + future, unread) + Zeros(k)
    ensures ok ==> (left >= MIN_GET_BITS || marker != 0)
    ensures ok ==> (short <==> k > 0) && (short ==> |Remaining(held, input + future, unread)| < nbits && marker != 0)
    ensures ok ==> MarkerIn(marker, source) == MarkerIn(unread, input)
    ensures ok ==> Ending(marker, source + future) == Ending(unread, input + future)
  {
    ok, short, k := true, false, 0;
    buffer, left, source, marker, bits := getBuffer, bitsLeft, input, unread, held;
    if marker == 0 {
      ok, buffer, left, source, marker, bits := LoadBytes(getBuffer, bitsLeft, input, future, held);
      if !ok {
        return;
      }
    }
    Padded(bits, source + future, marker, 0);
    if marker != 0 && nbits > left {
      k := MIN_GET_BITS - left;
      Padded(bits, source + future, marker, k);
      short := true;
      buffer := StuffZeros(buffer, left, bits);
      left := MIN_GET_BITS;
      bits := bits + Zeros(k);
    }
  }

  // The bits w are taken off s, to which k zeros were added because it is shorter than w.
  ghost predicate Takes(s: seq<bit>, w: seq<bit>, k: nat, rest: seq<bit>) {
    s + Zeros(k) == w + rest && (k > 0 ==> |s| < |w|)
  }

  lemma TakesHeld(s: seq<bit>, held: seq<bit>, input: seq<byte>, unread: byte, n: nat, k: nat)
    requires n <= |held| && Remaining(held, input, unread) == s + Zeros(k) && (k > 0 ==> |s| < n)
    ensures Takes(s, held[..n], k, Remaining(held[n..], input, unread))
  {
    assert held == held[..n] + held[n..];
  }

  lemma TakesOneMore(s: seq<bit>, w: seq<bit>, k: nat, mid: seq<bit>, b: seq<bit>, j: nat, rest: seq<bit>)
    requires Takes(s, w, k, mid) && Takes(mid, b, j, rest)
    ensures Takes(s, w + b, k + j, rest)
  {
    ZerosAppend(k, j);
    calc {
      s + Zeros(k + j);
      (s + Zeros(k)) + Zeros(j);
      w + (mid + Zeros(j));
      (w + b) + rest;
    }
    assert |s| + k == |w| + |mid|;
  }

  // ---- The state of a reader, as its callers see it ----

  // All the bits to come, the marker that ends them and the bytes after it, whether it is here already,
  // whether the warning about a premature end has been given, and the bytes that are still to be supplied.
  datatype Source = Source(rest: seq<bit>, marker: byte, after: seq<byte>, here: bool, warned: bool, future: seq<byte>)

  // Before the first byte of the input.
  function Fresh(input: seq<byte>): Source {
    Source(BytesToBits(Parse(input).data), Parse(input).marker, Parse(input).after, false, false, input)
  }

  // The bits w have been taken.  Zeros are made up only beyond a marker, and never without a warning.
  ghost predicate Took(from: Source, w: seq<bit>, k: nat, to: Source) {
    && Takes(from.rest, w, k, to.rest)
    && to == from.(rest := to.rest, warned := from.warned || k > 0) && (k > 0 ==> from.here)
  }

  // The k zeros that the register is filled up with.
  function WithZeros(from: Source, k: nat): Source {
    from.(rest := from.rest + Zeros(k), warned := from.warned || k > 0)
  }

  lemma TookNothing(from: Source)
    ensures Took(from, [], 0, from)
  {
    assert from.rest + Zeros(0) == from.rest == [] + from.rest;
  }

  lemma TookMore(from: Source, w: seq<bit>, k: nat, mid: Source, b: seq<bit>, j: nat, to: Source)
    requires Took(from, w, k, mid) && Took(mid, b, j, to)
    ensures Took(from, w + b, k + j, to)
  {
    TakesOneMore(from.rest, w, k, mid.rest, b, j, to.rest);
  }

  // None of the first l - 1 bits of w, from minBits on, make up a code.
  ghost predicate Passed(bits: seq<nat>, w: seq<bit>, minBits: nat, l: nat) {
    && |bits| == 17 && 1 <= minBits <= l <= 17 && |w| >= l - 1
    && Above(bits, w, minBits) && Above(bits, w, l)
    && forall m :: minBits <= m < l ==> BitsValue(w[..m]) > MaxCode(bits, m)
  }

  lemma FirstBits(bits: seq<nat>, s: seq<bit>, w: seq<bit>, k: nat, rest: seq<bit>)
    requires |bits| == 17 && 1 <= |w| <= 17 && |s| >= |w| - 1 && Takes(s, w, k, rest) && Above(bits, s, |w|)
    ensures Passed(bits, w, |w|, |w|)
  {
    var n := |w| - 1;
    assert (s + Zeros(k))[..n] == s[..n] && (w + rest)[..n] == w[..n];
  }

  lemma PassedOneMore(bits: seq<nat>, w: seq<bit>, minBits: nat, l: nat, b: seq<bit>)
    requires Passed(bits, w, minBits, l) && |w| == l <= 16 && BitsValue(w) > MaxCode(bits, l) && |b| == 1
    ensures Passed(bits, w + b, minBits, l + 1) && BitsValue(w + b) == BitsValue(w) * 2 + BitsValue(b)
  {
    BitsValueSnoc(w, b[0]);
    BitsValueSnoc([], b[0]);
    assert b == [b[0]] == [] + [b[0]];
    assert w[..l] == w;
    StaysAbove(bits, w, l);
    forall m | 0 <= m <= l
      ensures (w + b)[..m] == w[..m]
    {
    }
  }

  lemma {:induction false} PassedDecode(htbl: HuffTable, w: seq<bit>, rest: seq<bit>, minBits: nat, l: nat)
    requires Readable(htbl) && Passed(htbl.bits, w, minBits, l) && |w| == l
    ensures Above(htbl.bits, w + rest, minBits) && Above(htbl.bits, w + rest, l)
    ensures SlowDecode(htbl, w + rest, minBits) == SlowDecode(htbl, w + rest, l)
    decreases l - minBits
  {
    assert (w + rest)[..minBits - 1] == w[..minBits - 1] && (w + rest)[..l - 1] == w[..l - 1];
    if minBits < l {
      assert (w + rest)[..minBits] == w[..minBits];
      StaysAbove(htbl.bits, w, minBits);
      PassedDecode(htbl, w, rest, minBits + 1, l);
    }
  }

  // A code of 17 bits is below the sentinel in maxcode[17].
  lemma SentinelStops(w: seq<bit>)
    ensures |w| == 17 ==> BitsValue(w) < 0x2_0000
  {
    if |w| == 17 {
      BitsValueBound(w);
      Pow2Add(1, |w| - 1);
      Pow2Small();
    }
  }

  // The loop of jpeg_huff_decode after taking the l bits w, of value code.
  ghost predicate Collecting(bits: seq<nat>, minBits: nat, l: nat, code: nat, w: seq<bit>) {
    && |w| == l && code == BitsValue(w) && Passed(bits, w, minBits, l)
    && (l == 17 ==> code < 0x2_0000)
  }

  lemma CollectFirst(bits: seq<nat>, s: seq<bit>, w: seq<bit>, k: nat, rest: seq<bit>)
    requires |bits| == 17 && 1 <= |w| <= 17 && |s| >= |w| - 1 && Takes(s, w, k, rest) && Above(bits, s, |w|)
    ensures Collecting(bits, |w|, |w|, BitsValue(w), w)
  {
    FirstBits(bits, s, w, k, rest);
    SentinelStops(w);
  }

  lemma CollectNext(bits: seq<nat>, minBits: nat, l: nat, code: nat, w: seq<bit>, b: seq<bit>)
    requires Collecting(bits, minBits, l, code, w) && code > MaxCode(bits, l) && |b| == 1
    ensures l <= 16 && Collecting(bits, minBits, l + 1, code * 2 + BitsValue(b), w + b)
  {
    PassedOneMore(bits, w, minBits, l, b);
    SentinelStops(w + b);
  }

  lemma CollectLast(htbl: HuffTable, minBits: nat, l: nat, code: nat, w: seq<bit>)
    requires Readable(htbl) && Collecting(htbl.bits, minBits, l, code, w)
    ensures Above(htbl.bits, w, minBits) && Above(htbl.bits, w, l)
    ensures SlowDecode(htbl, w, minBits) == SlowDecode(htbl, w, l)
  {
    PassedDecode(htbl, w, [], minBits, l);
    assert w + [] == w;
  }

  // The symbol of a code found by jpeg_huff_decode.
  method Lookup(htbl: HuffTable, tbl: DTable, l: nat, code: nat, ghost w: seq<bit>) returns (sym: nat)
    requires Readable(htbl) && DecodesWith(htbl, tbl) && 1 <= l == |w| <= 16
    requires code == BitsValue(w) <= MaxCode(htbl.bits, |w|) && Above(htbl.bits, w, |w|)
    ensures SlowDecode(htbl, w, |w|) == Got(sym, |w|)
  {
    assert w[..|w|] == w;
    PlaceOfCode(htbl.bits, w, |w|);
    sym := htbl.huffval[code + tbl.valoffset[l]];
  }

  lemma LookHeld(htbl: HuffTable, tbl: DTable, held: seq<bit>, s: seq<bit>, look: nat)
    requires Readable(htbl) && DecodesWith(htbl, tbl) && HUFF_LOOKAHEAD <= |held| && held <= s
    requires look == BitsValue(held[..HUFF_LOOKAHEAD])
    ensures look == BitsValue(s[..HUFF_LOOKAHEAD]) < 256 && tbl.lookNbits[look] <= HUFF_LOOKAHEAD
    ensures tbl.lookNbits[look] != 0 ==> Decode(htbl, s) == Got(tbl.lookSym[look], tbl.lookNbits[look])
    ensures tbl.lookNbits[look] == 0 ==> Above(htbl.bits, s, HUFF_LOOKAHEAD + 1)
  {
    LookaheadAgrees(htbl, tbl, s, 1);
    assert s[..HUFF_LOOKAHEAD] == held[..HUFF_LOOKAHEAD];
  }

  // The next eight bits are held, and tell a symbol: no input is needed then.
  predicate InLookahead(htbl: HuffTable, held: seq<bit>)
    requires Readable(htbl)
  {
    |held| >= HUFF_LOOKAHEAD && Decode(htbl, held[..HUFF_LOOKAHEAD]).Got?
  }

  lemma NotInLookahead(htbl: HuffTable, tbl: DTable, held: seq<bit>, look: nat)
    requires Readable(htbl) && DecodesWith(htbl, tbl) && HUFF_LOOKAHEAD <= |held|
    requires look == BitsValue(held[..HUFF_LOOKAHEAD]) && look < 256 && tbl.lookNbits[look] == 0
    ensures !InLookahead(htbl, held)
  {
    var eight := held[..HUFF_LOOKAHEAD];
    assert eight[..HUFF_LOOKAHEAD] == eight;
    LookaheadAgrees(htbl, tbl, eight, 1);
  }

  // A code of more than eight bits, found by going on from the ninth.
  lemma LookLonger(htbl: HuffTable, tbl: DTable, s: seq<bit>, w: seq<bit>, k: nat, rest: seq<bit>)
    requires Readable(htbl) && DecodesWith(htbl, tbl) && HUFF_LOOKAHEAD <= |s| && HUFF_LOOKAHEAD < |w| && Takes(s, w, k, rest)
    requires BitsValue(s[..HUFF_LOOKAHEAD]) < 256 && tbl.lookNbits[BitsValue(s[..HUFF_LOOKAHEAD])] == 0
    ensures Above(htbl.bits, w, HUFF_LOOKAHEAD + 1)
    ensures Decode(htbl, w) == SlowDecode(htbl, w, HUFF_LOOKAHEAD + 1)
  {
    assert w[..HUFF_LOOKAHEAD] == (w + rest)[..HUFF_LOOKAHEAD] == s[..HUFF_LOOKAHEAD];
    LookaheadAgrees(htbl, tbl, w, 1);
  }

  // The bits that a symbol takes suffice to tell it.
  lemma {:induction false} DecodesAlone(htbl: HuffTable, w: seq<bit>, rest: seq<bit>, l: nat)
    requires Readable(htbl) && 1 <= l <= 17 && |w| >= l && Above(htbl.bits, w + rest, l)
    requires SlowDecode(htbl, w + rest, l).Got? && SlowDecode(htbl, w + rest, l).used == |w|
    ensures Above(htbl.bits, w, l) && SlowDecode(htbl, w, l) == SlowDecode(htbl, w + rest, l)
    decreases 17 - l
  {
    assert (w + rest)[..l - 1] == w[..l - 1] && (w + rest)[..l] == w[..l];
    if l < 17 && BitsValue(w[..l]) > MaxCode(htbl.bits, l) {
      StaysAbove(htbl.bits, w + rest, l);
      LongerThan(htbl, w + rest, l + 1);
      DecodesAlone(htbl, w, rest, l + 1);
    }
  }

  lemma {:induction false} LongerThan(htbl: HuffTable, s: seq<bit>, l: nat)
    requires Readable(htbl) && 1 <= l <= 17 && Above(htbl.bits, s, l) && SlowDecode(htbl, s, l).Got?
    ensures SlowDecode(htbl, s, l).used >= l
    decreases 17 - l
  {
    if l < 17 && BitsValue(s[..l]) > MaxCode(htbl.bits, l) {
      StaysAbove(htbl.bits, s, l);
      LongerThan(htbl, s, l + 1);
    }
  }

  class Reader {
    var getBuffer: nat           // 32 bits, the valid ones right-justified
    var bitsLeft: nat
    var input: seq<byte>         // the bytes in the source buffer
    var unreadMarker: byte       // nonzero once a marker has been met
    var insufficientData: bool   // the warning about a premature end has been given
    ghost var held: seq<bit>     // the valid bits of the register
    ghost var future: seq<byte>  // the bytes that will still be supplied

    ghost predicate Valid()
      reads this`held, this`bitsLeft, this`getBuffer
    {
      |held| == bitsLeft && Holds(getBuffer, held)
    }

    // All the bits to come, whether or not they are here already.
    ghost function Rest(): seq<bit>
      reads this`held, this`input, this`future, this`unreadMarker
    {
      Remaining(held, input + future, unreadMarker)
    }

    // The marker that ends the segment is here, so reading cannot be forced to suspend.
    ghost predicate Here()
      reads this`unreadMarker, this`input
    {
      MarkerIn(unreadMarker, input)
    }

    ghost function State(): Source
      reads this`held, this`input, this`future, this`unreadMarker, this`insufficientData
    {
      var end := Ending(unreadMarker, input + future);
      Source(Rest(), end.0, end.1, Here(), insufficientData, future)
    }

    constructor (input: seq<byte>, ghost future: seq<byte>)
      ensures Valid() && this.input == input && this.future == future && held == []
      ensures var all := Parse(input + future);
        State() == Source(BytesToBits(all.data), all.marker, all.after, Parse(input).marker != 0, false, future)
    {
      getBuffer, bitsLeft, unreadMarker, insufficientData := 0, 0, 0, false;
      this.input, this.future := input, future;
      held := [];
      new;
      ghost var bits := BytesToBits(Parse(input + future).data);
      assert [] + bits == bits;
    }

    // A working copy of the state.
    constructor Copy(from: Reader)
      requires from.Valid()
      ensures Valid() && State() == from.State()
    {
      getBuffer, bitsLeft, unreadMarker, insufficientData := from.getBuffer, from.bitsLeft, from.unreadMarker, from.insufficientData;
      input, held, future := from.input, from.held, from.future;
    }

    // The working copy becomes the state.
    method Save(from: Reader)
      requires from.Valid()
      modifies this
      ensures Valid() && State() == from.State()
    {
      getBuffer, bitsLeft, unreadMarker, insufficientData := from.getBuffer, from.bitsLeft, from.unreadMarker, from.insufficientData;
      input, held, future := from.input, from.held, from.future;
    }

    // fill_input_buffer: more bytes arrive, which changes nothing about what is to come.
    method Supply(more: seq<byte>)
      requires Valid() && more <= future
      modifies this`input, this`future
      ensures Valid() && State() == old(State()).(here := Here(), future := old(future)[|more|..])
    {
      input, future := input + more, future[|more|..];
      assert input + future == old(input + future) by {
        Reassociate(old(input), more, future);
        assert more + future == old(future);
      }
    }

    // Nothing more will come.
    lemma AllHere()
      requires future == []
      ensures Here() <==> State().marker != 0
    {
      assert input + future == input;
    }

    // jpeg_fill_bit_buffer.  It fails only for lack of input, and then changes nothing.  It invents
    // k zero bits only after a marker, only when the request cannot be met, and then warns.
    method FillBitBuffer(nbits: nat) returns (ok: bool, ghost k: nat)
      requires Valid() && nbits <= MIN_GET_BITS
      modifies this
      ensures Valid()
      ensures !ok ==> unchanged(this) && !Here()
      ensures ok ==> State() == WithZeros(old(State()), k) && bitsLeft >= nbits
      ensures ok && k > 0 ==> |old(Rest())| < nbits && old(Here())
    {
      var buffer, left, source, marker, short;
      ghost var bits;
      ok, buffer, left, source, marker, short, bits, k := Fill(getBuffer, bitsLeft, input, future, unreadMarker, nbits, held);
      if !ok {
        return;
      }
      if short {
        insufficientData := true;
      }
      getBuffer, bitsLeft, input, unreadMarker, held := buffer, left, source, marker, bits;
    }

    // GET_BITS, after CHECK_BIT_BUFFER.
    method GetBits(n: nat) returns (value: nat)
      requires Valid() && n <= bitsLeft
      modifies this`bitsLeft, this`held
      ensures Valid() && held == old(held)[n..]
      ensures value == BitsValue(old(held)[..n])
    {
      ShiftOut(getBuffer, held, n);
      bitsLeft := bitsLeft - n;
      value := getBuffer / Pow2(bitsLeft) % Pow2(n);
      held := held[n..];
    }

    // CHECK_BIT_BUFFER and GET_BITS: the next n bits, made up of zeros beyond the end.
    method Fetch(n: nat) returns (ok: bool, value: nat, ghost w: seq<bit>, ghost k: nat)
      requires Valid() && n <= MIN_GET_BITS
      modifies this
      ensures Valid()
      ensures !ok ==> unchanged(this) && !Here() && bitsLeft < n
      ensures ok ==> |w| == n && value == BitsValue(w) && Took(old(State()), w, k, State())
    {
      ghost var all := Rest();
      ok, k, value, w := true, 0, 0, [];
      Padded(held, input + future, unreadMarker, 0);
      if bitsLeft < n {
        ok, k := FillBitBuffer(n);
        if !ok {
          return;
        }
      }
      TakesHeld(all, held, input + future, unreadMarker, n, k);
      w := held[..n];
      value := GetBits(n);
    }

    // CHECK_BIT_BUFFER and DROP_BITS.
    method Skip(n: nat) returns (ok: bool, ghost w: seq<bit>, ghost k: nat)
      requires Valid() && n <= MIN_GET_BITS
      modifies this
      ensures Valid()
      ensures !ok ==> unchanged(this) && !Here() && bitsLeft < n
      ensures ok ==> |w| == n && Took(old(State()), w, k, State())
    {
      ghost var all := Rest();
      ok, k, w := true, 0, [];
      Padded(held, input + future, unreadMarker, 0);
      if bitsLeft < n {
        ok, k := FillBitBuffer(n);
        if !ok {
          return;
        }
      }
      TakesHeld(all, held, input + future, unreadMarker, n, k);
      w := held[..n];
      DropBits(n);
    }

    method CollectBit(ghost bits: seq<nat>, ghost from: Source, ghost minBits: nat, ghost l: nat, code: nat,
                      ghost w: seq<bit>, ghost k: nat)
      returns (ok: bool, code': nat, ghost w': seq<bit>, ghost k': nat)
      requires Valid() && Collecting(bits, minBits, l, code, w) && Took(from, w, k, State()) && code > MaxCode(bits, l)
      modifies this
      ensures Valid()
      ensures !ok ==> !from.here
      ensures ok ==> l <= 16 && Collecting(bits, minBits, l + 1, code', w') && Took(from, w', k', State())
    {
      var more;
      ghost var b, j;
      ok, more, b, j := Fetch(1);
      if ok {
        CollectNext(bits, minBits, l, code, w, b);
        TookMore(from, w, k, old(State()), b, j, State());
      }
      code' := code * 2 + more;
      w', k' := w + b, k + j;
    }

    // The loop of jpeg_huff_decode: bits are taken until their value is at most maxcode.
    method CollectCode(ghost bits: seq<nat>, maxcode: seq<int>, minBits: nat)
      returns (ok: bool, l: nat, code: nat, ghost w: seq<bit>, ghost k: nat)
      requires Valid() && 1 <= minBits <= 9 && |bits| == 17 && |maxcode| == 18
      requires forall i :: 1 <= i <= 17 ==> maxcode[i] == MaxCode(bits, i)
      requires |Rest()| >= minBits - 1 && Above(bits, Rest(), minBits)
      modifies this
      ensures Valid()
      ensures !ok ==> !old(Here())
      ensures ok ==> 1 <= l <= 17 && code <= MaxCode(bits, l)
      ensures ok ==> Collecting(bits, minBits, l, code, w) && Took(old(State()), w, k, State())
    {
      ghost var from := State();
      l := minBits;
      ok, code, w, k := Fetch(l);
      if !ok {
        return;
      }
      CollectFirst(bits, from.rest, w, k, Rest());
      ok, l, code, w, k := CollectOn(bits, maxcode, from, minBits, code, w, k);
    }

    method CollectOn(ghost bits: seq<nat>, maxcode: seq<int>, ghost from: Source, minBits: nat, value: nat,
                     ghost taken: seq<bit>, ghost invented: nat)
      returns (ok: bool, l: nat, code: nat, ghost w: seq<bit>, ghost k: nat)
      requires Valid() && 1 <= minBits <= 17 && |bits| == 17 && |maxcode| == 18
      requires forall i :: 1 <= i <= 17 ==> maxcode[i] == MaxCode(bits, i)
      requires Collecting(bits, minBits, minBits, value, taken) && Took(from, taken, invented, State())
      modifies this
      ensures Valid()
      ensures !ok ==> !from.here
      ensures ok ==> 1 <= l <= 17 && code <= MaxCode(bits, l)
      ensures ok ==> Collecting(bits, minBits, l, code, w) && Took(from, w, k, State())
    {
      ok, l, code, w, k := true, minBits, value, taken, invented;
      while ok && code > maxcode[l]
        invariant Valid() && 1 <= l <= 17
        invariant if ok then Collecting(bits, minBits, l, code, w) && Took(from, w, k, State()) else !from.here
        decreases ok, 17 - l
      {
        ok, code, w, k := CollectBit(bits, from, minBits, l, code, w, k);
        l := if ok then l + 1 else l;
      }
    }

    // jpeg_huff_decode, told that the code has at least minBits bits; -1 if forced to suspend.  The
    // symbol is that of the bits w that are taken.
    method JpegHuffDecode(htbl: HuffTable, tbl: DTable, minBits: nat)
      returns (result: int, ghost w: seq<bit>, ghost k: nat)
      requires Valid() && Readable(htbl) && DecodesWith(htbl, tbl) && 1 <= minBits <= HUFF_LOOKAHEAD + 1
      requires |Rest()| >= minBits - 1 && Above(htbl.bits, Rest(), minBits)
      modifies this
      ensures Valid()
      ensures result < 0 ==> !old(Here())
      ensures result >= 0 ==> Took(old(State()), w, k, State()) && |w| >= minBits
      ensures result >= 0 ==> Above(htbl.bits, w, minBits) && SlowDecode(htbl, w, minBits) == Got(result, |w|)
    {
      var ok, l, code;
      ok, l, code, w, k := CollectCode(htbl.bits, tbl.maxcode, minBits);
      if !ok {
        return -1, w, k;
      }
      CollectLast(htbl, minBits, l, code, w);
      if l > 16 {
        return 0, w, k;
      }
      result := Lookup(htbl, tbl, l, code, w);
    }

    // HUFF_DECODE: one symbol by lookahead where possible, with the same result.
    method HuffDecode(htbl: HuffTable, tbl: DTable) returns (result: int, ghost w: seq<bit>, ghost k: nat)
      requires Valid() && Readable(htbl) && DecodesWith(htbl, tbl)
      modifies this
      ensures Valid()
      ensures result < 0 ==> !old(Here()) && !InLookahead(htbl, old(held))
      ensures result >= 0 ==> Took(old(State()), w, k, State()) && Decode(htbl, w) == Got(result, |w|)
    {
      if bitsLeft < HUFF_LOOKAHEAD {
        var ok;
        ok, k := FillBitBuffer(0);
        if !ok {
          return -1, [], 0;
        }
        assert Rest() == old(Rest()) + Zeros(0) == old(Rest());
      }
      if bitsLeft < HUFF_LOOKAHEAD {
        result, w, k := JpegHuffDecode(htbl, tbl, 1);
      } else {
        result, w, k := LookAhead(htbl, tbl);
      }
    }

    method LookAhead(htbl: HuffTable, tbl: DTable) returns (result: int, ghost w: seq<bit>, ghost k: nat)
      requires Valid() && Readable(htbl) && DecodesWith(htbl, tbl) && bitsLeft >= HUFF_LOOKAHEAD
      modifies this
      ensures Valid()
      ensures result < 0 ==> !old(Here()) && !InLookahead(htbl, old(held))
      ensures result >= 0 ==> Took(old(State()), w, k, State()) && Decode(htbl, w) == Got(result, |w|)
    {
      var look := PeekBits(HUFF_LOOKAHEAD);
      LookHeld(htbl, tbl, held, Rest(), look);
      var nb := tbl.lookNbits[look];
      if nb != 0 {
        result := tbl.lookSym[look];
        w, k := held[..nb], 0;
        DropBits(nb);
        assert old(Rest()) == w + Rest();
        DecodesAlone(htbl, w, Rest(), 1);
      } else {
        NotInLookahead(htbl, tbl, held, look);
        result, w, k := DecodeLong(htbl, tbl);
      }
    }

    method DecodeLong(htbl: HuffTable, tbl: DTable) returns (result: int, ghost w: seq<bit>, ghost k: nat)
      requires Valid() && Readable(htbl) && DecodesWith(htbl, tbl) && |Rest()| >= HUFF_LOOKAHEAD
      requires Above(htbl.bits, Rest(), HUFF_LOOKAHEAD + 1)
      requires BitsValue(Rest()[..HUFF_LOOKAHEAD]) < 256 && tbl.lookNbits[BitsValue(Rest()[..HUFF_LOOKAHEAD])] == 0
      modifies this
      ensures Valid()
      ensures result < 0 ==> !old(Here())
      ensures result >= 0 ==> Took(old(State()), w, k, State()) && Decode(htbl, w) == Got(result, |w|)
    {
      result, w, k := JpegHuffDecode(htbl, tbl, HUFF_LOOKAHEAD + 1);
      if result >= 0 {
        LookLonger(htbl, tbl, old(Rest()), w, k, Rest());
      }
    }

    method PeekBits(n: nat) returns (value: nat)
      requires Valid() && n <= bitsLeft
      ensures value == BitsValue(held[..n])
    {
      ShiftOut(getBuffer, held, n);
      value := getBuffer / Pow2(bitsLeft - n) % Pow2(n);
    }

    method DropBits(n: nat)
      requires Valid() && n <= bitsLeft
      modifies this`bitsLeft, this`held
      ensures Valid() && held == old(held)[n..]
      ensures old(Rest()) == old(held)[..n] + Rest() && Took(old(State()), old(held)[..n], 0, State())
    {
      ShiftOut(getBuffer, held, n);
      Padded(held, input + future, unreadMarker, 0);
      TakesHeld(Rest(), held, input + future, unreadMarker, n, 0);
      bitsLeft := bitsLeft - n;
      held := held[n..];
    }
  }
}
