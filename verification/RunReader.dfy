// Reading a band of coefficients symbol by symbol from a bit reader: what the loops of decode_mcu,
// decode_mcu_sub and decode_mcu_AC_first of jdhuff.c have in common.
module RunReader {
  import opened Numerals
  import opened CanonicalCode
  import opened DerivedTables
  import opened HuffmanDecode
  import opened BitReader
  import opened ACScan
  import opened RunLength

  // The fixed arguments of ReadRuns.
  datatype Band = Band(htbl: HuffTable, se: nat, lim: nat, p: nat)

  // An empty band needs no table.
  predicate CanRead(b: Band, k: nat) {
    k <= b.se ==> Readable(b.htbl)
  }

  function Runs(b: Band, z: Block, k: nat, s: seq<bit>): Read
    requires CanRead(b, k)
  {
    ReadRuns(b.htbl, z, k, b.se, b.lim, b.p, s)
  }

  // The bits w lead from position k to position k', or to an end of block of category r, whatever follows.
  ghost predicate ReadsOn(b: Band, z: Block, k: nat, w: seq<bit>, z': Block, k': nat)
    requires CanRead(b, k)
  {
    k <= k' && forall t: seq<bit> :: Runs(b, z, k, w + t) == Runs(b, z', k', t)
  }

  ghost predicate ReadsEob(b: Band, z: Block, k: nat, w: seq<bit>, z': Block, r: nat)
    requires CanRead(b, k)
  {
    forall t: seq<bit> :: Runs(b, z, k, w + t) == AtEob(z', r, t)
  }

  ghost predicate Reads(b: Band, z: Block, k: nat, w: seq<bit>, ended: bool, z': Block, k': nat, r: nat)
    requires CanRead(b, k)
  {
    if ended then ReadsEob(b, z, k, w, z', r) else ReadsOn(b, z, k, w, z', k')
  }

  lemma ReadsNothing(b: Band, z: Block, k: nat)
    requires CanRead(b, k)
    ensures ReadsOn(b, z, k, [], z, k)
  {
    forall t: seq<bit>
      ensures Runs(b, z, k, [] + t) == Runs(b, z, k, t)
    {
      assert [] + t == t;
    }
  }

  lemma ReadsMore(b: Band, z: Block, k: nat, w: seq<bit>, z': Block, k': nat, v: seq<bit>,
                  ended: bool, z'': Block, k'': nat, r: nat)
    requires CanRead(b, k) && ReadsOn(b, z, k, w, z', k') && Reads(b, z', k', v, ended, z'', k'', r)
    ensures Reads(b, z, k, w + v, ended, z'', k'', r)
  {
    forall t: seq<bit>
      ensures Runs(b, z, k, (w + v) + t) == Runs(b, z', k', v + t)
    {
      Reassociate(w, v, t);
    }
  }

  // ---- One symbol and the bits that go with it ----

  ghost predicate PairTaken(htbl: HuffTable, w: seq<bit>, r: nat, n: nat)
    requires Readable(htbl)
  {
    |w| >= n && Decode(htbl, w).Got? && SymbolIs(Decode(htbl, w).sym, r, n) && Decode(htbl, w).used == |w| - n
  }

  predicate SymbolIs(sym: nat, r: nat, n: nat) {
    sym / 16 == r && sym % 16 == n
  }

  function PairValue(w: seq<bit>, n: nat): int
    requires 0 < n <= |w|
  {
    Extend(BitsValue(w[|w| - n..]), n)
  }

  lemma SymbolAhead(b: Band, z: Block, k: nat, w: seq<bit>, u: nat, sym: nat, t: seq<bit>)
    requires Readable(b.htbl) && k <= b.se && u <= |w| && Decode(b.htbl, w) == Got(sym, u)
    ensures Runs(b, z, k, w + t) == AfterSymbol(b.htbl, z, k, b.se, b.lim, b.p, sym, w[u..] + t)
  {
    assert (w + t)[u..] == w[u..] + t;
    DecodeMonotone(b.htbl, w, t, 1);
  }

  lemma ValueThen(b: Band, z: Block, k: nat, v: seq<bit>, r: nat, n: nat, sym: nat, t: seq<bit>)
    requires Readable(b.htbl) && k <= b.se && SymbolIs(sym, r, n) && |v| == n > 0
    ensures AfterSymbol(b.htbl, z, k, b.se, b.lim, b.p, sym, v + t) ==
      Runs(b, Put(z, k, r, b.lim, Extend(BitsValue(v), n) * b.p), k + r + 1, t)
  {
    assert (v + t)[..n] == v && (v + t)[n..] == t;
    AfterValue(b.htbl, z, k, b.se, b.lim, b.p, sym, v + t, r, n, Extend(BitsValue(v), n));
  }

  lemma PairThen(b: Band, z: Block, k: nat, w: seq<bit>, r: nat, n: nat, t: seq<bit>)
    requires Readable(b.htbl) && k <= b.se && PairTaken(b.htbl, w, r, n)
    ensures n > 0 ==> Runs(b, z, k, w + t) == Runs(b, Put(z, k, r, b.lim, PairValue(w, n) * b.p), k + r + 1, t)
    ensures n == 0 && r != 15 ==> Runs(b, z, k, w + t) == AtEob(z, r, t)
    ensures n == 0 && r == 15 ==> Runs(b, z, k, w + t) == Runs(b, z, k + 16, t)
  {
    var v, sym := w[|w| - n..], Decode(b.htbl, w).sym;
    assert n == 0 ==> v + t == t;
    SymbolAhead(b, z, k, w, |w| - n, sym, t);
    if n > 0 {
      ValueThen(b, z, k, v, r, n, sym, t);
    }
  }

  // Where one more symbol leads.
  predicate PairMoves(b: Band, z: Block, k: nat, w: seq<bit>, r: nat, n: nat, ended: bool, z': Block, k': nat) {
    n <= |w| &&
    if n > 0 then !ended && k' == k + r + 1 && z' == Put(z, k, r, b.lim, PairValue(w, n) * b.p)
    else z' == z && ended == (r != 15) && (!ended ==> k' == k + 16)
  }

  lemma PairReads(b: Band, z: Block, k: nat, w: seq<bit>, r: nat, n: nat, ended: bool, z': Block, k': nat)
    requires Readable(b.htbl) && k <= b.se && PairTaken(b.htbl, w, r, n) && PairMoves(b, z, k, w, r, n, ended, z', k')
    ensures Reads(b, z, k, w, ended, z', k', r)
  {
    forall t: seq<bit>
      ensures Runs(b, z, k, w + t) == if ended then AtEob(z', r, t) else Runs(b, z', k', t)
    {
      PairThen(b, z, k, w, r, n, t);
    }
  }

  lemma ReadsPair(b: Band, z: Block, k: nat, w: seq<bit>, mid: Block, m: nat, x: seq<bit>, r: nat, n: nat,
                  ended: bool, z': Block, k': nat)
    requires Readable(b.htbl) && ReadsOn(b, z, k, w, mid, m) && m <= b.se
    requires PairTaken(b.htbl, x, r, n) && PairMoves(b, mid, m, x, r, n, ended, z', k')
    ensures Reads(b, z, k, w + x, ended, z', k', r)
  {
    PairReads(b, mid, m, x, r, n, ended, z', k');
    ReadsMore(b, z, k, w, mid, m, x, ended, z', k', r);
  }

  // The state of a loop over symbols: the bits w have been taken on the way from position k.
  ghost predicate Reading(b: Band, from: Source, z: Block, k: nat, w: seq<bit>, n: nat, to: Source,
                          ended: bool, z': Block, k': nat, r: nat)
    requires CanRead(b, k)
  {
    Took(from, w, n, to) && Reads(b, z, k, w, ended, z', k', r)
  }

  lemma ReadingStarts(b: Band, from: Source, z: Block, k: nat)
    requires CanRead(b, k)
    ensures Reading(b, from, z, k, [], 0, from, false, z, k, 0)
  {
    ReadsNothing(b, z, k);
    TookNothing(from);
  }

  lemma ReadingPair(b: Band, from: Source, z: Block, k: nat, w: seq<bit>, i: nat, before: Source, mid: Block, m: nat, r0: nat,
                    x: seq<bit>, j: nat, to: Source, r: nat, n: nat, ended: bool, z': Block, k': nat)
    requires Readable(b.htbl) && Reading(b, from, z, k, w, i, before, false, mid, m, r0) && m <= b.se
    requires Took(before, x, j, to) && PairTaken(b.htbl, x, r, n) && PairMoves(b, mid, m, x, r, n, ended, z', k')
    ensures Reading(b, from, z, k, w + x, i + j, to, ended, z', k', r)
  {
    TookMore(from, w, i, before, x, j, to);
    ReadsPair(b, z, k, w, mid, m, x, r, n, ended, z', k');
  }

  // The code and the bits after it.
  lemma PairIs(htbl: HuffTable, w: seq<bit>, v: seq<bit>, sym: nat)
    requires Readable(htbl) && Decode(htbl, w) == Got(sym, |w|) && |v| == sym % 16
    ensures sym < 256 && PairTaken(htbl, w + v, sym / 16, sym % 16)
    ensures v != [] ==> PairValue(w + v, |v|) == Extend(BitsValue(v), |v|)
  {
    DecodeMonotone(htbl, w, v, 1);
    assert (w + v)[|w|..] == v;
  }

  // The bits of a value of the given size, extended if the value is wanted.
  method TakeValue(state: Reader, n: nat, keep: bool) returns (ok: bool, v: int, ghost x: seq<bit>, ghost k: nat)
    requires state.Valid() && n <= 15
    modifies state
    ensures state.Valid()
    ensures !ok ==> !old(state.Here())
    ensures ok ==> Took(old(state.State()), x, k, state.State()) && |x| == n
    ensures ok && keep ==> v == if n == 0 then 0 else Extend(BitsValue(x), n)
  {
    TookNothing(state.State());
    ok, v, x, k := true, 0, [], 0;
    if n != 0 {
      if keep {
        ok, v, x, k := state.Fetch(n);
        v := Extend(v, n);
      } else {
        ok, x, k := state.Skip(n);
      }
    }
  }

  // HUFF_DECODE, then the value of the size it gives, or just its bits.
  method ReadPair(state: Reader, htbl: HuffTable, tbl: DTable, keep: bool)
    returns (ok: bool, r: nat, n: nat, v: int, ghost w: seq<bit>, ghost k: nat)
    requires state.Valid() && Readable(htbl) && DecodesWith(htbl, tbl)
    modifies state
    ensures state.Valid()
    ensures !ok ==> !old(state.Here())
    ensures ok ==> Took(old(state.State()), w, k, state.State()) && PairTaken(htbl, w, r, n)
    ensures ok && keep && n > 0 ==> v == PairValue(w, n)
  {
    ghost var from := state.State();
    ok, r, n, v := false, 0, 0, 0;
    var sym;
    sym, w, k := state.HuffDecode(htbl, tbl);
    if sym < 0 {
      return;
    }
    ghost var mid := state.State();
    ghost var x, j;
    r, n := sym / 16, sym % 16;
    ok, v, x, j := TakeValue(state, n, keep);
    if ok {
      PairIs(htbl, w, x, sym);
      TookMore(from, w, k, mid, x, j, state.State());
    }
    w, k := w + x, k + j;
  }

  // ---- More bits do not change what was read ----

  function WithMore(r: Read, t: seq<bit>): Read {
    match r
    case AtEnd(z, s) => AtEnd(z, s + t)
    case AtEob(z, n, s) => AtEob(z, n, s + t)
    case Starved(z) => Starved(z)
  }

  lemma {:induction false} RunsMonotone(b: Band, z: Block, k: nat, s: seq<bit>, t: seq<bit>)
    requires CanRead(b, k) && !Runs(b, z, k, s).Starved?
    ensures Runs(b, z, k, s + t) == WithMore(Runs(b, z, k, s), t)
    decreases b.se + 1 - k, 1
  {
    if k <= b.se {
      var d := Decode(b.htbl, s);
      DecodeMonotone(b.htbl, s, t, 1);
      CutBefore(s, t, d.used);
      AfterSymbolMonotone(b, z, k, d.sym, s[d.used..], t);
    }
  }

  lemma {:induction false} AfterSymbolMonotone(b: Band, z: Block, k: nat, sym: nat, s: seq<bit>, t: seq<bit>)
    requires Readable(b.htbl) && k <= b.se && !AfterSymbol(b.htbl, z, k, b.se, b.lim, b.p, sym, s).Starved?
    ensures AfterSymbol(b.htbl, z, k, b.se, b.lim, b.p, sym, s + t) ==
      WithMore(AfterSymbol(b.htbl, z, k, b.se, b.lim, b.p, sym, s), t)
    decreases b.se + 1 - k, 0
  {
    var r, n := sym / 16, sym % 16;
    if n != 0 {
      CutBefore(s, t, n);
      RunsMonotone(b, Put(z, k, r, b.lim, Extend(BitsValue(s[..n]), n) * b.p), k + r + 1, s[n..], t);
    } else if r == 15 {
      RunsMonotone(b, z, k + 16, s, t);
    }
  }
}
