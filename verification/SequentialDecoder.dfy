// decode_mcu and decode_mcu_sub of jdhuff.c: blocks decoded from a bit reader that may run out of
// input, or out of data.
module SequentialDecoder {
  import opened Numerals
  import opened CanonicalCode
  import opened DerivedTables
  import opened HuffmanDecode
  import opened BitReader
  import opened ACScan
  import opened RunLength
  import opened RunReader
  import opened SequentialBlock
  import opened SequentialIntervals
  import opened RestartStream
  import opened RestartReader

  // ---- What a block takes from the input ----

  ghost predicate AcReads(acTable: HuffTable, se: nat, z: Block, dc: int, lim: nat, w: seq<bit>, z': Block)
    requires se > 0 ==> Readable(acTable)
  {
    forall t: seq<bit> :: ReadAc(acTable, se, z, dc, lim, w + t) == Complete(z', dc, t)
  }

  lemma AcIs(acTable: HuffTable, se: nat, z: Block, dc: int, lim: nat, w: seq<bit>, ended: bool, z': Block, k': nat, r: nat)
    requires (se > 0 ==> Readable(acTable)) && Reads(Band(acTable, se, lim, 1), z, 1, w, ended, z', k', r)
    requires !ended ==> k' > se
    ensures AcReads(acTable, se, z, dc, lim, w, z')
  {
    var b := Band(acTable, se, lim, 1);
    forall t: seq<bit>
      ensures ReadAc(acTable, se, z, dc, lim, w + t) == Complete(z', dc, t)
    {
      assert Runs(b, z, 1, w + t) == if ended then AtEob(z', r, t) else AtEnd(z', t);
    }
  }

  ghost predicate UnitReads(dcTable: HuffTable, acTable: HuffTable, se: nat, coefLimit: nat, lastDc: int, w: seq<bit>,
                            z: Block, dc: int)
    requires Readable(dcTable) && (se > 0 ==> Readable(acTable)) && se <= 63
  {
    forall t: seq<bit> :: ReadUnit(dcTable, acTable, se, coefLimit, ZeroBlock(), lastDc, w + t) == Complete(z, dc, t)
  }

  // The size of a DC difference, and its bits.
  ghost predicate DcTaken(dcTable: HuffTable, w: seq<bit>, v: seq<bit>)
    requires Readable(dcTable)
  {
    Decode(dcTable, w) == Got(|v|, |w|)
  }

  lemma UnitIs(dcTable: HuffTable, acTable: HuffTable, se: nat, coefLimit: nat, lastDc: int,
               w: seq<bit>, v: seq<bit>, dc: int, x: seq<bit>, z: Block, all: seq<bit>)
    requires Readable(dcTable) && (se > 0 ==> Readable(acTable)) && se <= 63 && DcTaken(dcTable, w, v)
    requires dc == if coefLimit == 0 then lastDc else Difference(v) + lastDc
    requires AcReads(acTable, se, AfterDc(coefLimit, dc), dc, LastKept(coefLimit), x, z)
    requires all == (w + v) + x
    ensures UnitReads(dcTable, acTable, se, coefLimit, lastDc, all, z, dc)
  {
    forall t: seq<bit>
      ensures ReadUnit(dcTable, acTable, se, coefLimit, ZeroBlock(), lastDc, all + t) == Complete(z, dc, t)
    {
      UnitWith(dcTable, acTable, se, coefLimit, lastDc, w, v, dc, x, all, t);
    }
  }

  lemma UnitWith(dcTable: HuffTable, acTable: HuffTable, se: nat, coefLimit: nat, lastDc: int,
                 w: seq<bit>, v: seq<bit>, dc: int, x: seq<bit>, all: seq<bit>, t: seq<bit>)
    requires Readable(dcTable) && (se > 0 ==> Readable(acTable)) && se <= 63 && DcTaken(dcTable, w, v)
    requires dc == if coefLimit == 0 then lastDc else Difference(v) + lastDc
    requires all == (w + v) + x
    ensures ReadUnit(dcTable, acTable, se, coefLimit, ZeroBlock(), lastDc, all + t) ==
      ReadAc(acTable, se, AfterDc(coefLimit, dc), dc, LastKept(coefLimit), x + t)
  {
    var s := all + t;
    assert s == w + (v + (x + t)) && s[|w|..] == v + (x + t);
    DecodeMonotone(dcTable, w, v + (x + t), 1);
    DcDecodes(dcTable, acTable, se, coefLimit, lastDc, s, v, dc, x + t);
  }

  function Together(done: seq<Block>, later: StreamRead): StreamRead {
    match later
    case Broken => Broken
    case Blocks(zs, own, s) => Blocks(done + zs, own, s)
  }

  lemma TogetherNone(later: StreamRead)
    ensures Together([], later) == later
  {
  }

  predicate Fits(us: seq<Unit>, se: nat, components: nat) {
    forall i :: 0 <= i < |us| ==> us[i].comp < components && us[i].coefLimit <= se + 1
  }

  // The bits w lead through the first i blocks of an MCU.
  ghost predicate StreamReads(tables: seq<HuffTable>, us: seq<Unit>, se: nat, last: seq<int>, w: seq<bit>,
                              i: nat, zs: seq<Block>, own: seq<int>)
    requires TablesFor(tables, us, se) && se <= 63 && Fits(us, se, |last|) && i <= |us| && |own| == |last|
  {
    forall t: seq<bit> :: ReadStream(tables, us, se, last, w + t) == Together(zs, ReadStream(tables, us[i..], se, own, t))
  }

  lemma StreamReadsNothing(tables: seq<HuffTable>, us: seq<Unit>, se: nat, last: seq<int>)
    requires TablesFor(tables, us, se) && se <= 63 && Fits(us, se, |last|)
    ensures StreamReads(tables, us, se, last, [], 0, [], last)
  {
    EndPrefixes(us);
    forall t: seq<bit>
      ensures ReadStream(tables, us, se, last, [] + t) == Together([], ReadStream(tables, us[0..], se, last, t))
    {
      NothingBefore(t);
      TogetherNone(ReadStream(tables, us, se, last, t));
    }
  }

  lemma StreamReadsUnit(tables: seq<HuffTable>, us: seq<Unit>, se: nat, last: seq<int>, w: seq<bit>, i: nat,
                        zs: seq<Block>, own: seq<int>, v: seq<bit>, z: Block, dc: int)
    requires TablesFor(tables, us, se) && se <= 63 && Fits(us, se, |last|) && i < |us| && |own| == |last|
    requires StreamReads(tables, us, se, last, w, i, zs, own)
    requires UnitReads(tables[us[i].dcTab], tables[us[i].acTab], se, us[i].coefLimit, own[us[i].comp], v, z, dc)
    ensures StreamReads(tables, us, se, last, w + v, i + 1, zs + [z], own[us[i].comp := dc])
  {
    var own' := own[us[i].comp := dc];
    assert us[i..][0] == us[i] && us[i..][1..] == us[i + 1..];
    forall t: seq<bit>
      ensures ReadStream(tables, us, se, last, (w + v) + t) == Together(zs + [z], ReadStream(tables, us[i + 1..], se, own', t))
    {
      Reassociate(w, v, t);
      var later := ReadStream(tables, us[i + 1..], se, own', t);
      if later.Blocks? {
        Reassociate(zs, [z], later.zs);
      }
    }
  }

  // What decode_mcu does to the state of the input, and what it delivers.  Once the data have run out
  // it leaves the MCU at zero.  Until then the blocks are those of the bits to come, continued by as
  // many zeros as it takes.
  ghost predicate McuRead(tables: seq<HuffTable>, us: seq<Unit>, se: nat, last: seq<int>, from: Source,
                          zs: seq<Block>, own: seq<int>, k: nat, to: Source)
    requires TablesFor(tables, us, se) && se <= 63 && Fits(us, se, |last|)
  {
    if from.warned then zs == seq(|us|, _ => ZeroBlock()) && own == last && to == from
    else
      && ReadStream(tables, us, se, last, from.rest + Zeros(k)) == Blocks(zs, own, to.rest)
      && to == from.(rest := to.rest, warned := k > 0) && (k > 0 ==> from.here && |to.rest| < k)
  }

  lemma McuIs(tables: seq<HuffTable>, us: seq<Unit>, se: nat, last: seq<int>, from: Source, w: seq<bit>, k: nat,
              zs: seq<Block>, own: seq<int>, to: Source)
    requires TablesFor(tables, us, se) && se <= 63 && Fits(us, se, |last|) && |own| == |last|
    requires !from.warned && Took(from, w, k, to) && StreamReads(tables, us, se, last, w, |us|, zs, own)
    ensures McuRead(tables, us, se, last, from, zs, own, k, to)
  {
    assert us[|us|..] == [] && zs + [] == zs;
    assert ReadStream(tables, us, se, last, w + to.rest) == Together(zs, ReadStream(tables, us[|us|..], se, own, to.rest));
  }

  // ---- More bits do not change what was read ----

  lemma AcMonotone(acTable: HuffTable, se: nat, z: Block, dc: int, lim: nat, s: seq<bit>, t: seq<bit>)
    requires (se > 0 ==> Readable(acTable)) && ReadAc(acTable, se, z, dc, lim, s).Complete?
    ensures var r := ReadAc(acTable, se, z, dc, lim, s);
      ReadAc(acTable, se, z, dc, lim, s + t) == Complete(r.z, r.lastDc, r.s + t)
  {
    var b := Band(acTable, se, lim, 1);
    assert !Runs(b, z, 1, s).Starved?;
    RunsMonotone(b, z, 1, s, t);
    assert Runs(b, z, 1, s + t) == WithMore(Runs(b, z, 1, s), t);
  }

  // A unit from the size of its DC difference on.
  lemma UnitAhead(dcTable: HuffTable, acTable: HuffTable, se: nat, coefLimit: nat, lastDc: int, s: seq<bit>,
                  n: nat, s1: seq<bit>, dc: int)
    requires Readable(dcTable) && (se > 0 ==> Readable(acTable)) && se <= 63
    requires Decode(dcTable, s).Got? && Decode(dcTable, s).sym == n <= |s1| && s[Decode(dcTable, s).used..] == s1
    requires dc == if coefLimit == 0 then lastDc else Difference(s1[..n]) + lastDc
    ensures ReadUnit(dcTable, acTable, se, coefLimit, ZeroBlock(), lastDc, s) ==
      ReadAc(acTable, se, AfterDc(coefLimit, dc), dc, LastKept(coefLimit), s1[n..])
  {
  }

  lemma UnitMonotone(dcTable: HuffTable, acTable: HuffTable, se: nat, coefLimit: nat, lastDc: int, s: seq<bit>, t: seq<bit>)
    requires Readable(dcTable) && (se > 0 ==> Readable(acTable)) && se <= 63
    requires ReadUnit(dcTable, acTable, se, coefLimit, ZeroBlock(), lastDc, s).Complete?
    ensures var r := ReadUnit(dcTable, acTable, se, coefLimit, ZeroBlock(), lastDc, s);
      ReadUnit(dcTable, acTable, se, coefLimit, ZeroBlock(), lastDc, s + t) == Complete(r.z, r.lastDc, r.s + t)
  {
    var d := Decode(dcTable, s);
    var s1, n := s[d.used..], d.sym;
    DecodeMonotone(dcTable, s, t, 1);
    CutBefore(s, t, d.used);
    CutBefore(s1, t, n);
    var dc := if coefLimit == 0 then lastDc else Difference(s1[..n]) + lastDc;
    UnitAhead(dcTable, acTable, se, coefLimit, lastDc, s, n, s1, dc);
    UnitAhead(dcTable, acTable, se, coefLimit, lastDc, s + t, n, s1 + t, dc);
    AcMonotone(acTable, se, AfterDc(coefLimit, dc), dc, LastKept(coefLimit), s1[n..], t);
  }

  lemma {:induction false} StreamMonotone(tables: seq<HuffTable>, us: seq<Unit>, se: nat, own: seq<int>, s: seq<bit>, t: seq<bit>)
    requires TablesFor(tables, us, se) && se <= 63 && Fits(us, se, |own|) && ReadStream(tables, us, se, own, s).Blocks?
    ensures var r := ReadStream(tables, us, se, own, s);
      ReadStream(tables, us, se, own, s + t) == Blocks(r.zs, r.own, r.s + t)
  {
    if us != [] {
      var u := us[0];
      UnitMonotone(tables[u.dcTab], tables[u.acTab], se, u.coefLimit, own[u.comp], s, t);
      var r := ReadUnit(tables[u.dcTab], tables[u.acTab], se, u.coefLimit, ZeroBlock(), own[u.comp], s);
      StreamMonotone(tables, us[1..], se, own[u.comp := r.lastDc], r.s, t);
    }
  }

  // Zeros are made up exactly when the data do not hold a whole MCU.
  lemma DataSuffice(tables: seq<HuffTable>, us: seq<Unit>, se: nat, last: seq<int>, from: Source,
                    zs: seq<Block>, own: seq<int>, k: nat, to: Source)
    requires TablesFor(tables, us, se) && se <= 63 && Fits(us, se, |last|)
    requires !from.warned && McuRead(tables, us, se, last, from, zs, own, k, to)
    ensures ReadStream(tables, us, se, last, from.rest) == if to.warned then Broken else Blocks(zs, own, to.rest)
  {
    if k == 0 {
      assert from.rest + Zeros(0) == from.rest;
    } else if ReadStream(tables, us, se, last, from.rest).Blocks? {
      StreamMonotone(tables, us, se, last, from.rest, Zeros(k));
      assert false;
    }
  }

  // ---- The tables ----

  // The symbols of a DC table are sizes.
  predicate SizesOnly(htbl: HuffTable)
    requires Readable(htbl)
  {
    forall p :: 0 <= p < NumCodes(htbl.bits) ==> htbl.huffval[p] <= 15
  }

  lemma {:induction false} SizeDecoded(htbl: HuffTable, s: seq<bit>, l: nat)
    requires Readable(htbl) && SizesOnly(htbl) && 1 <= l <= 17 && Above(htbl.bits, s, l)
    ensures SlowDecode(htbl, s, l).Got? ==> SlowDecode(htbl, s, l).sym <= 15
    decreases 17 - l
  {
    if l < 17 && |s| >= l {
      if BitsValue(s[..l]) <= MaxCode(htbl.bits, l) {
        PlaceOfCode(htbl.bits, s, l);
      } else {
        StaysAbove(htbl.bits, s, l);
        SizeDecoded(htbl, s, l + 1);
      }
    }
  }

  // The tables that start_pass has derived for a block.
  ghost predicate Derived(tables: seq<HuffTable>, dtbls: seq<DTable>, u: Unit, se: nat) {
    && u.dcTab < |tables| == |dtbls| && u.acTab < |tables|
    && Readable(tables[u.dcTab]) && SizesOnly(tables[u.dcTab]) && DecodesWith(tables[u.dcTab], dtbls[u.dcTab])
    && (se > 0 ==> Readable(tables[u.acTab]) && DecodesWith(tables[u.acTab], dtbls[u.acTab]))
  }

  ghost predicate AllDerived(tables: seq<HuffTable>, dtbls: seq<DTable>, us: seq<Unit>, se: nat) {
    forall i :: 0 <= i < |us| ==> Derived(tables, dtbls, us[i], se)
  }

  predicate Usable(tables: seq<HuffTable>, us: seq<Unit>, se: nat) {
    TablesFor(tables, us, se) && forall i :: 0 <= i < |us| ==> SizesOnly(tables[us[i].dcTab])
  }

  lemma DerivedKept(tables: seq<HuffTable>, dtbls: seq<DTable>, t: nat, tbl: DTable, us: seq<Unit>, se: nat)
    requires t < |tables| == |dtbls| && DecodesWith(tables[t], tbl) && AllDerived(tables, dtbls, us, se)
    ensures AllDerived(tables, dtbls[t := tbl], us, se)
  {
    forall i | 0 <= i < |us|
      ensures Derived(tables, dtbls[t := tbl], us[i], se)
    {
      assert Derived(tables, dtbls, us[i], se);
    }
  }

  method DeriveTable(tables: seq<HuffTable>, dtbls: seq<DTable>, t: nat, isDC: bool, ghost us: seq<Unit>, ghost se: nat)
    returns (ok: bool, dtbls': seq<DTable>)
    requires t < |tables| == |dtbls| && IsTable(tables[t]) && AllDerived(tables, dtbls, us, se)
    ensures ok <==> Readable(tables[t]) && (isDC ==> SizesOnly(tables[t]))
    ensures ok ==> |dtbls'| == |dtbls| && DecodesWith(tables[t], dtbls'[t]) && AllDerived(tables, dtbls', us, se)
    ensures forall i :: 0 <= i < |dtbls| && i != t ==> i < |dtbls'| && dtbls'[i] == dtbls[i]
  {
    var tbl;
    dtbls' := dtbls;
    ok, tbl := MakeDDerivedTbl(tables[t], isDC);
    if ok {
      DerivedKept(tables, dtbls, t, tbl, us, se);
      dtbls' := dtbls[t := tbl];
    }
  }

  // The tables that start_pass derives for the blocks of an MCU.  It fails on a table that is not legal.
  method DeriveTables(tables: seq<HuffTable>, us: seq<Unit>, se: nat) returns (ok: bool, dtbls: seq<DTable>)
    requires forall i :: 0 <= i < |us| ==> us[i].dcTab < |tables| && us[i].acTab < |tables|
    requires forall t :: 0 <= t < |tables| ==> IsTable(tables[t])
    ensures ok <==> Usable(tables, us, se)
    ensures ok ==> |dtbls| == |tables| && AllDerived(tables, dtbls, us, se)
  {
    dtbls := seq(|tables|, _ => DTable([], [], [], []));
    for i := 0 to |us|
      invariant |dtbls| == |tables| && Usable(tables, us[..i], se) && AllDerived(tables, dtbls, us[..i], se)
    {
      var u := us[i];
      Prefixes(us, i);
      ok, dtbls := DeriveTable(tables, dtbls, u.dcTab, true, us[..i], se);
      if ok && se > 0 {
        ok, dtbls := DeriveTable(tables, dtbls, u.acTab, false, us[..i], se);
      }
      if !ok {
        assert us[i] == u;
        return;
      }
      assert Derived(tables, dtbls, u, se);
    }
    EndPrefixes(us);
    ok := true;
  }

  class Decoder {
    const tables: seq<HuffTable>
    const dtbls: seq<DTable>
    const se: nat                  // lim_Se
    const lastDcVal: array<int>
    const bitstate: Reader
    const restartInterval: nat
    var restartsToGo: nat          // MCUs left in this restart interval
    var nextRestartNum: nat        // kept by the marker reader

    ghost predicate Valid()
      reads bitstate
    {
      se <= 63 && |dtbls| == |tables| && bitstate.Valid()
    }

    ghost function Now(): Standing<seq<int>>
      reads this`restartsToGo, this`nextRestartNum, lastDcVal, bitstate
    {
      Standing(bitstate.State(), lastDcVal[..], restartsToGo, nextRestartNum)
    }

    constructor (tables: seq<HuffTable>, dtbls: seq<DTable>, se: nat, components: nat, restartInterval: nat, ghost input: seq<byte>)
      requires se <= 63 && |dtbls| == |tables|
      ensures Valid() && fresh(lastDcVal) && fresh(bitstate)
      ensures this.tables == tables && this.dtbls == dtbls && this.se == se && this.restartInterval == restartInterval
      ensures Now() == Standing(Fresh(input), NoPredictions(components), restartInterval, 0)
    {
      this.tables, this.dtbls, this.se := tables, dtbls, se;
      this.restartInterval, restartsToGo, nextRestartNum := restartInterval, restartInterval, 0;
      lastDcVal := new int[components](_ => 0);
      bitstate := new Reader([], input);
      new;
      assert lastDcVal[..] == NoPredictions(components);
      assert [] + input == input;
    }

    // The DC difference, or just its bits.
    method ReadDifference(state: Reader, dcTable: HuffTable, dtbl: DTable, keep: bool)
      returns (ok: bool, diff: int, ghost w: seq<bit>, ghost v: seq<bit>, ghost k: nat)
      requires state.Valid() && Readable(dcTable) && SizesOnly(dcTable) && DecodesWith(dcTable, dtbl)
      modifies state
      ensures state.Valid()
      ensures !ok ==> !old(state.Here())
      ensures ok ==> Took(old(state.State()), w + v, k, state.State()) && DcTaken(dcTable, w, v)
      ensures ok && keep ==> diff == Difference(v)
    {
      ghost var from := state.State();
      ok, diff, v := false, 0, [];
      var s;
      s, w, k := state.HuffDecode(dcTable, dtbl);
      if s < 0 {
        return;
      }
      SizeDecoded(dcTable, w, 1);
      ghost var mid := state.State();
      ghost var j;
      ok, diff, v, j := TakeValue(state, s, keep);
      if ok {
        TookMore(from, w, k, mid, v, j, state.State());
      }
      k := k + j;
    }

    // The coefficients that matter, as far as the first loop of decode_mcu goes.
    method KeepAc(state: Reader, acTable: HuffTable, tbl: DTable, coefLimit: nat, block: array<int>)
      returns (ok: bool, ended: bool, k: nat, r: nat, ghost w: seq<bit>, ghost n: nat)
      requires se <= 63 && state.Valid() && (se > 0 ==> Readable(acTable) && DecodesWith(acTable, tbl))
      requires block.Length == 64 && 0 < coefLimit <= se + 1
      modifies state, block
      ensures state.Valid()
      ensures !ok ==> !old(state.Here())
      ensures ok ==> ended || k >= coefLimit
      ensures ok ==> Reading(Band(acTable, se, coefLimit - 1, 1), old(state.State()), old(block[..]), 1, w, n, state.State(),
                             ended, block[..], k, r)
    {
      ghost var b, z, from := Band(acTable, se, coefLimit - 1, 1), block[..], state.State();
      ok, ended, k, r, w, n := true, false, 1, 0, [], 0;
      ReadingStarts(b, from, z, 1);
      while ok && !ended && k < coefLimit
        invariant k >= 1 && state.Valid()
        invariant if ok then Reading(b, from, z, 1, w, n, state.State(), ended, block[..], k, r) else !from.here
        decreases ok && !ended, se + 1 - k
      {
        ok, ended, k, r, w, n := KeepSymbol(state, acTable, tbl, coefLimit, block, k, from, z, r, w, n);
      }
    }

    method KeepSymbol(state: Reader, acTable: HuffTable, tbl: DTable, coefLimit: nat, block: array<int>, k: nat,
                      ghost from: Source, ghost z: Block, ghost r0: nat, ghost w: seq<bit>, ghost n: nat)
      returns (ok: bool, ended: bool, k': nat, r: nat, ghost w': seq<bit>, ghost n': nat)
      requires state.Valid() && Readable(acTable) && DecodesWith(acTable, tbl) && block.Length == 64
      requires 1 <= k < coefLimit <= se + 1 <= 64
      requires Reading(Band(acTable, se, coefLimit - 1, 1), from, z, 1, w, n, state.State(), false, block[..], k, r0)
      modifies state, block
      ensures state.Valid() && k' >= k && (ok && !ended ==> k' > k)
      ensures !ok ==> !from.here
      ensures ok ==> Reading(Band(acTable, se, coefLimit - 1, 1), from, z, 1, w', n', state.State(), ended, block[..], k', r)
    {
      ghost var b, before, mid := Band(acTable, se, coefLimit - 1, 1), block[..], state.State();
      var s, v;
      ghost var x, j;
      ok, r, s, v, x, j := ReadPair(state, acTable, tbl, true);
      ended, k', w', n' := false, k, w + x, n + j;
      if !ok {
        return;
      }
      if s != 0 {
        block[Clamp(k + r)] := v;
        assert block[..] == Put(before, k, r, coefLimit - 1, v * 1);
        k' := k + r + 1;
      } else if r != 15 {
        ended := true;
      } else {
        k' := k + 16;
      }
      ReadingPair(b, from, z, 1, w, n, mid, before, k, r0, x, j, state.State(), r, s, ended, block[..], k');
    }

    // The second loop: the values are just discarded.
    method DropAc(state: Reader, acTable: HuffTable, tbl: DTable, ghost lim: nat, ghost z: Block, first: nat)
      returns (ok: bool, ended: bool, k: nat, r: nat, ghost w: seq<bit>, ghost n: nat)
      requires state.Valid() && (first <= se ==> Readable(acTable) && DecodesWith(acTable, tbl)) && lim < first
      modifies state
      ensures state.Valid()
      ensures !ok ==> !old(state.Here())
      ensures ok ==> ended || k > se
      ensures ok ==> Reading(Band(acTable, se, lim, 1), old(state.State()), z, first, w, n, state.State(), ended, z, k, r)
    {
      ghost var b, from := Band(acTable, se, lim, 1), state.State();
      ok, ended, k, r, w, n := true, false, first, 0, [], 0;
      ReadingStarts(b, from, z, first);
      while ok && !ended && k <= se
        invariant k >= first && state.Valid()
        invariant if ok then Reading(b, from, z, first, w, n, state.State(), ended, z, k, r) else !from.here
        decreases ok && !ended, se + 1 - k
      {
        ok, ended, k, r, w, n := DropSymbol(state, acTable, tbl, lim, z, first, k, from, r, w, n);
      }
    }

    method DropSymbol(state: Reader, acTable: HuffTable, tbl: DTable, ghost lim: nat, ghost z: Block, ghost first: nat, k: nat,
                      ghost from: Source, ghost r0: nat, ghost w: seq<bit>, ghost n: nat)
      returns (ok: bool, ended: bool, k': nat, r: nat, ghost w': seq<bit>, ghost n': nat)
      requires state.Valid() && Readable(acTable) && DecodesWith(acTable, tbl) && lim < first <= k <= se
      requires Reading(Band(acTable, se, lim, 1), from, z, first, w, n, state.State(), false, z, k, r0)
      modifies state
      ensures state.Valid() && k' >= k && (ok && !ended ==> k' > k)
      ensures !ok ==> !from.here
      ensures ok ==> Reading(Band(acTable, se, lim, 1), from, z, first, w', n', state.State(), ended, z, k', r)
    {
      ghost var b, mid := Band(acTable, se, lim, 1), state.State();
      var s, v;
      ghost var x, j;
      ok, r, s, v, x, j := ReadPair(state, acTable, tbl, false);
      ended, k', w', n' := false, k, w + x, n + j;
      if !ok {
        return;
      }
      if s != 0 {
        k' := k + r + 1;
      } else if r != 15 {
        ended := true;
      } else {
        k' := k + 16;
      }
      ReadingPair(b, from, z, first, w, n, mid, z, k, r0, x, j, state.State(), r, s, ended, z, k');
    }

    method DecodeAc(state: Reader, acTable: HuffTable, tbl: DTable, coefLimit: nat, block: array<int>, ghost dc: int)
      returns (ok: bool, ghost w: seq<bit>, ghost n: nat)
      requires se <= 63 && state.Valid() && (se > 0 ==> Readable(acTable) && DecodesWith(acTable, tbl))
      requires coefLimit <= se + 1 && block.Length == 64
      modifies state, block
      ensures state.Valid()
      ensures !ok ==> !old(state.Here())
      ensures ok ==> Took(old(state.State()), w, n, state.State())
      ensures ok ==> AcReads(acTable, se, old(block[..]), dc, LastKept(coefLimit), w, block[..])
    {
      ghost var z := block[..];
      var ended, k, r;
      if coefLimit != 0 {
        ok, ended, k, r, w, n := KeepAndDrop(state, acTable, tbl, coefLimit, block);
      } else {
        ok, ended, k, r, w, n := DropAc(state, acTable, tbl, 0, z, 1);
      }
      if ok {
        AcIs(acTable, se, z, dc, LastKept(coefLimit), w, ended, block[..], k, r);
      }
    }

    method KeepAndDrop(state: Reader, acTable: HuffTable, tbl: DTable, coefLimit: nat, block: array<int>)
      returns (ok: bool, ended: bool, k: nat, r: nat, ghost w: seq<bit>, ghost n: nat)
      requires se <= 63 && state.Valid() && (se > 0 ==> Readable(acTable) && DecodesWith(acTable, tbl))
      requires block.Length == 64 && 0 < coefLimit <= se + 1
      modifies state, block
      ensures state.Valid()
      ensures !ok ==> !old(state.Here())
      ensures ok ==> Took(old(state.State()), w, n, state.State()) && (ended || k > se)
      ensures ok ==> Reads(Band(acTable, se, coefLimit - 1, 1), old(block[..]), 1, w, ended, block[..], k, r)
    {
      ghost var z, from, lim := block[..], state.State(), coefLimit - 1;
      ok, ended, k, r, w, n := KeepAc(state, acTable, tbl, coefLimit, block);
      ghost var z' := block[..];
      if ok && !ended {
        assert ReadsOn(Band(acTable, se, lim, 1), z, 1, w, z', k);
        ok, ended, k, r, w, n := DropRest(state, acTable, tbl, lim, z, z', k, from, w, n);
      }
    }

    // Going on with the second loop after the first.
    method DropRest(state: Reader, acTable: HuffTable, tbl: DTable, ghost lim: nat, ghost z: Block, ghost z': Block, first: nat,
                    ghost from: Source, ghost w: seq<bit>, ghost n: nat)
      returns (ok: bool, ended: bool, k: nat, r: nat, ghost w': seq<bit>, ghost n': nat)
      requires state.Valid() && (se > 0 ==> Readable(acTable) && DecodesWith(acTable, tbl)) && 1 <= first && lim < first
      requires Took(from, w, n, state.State()) && ReadsOn(Band(acTable, se, lim, 1), z, 1, w, z', first)
      modifies state
      ensures state.Valid()
      ensures !ok ==> !from.here
      ensures ok ==> Took(from, w', n', state.State()) && (ended || k > se)
      ensures ok ==> Reads(Band(acTable, se, lim, 1), z, 1, w', ended, z', k, r)
    {
      ghost var mid := state.State();
      ghost var x, j;
      ok, ended, k, r, x, j := DropAc(state, acTable, tbl, lim, z', first);
      if ok {
        TookMore(from, w, n, mid, x, j, state.State());
        ReadsMore(Band(acTable, se, lim, 1), z, 1, w, z', first, x, ended, z', k, r);
      }
      w', n' := w + x, n + j;
    }

    // The DC coefficient, unless the whole block is to be dropped.
    method DecodeDc(state: Reader, u: Unit, block: array<int>, lastDc: int)
      returns (ok: bool, dc: int, ghost w: seq<bit>, ghost v: seq<bit>, ghost n: nat)
      requires state.Valid() && Derived(tables, dtbls, u, se) && block.Length == 64 && block[..] == ZeroBlock()
      modifies state, block
      ensures state.Valid()
      ensures !ok ==> !old(state.Here())
      ensures ok ==> Took(old(state.State()), w + v, n, state.State()) && DcTaken(tables[u.dcTab], w, v)
      ensures ok ==> dc == (if u.coefLimit == 0 then lastDc else Difference(v) + lastDc) && block[..] == AfterDc(u.coefLimit, dc)
    {
      var diff;
      dc := lastDc;
      ok, diff, w, v, n := ReadDifference(state, tables[u.dcTab], dtbls[u.dcTab], u.coefLimit != 0);
      if ok && u.coefLimit != 0 {
        dc := diff + lastDc;
        block[0] := dc;
        assert block[..] == ZeroBlock()[0 := dc];
      }
    }

    // One block of decode_mcu.  The output area is cleared beforehand.
    method DecodeUnit(state: Reader, u: Unit, block: array<int>, lastDc: int)
      returns (ok: bool, dc: int, ghost w: seq<bit>, ghost n: nat)
      requires se <= 63 && state.Valid() && Derived(tables, dtbls, u, se) && u.coefLimit <= se + 1
      requires block.Length == 64 && block[..] == ZeroBlock()
      modifies state, block
      ensures state.Valid()
      ensures !ok ==> !old(state.Here())
      ensures ok ==> Took(old(state.State()), w, n, state.State())
      ensures ok ==> UnitReads(tables[u.dcTab], tables[u.acTab], se, u.coefLimit, lastDc, w, block[..], dc)
    {
      ghost var v;
      ok, dc, w, v, n := DecodeDc(state, u, block, lastDc);
      if ok {
        ok, w, n := DecodeRest(state, u, block, lastDc, dc, old(state.State()), w, v, n);
      }
    }

    method DecodeRest(state: Reader, u: Unit, block: array<int>, ghost lastDc: int, ghost dc: int,
                      ghost from: Source, ghost dcCode: seq<bit>, ghost dcBits: seq<bit>, ghost n: nat)
      returns (ok: bool, ghost w: seq<bit>, ghost n': nat)
      requires se <= 63 && state.Valid() && Derived(tables, dtbls, u, se) && u.coefLimit <= se + 1 && block.Length == 64
      requires Took(from, dcCode + dcBits, n, state.State()) && DcTaken(tables[u.dcTab], dcCode, dcBits)
      requires dc == (if u.coefLimit == 0 then lastDc else Difference(dcBits) + lastDc) && block[..] == AfterDc(u.coefLimit, dc)
      modifies state, block
      ensures state.Valid()
      ensures !ok ==> !from.here
      ensures ok ==> Took(from, w, n', state.State())
      ensures ok ==> UnitReads(tables[u.dcTab], tables[u.acTab], se, u.coefLimit, lastDc, w, block[..], dc)
    {
      ghost var mid := state.State();
      ghost var x, j;
      ok, x, j := DecodeAc(state, tables[u.acTab], dtbls[u.acTab], u.coefLimit, block, dc);
      w, n' := (dcCode + dcBits) + x, n + j;
      if ok {
        TookMore(from, dcCode + dcBits, n, mid, x, j, state.State());
        UnitIs(tables[u.dcTab], tables[u.acTab], se, u.coefLimit, lastDc, dcCode, dcBits, dc, x, block[..], w);
      }
    }

    method DecodeCleared(state: Reader, u: Unit, lastDc: int)
      returns (ok: bool, z: Block, dc: int, ghost w: seq<bit>, ghost n: nat)
      requires se <= 63 && state.Valid() && Derived(tables, dtbls, u, se) && u.coefLimit <= se + 1
      modifies state
      ensures state.Valid()
      ensures !ok ==> !old(state.Here())
      ensures ok ==> Took(old(state.State()), w, n, state.State())
      ensures ok ==> UnitReads(tables[u.dcTab], tables[u.acTab], se, u.coefLimit, lastDc, w, z, dc)
    {
      var block := new int[64](_ => 0);
      assert block[..] == ZeroBlock();
      ok, dc, w, n := DecodeUnit(state, u, block, lastDc);
      z := block[..];
    }

    // The blocks of an MCU, on copies of the saved state.
    method DecodeUnits(state: Reader, us: seq<Unit>, lastDc: seq<int>)
      returns (ok: bool, zs: seq<Block>, last: seq<int>, ghost w: seq<bit>, ghost n: nat)
      requires se <= 63 && state.Valid() && AllDerived(tables, dtbls, us, se) && Fits(us, se, |lastDc|)
      modifies state
      ensures state.Valid()
      ensures !ok ==> !old(state.Here())
      ensures ok ==> Took(old(state.State()), w, n, state.State()) && |last| == |lastDc|
      ensures ok ==> StreamReads(tables, us, se, lastDc, w, |us|, zs, last)
    {
      ghost var from := state.State();
      ok, zs, last, w, n := true, [], lastDc, [], 0;
      StreamReadsNothing(tables, us, se, lastDc);
      TookNothing(from);
      for blkn := 0 to |us|
        invariant state.Valid() && |last| == |lastDc|
        invariant Took(from, w, n, state.State()) && StreamReads(tables, us, se, lastDc, w, blkn, zs, last)
      {
        ok, zs, last, w, n := NextUnit(state, us, lastDc, blkn, zs, last, from, w, n);
        if !ok {
          return;
        }
      }
    }

    method NextUnit(state: Reader, us: seq<Unit>, ghost lastDc: seq<int>, blkn: nat, done: seq<Block>, last: seq<int>,
                    ghost from: Source, ghost w: seq<bit>, ghost n: nat)
      returns (ok: bool, zs: seq<Block>, last': seq<int>, ghost w': seq<bit>, ghost n': nat)
      requires se <= 63 && state.Valid() && AllDerived(tables, dtbls, us, se) && Fits(us, se, |lastDc|)
      requires blkn < |us| && |last| == |lastDc|
      requires Took(from, w, n, state.State()) && StreamReads(tables, us, se, lastDc, w, blkn, done, last)
      modifies state
      ensures state.Valid()
      ensures !ok ==> !from.here
      ensures ok ==> Took(from, w', n', state.State()) && |last'| == |lastDc|
      ensures ok ==> StreamReads(tables, us, se, lastDc, w', blkn + 1, zs, last')
    {
      var u := us[blkn];
      ghost var mid := state.State();
      ghost var x, j;
      var z, dc;
      zs, last', w', n' := done, last, w, n;
      ok, z, dc, x, j := DecodeCleared(state, u, last[u.comp]);
      if ok {
        TookMore(from, w, n, mid, x, j, state.State());
        StreamReadsUnit(tables, us, se, lastDc, w, blkn, done, last, x, z, dc);
        zs, last', w', n' := done + [z], last[u.comp := dc], w + x, n + j;
      }
    }

    method SaveLast(last: seq<int>)
      requires |last| == lastDcVal.Length
      modifies lastDcVal
      ensures lastDcVal[..] == last
    {
      forall c | 0 <= c < lastDcVal.Length {
        lastDcVal[c] := last[c];
      }
    }

    // process_restart.
    method ProcessRestart() returns (ok: bool)
      requires Valid()
      modifies this`restartsToGo, this`nextRestartNum, bitstate, lastDcVal
      ensures Valid()
      ensures ok ==> Restarted(old(bitstate.State()), old(nextRestartNum), bitstate.State())
      ensures ok ==> lastDcVal[..] == NoPredictions(lastDcVal.Length)
      ensures ok ==> restartsToGo == restartInterval && nextRestartNum == NextNum(old(nextRestartNum))
      ensures !ok ==> Seeking(old(bitstate.State()), nextRestartNum, bitstate.State())
      ensures !ok ==> restartsToGo == old(restartsToGo) && nextRestartNum == old(nextRestartNum) && unchanged(lastDcVal)
    {
      ghost var from, num := bitstate.State(), nextRestartNum;
      ok := RestartInput(bitstate, nextRestartNum);
      if ok {
        ghost var now := bitstate.State();
        assert Restarted(from, num, now);
        nextRestartNum := NextNum(nextRestartNum);
        SaveLast(NoPredictions(lastDcVal.Length));
        restartsToGo := restartInterval;
      }
    }

    // The part of decode_mcu after any restart.  Only a completed MCU changes the saved state; it can fail
    // only for lack of input.
    method DecodeBlocks(us: seq<Unit>) returns (ok: bool, zs: seq<Block>, ghost k: nat)
      requires Valid() && AllDerived(tables, dtbls, us, se) && Fits(us, se, lastDcVal.Length)
      modifies bitstate, lastDcVal
      ensures Valid()
      ensures !ok ==> !bitstate.Here() && unchanged(bitstate) && lastDcVal[..] == old(lastDcVal[..])
      ensures ok ==> McuRead(tables, us, se, old(lastDcVal[..]), old(bitstate.State()), zs, lastDcVal[..], k, bitstate.State())
    {
      ok, zs, k := true, seq(|us|, _ => ZeroBlock()), 0;
      if !bitstate.insufficientData {
        ghost var from, was := bitstate.State(), lastDcVal[..];
        ghost var w;
        var state := new Reader.Copy(bitstate);
        var last;
        ok, zs, last, w, k := DecodeUnits(state, us, lastDcVal[..]);
        if ok {
          bitstate.Save(state);
          SaveLast(last);
          McuIs(tables, us, se, was, from, w, k, zs, last, bitstate.State());
        }
      }
    }

    // The beginning of decode_mcu.
    method Proceed() returns (ok: bool)
      requires Valid()
      modifies this`restartsToGo, this`nextRestartNum, bitstate, lastDcVal
      ensures Valid()
      ensures ok ==> Proceeds(restartInterval, NoPredictions(lastDcVal.Length), old(Now()), Now())
      ensures !ok ==> Stalled(restartInterval, old(Now()), Now())
    {
      ok := true;
      if restartInterval > 0 && restartsToGo == 0 {
        ghost var from := Now();
        ok := ProcessRestart();
        assert !ok ==> lastDcVal[..] == from.own;
      }
    }

    // decode_mcu.  It fails only for lack of input: then a restart that is due is on its way or has taken
    // place.
    method DecodeMcu(us: seq<Unit>) returns (ok: bool, zs: seq<Block>, ghost k: nat, ghost mid: Standing<seq<int>>)
      requires Valid() && AllDerived(tables, dtbls, us, se) && Fits(us, se, lastDcVal.Length)
      modifies this`restartsToGo, this`nextRestartNum, bitstate, lastDcVal
      ensures Valid()
      ensures ok ==> Proceeds(restartInterval, NoPredictions(lastDcVal.Length), old(Now()), mid) && |mid.own| == lastDcVal.Length
      ensures ok ==> McuRead(tables, us, se, mid.own, mid.source, zs, Now().own, k, Now().source)
      ensures ok ==> Now() == Standing(Now().source, Now().own, Countdown(mid.togo), mid.num)
      ensures ok || Stalled(restartInterval, old(Now()), Now()) ||
        (Proceeds(restartInterval, NoPredictions(lastDcVal.Length), old(Now()), Now()) && !bitstate.Here())
    {
      zs, k := [], 0;
      ok := Proceed();
      mid := Now();
      if ok {
        ok, zs, k := DecodeBlocks(us);
        if ok {
          restartsToGo := Countdown(restartsToGo);
        } else {
          assert Now() == mid;
        }
      }
    }
  }
}
