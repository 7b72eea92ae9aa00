// Sequential Huffman coding of blocks (F.1.2 and F.2.2 of ITU-T T.81): what encode_one_block emits and
// what decode_mcu makes of any bits, as functions.
module SequentialBlock {
  import opened Numerals
  import opened CanonicalCode
  import opened HuffmanDecode
  import opened TokenStream
  import opened ACScan
  import opened RunLength

  // The last coefficient of a block, lim_Se, is se throughout.

  // A block of an MCU: its component, its tables, and how many coefficients the decoder is to keep.
  datatype Unit = Unit(comp: nat, dcTab: nat, acTab: nat, coefLimit: nat)

  // ---- The encoder ----

  function DcTokens(tab: nat, diff: int): seq<Token> {
    [Symbol(tab, NumBits(diff)), Raw(ValueBits(diff))]
  }

  function AcTokens(tab: nat, z: Block, se: nat): seq<Token>
    requires se <= 63
  {
    var coded := CodeRuns(tab, z, 1, se, 0);
    coded.tokens + (if coded.pending then [Symbol(tab, 0)] else [])
  }

  function UnitTokens(u: Unit, z: Block, se: nat, lastDc: int): seq<Token>
    requires se <= 63
  {
    DcTokens(u.dcTab, z[0] - lastDc) + AcTokens(u.acTab, z, se)
  }

  // Values that do not make the encoder fail.
  predicate Encodable(z: Block, se: nat, lastDc: int)
    requires se <= 63
  {
    NumBits(z[0] - lastDc) <= MAX_COEF_BITS + 1 && InRange(z, 1, se)
  }

  // The coder fails on a DC difference of more than 11 bits, and on an AC coefficient of more than 10.
  lemma RangeIs(z: Block, se: nat, lastDc: int)
    requires se <= 63
    ensures Encodable(z, se, lastDc) <==>
      -2048 < z[0] - lastDc < 2048 && forall n :: 1 <= n <= se ==> -1024 < z[n] < 1024
  {
    var k, j := 11, 10;
    assert Pow2(k) == 2048 && Pow2(j) == 1024 by {
      Pow2Small();
    }
    NumBitsIs(z[0] - lastDc, k);
    forall n | 1 <= n <= se
      ensures NumBits(z[n]) <= MAX_COEF_BITS <==> -1024 < z[n] < 1024
    {
      NumBitsIs(z[n], j);
    }
  }

  // ---- The decoder ----

  // The last AC position that is kept, 0 if there is none.
  function LastKept(coefLimit: nat): nat {
    if coefLimit == 0 then 0 else coefLimit - 1
  }

  datatype UnitRead = Complete(z: Block, lastDc: int, s: seq<bit>) | Incomplete

  function ReadUnit(dcTable: HuffTable, acTable: HuffTable, se: nat, coefLimit: nat, z: Block, lastDc: int, s: seq<bit>): UnitRead
    requires Readable(dcTable) && (se > 0 ==> Readable(acTable)) && se <= 63
  {
    if Decode(dcTable, s).Short? then Incomplete
    else
      var n, s1 := Decode(dcTable, s).sym, s[Decode(dcTable, s).used..];
      if |s1| < n then Incomplete
      else if coefLimit == 0 then ReadAc(acTable, se, z, lastDc, LastKept(coefLimit), s1[n..])
      else
        WithDc(acTable, se, z, Difference(s1[..n]) + lastDc, LastKept(coefLimit), s1[n..])
  }

  function Difference(bits: seq<bit>): int {
    if bits == [] then 0 else Extend(BitsValue(bits), |bits|)
  }

  function WithDc(acTable: HuffTable, se: nat, z: Block, dc: int, lim: nat, s: seq<bit>): UnitRead
    requires se > 0 ==> Readable(acTable)
  {
    ReadAc(acTable, se, z[0 := dc], dc, lim, s)
  }

  function ReadAc(acTable: HuffTable, se: nat, z: Block, lastDc: int, lim: nat, s: seq<bit>): UnitRead
    requires se > 0 ==> Readable(acTable)
  {
    match ReadRuns(acTable, z, 1, se, lim, 1, s)
    case Starved(_) => Incomplete
    case AtEnd(z', s') => Complete(z', lastDc, s')
    case AtEob(z', _, s') => Complete(z', lastDc, s')
  }

  // ---- The round trip of one block ----

  function ZeroBlock(): Block {
    seq(64, _ => 0)
  }

  function AfterDc(coefLimit: nat, dc: int): Block {
    if coefLimit == 0 then ZeroBlock() else ZeroBlock()[0 := dc]
  }

  // The prediction is not kept up for a component whose coefficients are all dropped.
  function LastDc(coefLimit: nat, lastDc: int, dc: int): int {
    if coefLimit == 0 then lastDc else dc
  }

  // What the decoder keeps of a block: all coefficients below the limit, and nothing beyond the band.  A run
  // that crosses the limit may bring in one coefficient from beyond it.
  predicate Kept(z: Block, z': Block, se: nat, coefLimit: nat) {
    && (forall m, n :: coefLimit <= m < n < 64 ==> z'[m] == 0 || z'[n] == 0)
    && (coefLimit <= 1 ==> forall n :: coefLimit <= n < 64 ==> z'[n] == 0)
    && (forall n :: 0 <= n < 64 && n < coefLimit ==> z'[n] == z[n])
    && (forall n :: 0 <= n < 64 ==> z'[n] == z[n] || z'[n] == 0)
    && (forall n :: 0 <= n < 64 && n > se ==> z'[n] == 0)
  }

  // What a block needs: without AC coefficients, no AC table.
  ghost predicate CodesFor(codes: seq<Code>, u: Unit, se: nat) {
    u.dcTab < |codes| && u.acTab < |codes| && Sound(codes[u.dcTab]) && (se > 0 ==> Sound(codes[u.acTab]))
  }

  lemma ReadDc(codes: seq<Code>, tab: nat, diff: int, later: seq<Token>, rest: seq<bit>)
    requires tab < |codes| && Sound(codes[tab]) && Emittable(codes, DcTokens(tab, diff) + later)
    ensures Emittable(codes, later) && Readable(codes[tab].htbl)
    ensures var s := Flatten(codes, DcTokens(tab, diff) + later) + rest;
      var d := Decode(codes[tab].htbl, s);
      && d.Got? && d.sym == NumBits(diff) && s[d.used..] == ValueBits(diff) + (Flatten(codes, later) + rest)
  {
    TwoTokens(codes, Symbol(tab, NumBits(diff)), ValueBits(diff), later, rest);
    SymbolReadBack(codes, Symbol(tab, NumBits(diff)), ValueBits(diff) + (Flatten(codes, later) + rest));
  }

  lemma AcDecodes(codes: seq<Code>, tab: nat, se: nat, z: Block, z0: Block, lastDc: int, lim: nat, rest: seq<bit>) returns (z': Block)
    requires se <= 63 && tab < |codes| && (se > 0 ==> Sound(codes[tab]))
    requires Emittable(codes, AcTokens(tab, z, se)) && InRange(z, 1, se)
    ensures FilledIn(z0, z', z, z, 1, se, lim) && BeyondKept(z0, z', 1, lim)
    ensures ReadAc(codes[tab].htbl, se, z0, lastDc, lim, Flatten(codes, AcTokens(tab, z, se)) + rest) == Complete(z', lastDc, rest)
  {
    if se == 0 {
      z' := z0;
      assert Flatten(codes, AcTokens(tab, z, se)) + rest == rest;
      return;
    }
    var coded := CodeRuns(tab, z, 1, se, 0);
    var eob := if coded.pending then [Symbol(tab, 0)] else [];
    EmittableParts(codes, coded.tokens, eob);
    var tail := Flatten(codes, eob) + rest;
    Reassociate(Flatten(codes, coded.tokens), Flatten(codes, eob), rest);
    var was := ReadRuns(codes[tab].htbl, z0, 1, se, lim, 1, Flatten(codes, coded.tokens) + tail);
    ReadBeyond(codes[tab].htbl, z0, 1, se, lim, 1, Flatten(codes, coded.tokens) + tail);
    var i;
    i, z' := RunsDecode(codes, tab, z, z, z0, 1, 1, se, lim, 1, 0, coded, tail, was);
    if coded.pending {
      assert eob == [Symbol(tab, 0)] + [];
      OneToken(codes, Symbol(tab, 0), [], rest);
      ReadSymbol(codes, tab, 0, z', i, se, lim, 1, rest);
      assert Flatten(codes, []) + rest == rest;
    } else {
      assert tail == rest;
    }
  }

  // Every block comes back, as far as the decoder was asked to keep it, with the bits after it untouched.
  // Where it keeps nothing, its prediction need not be the encoder's.
  lemma UnitRoundTrip(codes: seq<Code>, u: Unit, se: nat, z: Block, lastDc: int, ownDc: int, rest: seq<bit>) returns (z': Block)
    requires se <= 63 && CodesFor(codes, u, se)
    requires Emittable(codes, UnitTokens(u, z, se, lastDc)) && Encodable(z, se, lastDc) && u.coefLimit <= se + 1
    requires u.coefLimit > 0 ==> ownDc == lastDc
    ensures Kept(z, z', se, u.coefLimit)
    ensures ReadUnit(codes[u.dcTab].htbl, codes[u.acTab].htbl, se, u.coefLimit, ZeroBlock(), ownDc,
                     Flatten(codes, UnitTokens(u, z, se, lastDc)) + rest) ==
      Complete(z', LastDc(u.coefLimit, ownDc, z[0]), rest)
  {
    var diff, ac := z[0] - lastDc, AcTokens(u.acTab, z, se);
    ReadDc(codes, u.dcTab, diff, ac, rest);
    var later := Flatten(codes, ac) + rest;
    z' := AcDecodes(codes, u.acTab, se, z, AfterDc(u.coefLimit, z[0]), LastDc(u.coefLimit, ownDc, z[0]), LastKept(u.coefLimit), rest);
    DifferenceInverse(diff);
    DcDecodes(codes[u.dcTab].htbl, codes[u.acTab].htbl, se, u.coefLimit, ownDc,
              Flatten(codes, UnitTokens(u, z, se, lastDc)) + rest, ValueBits(diff), z[0], later);
    KeptIs(z, z', se, u.coefLimit);
  }

  lemma DcDecodes(dcTable: HuffTable, acTable: HuffTable, se: nat, coefLimit: nat, lastDc: int, s: seq<bit>,
                  bits: seq<bit>, dc: int, later: seq<bit>)
    requires Readable(dcTable) && (se > 0 ==> Readable(acTable)) && se <= 63 && (coefLimit > 0 ==> dc == Difference(bits) + lastDc)
    requires Decode(dcTable, s).Got? && Decode(dcTable, s).sym == |bits|
    requires s[Decode(dcTable, s).used..] == bits + later
    ensures ReadUnit(dcTable, acTable, se, coefLimit, ZeroBlock(), lastDc, s) ==
      ReadAc(acTable, se, AfterDc(coefLimit, dc), LastDc(coefLimit, lastDc, dc), LastKept(coefLimit), later)
  {
    assert (bits + later)[..|bits|] == bits && (bits + later)[|bits|..] == later;
  }

  lemma DifferenceInverse(diff: int)
    ensures Difference(ValueBits(diff)) == diff
  {
    if diff != 0 {
      ExtendInverse(diff);
    }
  }

  lemma KeptIs(z: Block, z': Block, se: nat, coefLimit: nat)
    requires se <= 63 && coefLimit <= se + 1 && FilledIn(AfterDc(coefLimit, z[0]), z', z, z, 1, se, LastKept(coefLimit))
    requires BeyondKept(AfterDc(coefLimit, z[0]), z', 1, LastKept(coefLimit))
    ensures Kept(z, z', se, coefLimit)
  {
  }

  // ---- Runs of blocks ----

  // Every unit names a component; whether it is needed at all depends on the component only.
  predicate Layout(us: seq<Unit>, se: nat, needed: seq<bool>) {
    forall i :: 0 <= i < |us| ==>
      us[i].comp < |needed| && us[i].coefLimit <= se + 1 && (us[i].coefLimit > 0 <==> needed[us[i].comp])
  }

  function StreamTokens(us: seq<Unit>, se: nat, zs: seq<Block>, last: seq<int>): seq<Token>
    requires |us| == |zs| && se <= 63 && forall i :: 0 <= i < |us| ==> us[i].comp < |last|
  {
    if us == [] then []
    else
      UnitTokens(us[0], zs[0], se, last[us[0].comp]) +
        StreamTokens(us[1..], se, zs[1..], last[us[0].comp := zs[0][0]])
  }

  predicate AllEncodable(us: seq<Unit>, se: nat, zs: seq<Block>, last: seq<int>)
    requires |us| == |zs| && se <= 63 && forall i :: 0 <= i < |us| ==> us[i].comp < |last|
  {
    us == [] || (Encodable(zs[0], se, last[us[0].comp]) && AllEncodable(us[1..], se, zs[1..], last[us[0].comp := zs[0][0]]))
  }

  // The predictions after a run of blocks.
  function LastAfter(us: seq<Unit>, zs: seq<Block>, last: seq<int>): (last': seq<int>)
    requires |us| == |zs| && forall i :: 0 <= i < |us| ==> us[i].comp < |last|
    ensures |last'| == |last|
  {
    if us == [] then last else LastAfter(us[1..], zs[1..], last[us[0].comp := zs[0][0]])
  }

  // The decoder's own predictions after it.
  function OwnAfter(us: seq<Unit>, zs: seq<Block>, own: seq<int>): (own': seq<int>)
    requires |us| == |zs| && forall i :: 0 <= i < |us| ==> us[i].comp < |own|
    ensures |own'| == |own|
  {
    if us == [] then own
    else OwnAfter(us[1..], zs[1..], own[us[0].comp := LastDc(us[0].coefLimit, own[us[0].comp], zs[0][0])])
  }

  datatype StreamRead = Blocks(zs: seq<Block>, own: seq<int>, s: seq<bit>) | Broken

  predicate TablesFor(tables: seq<HuffTable>, us: seq<Unit>, se: nat) {
    forall i :: 0 <= i < |us| ==>
      && us[i].dcTab < |tables| && us[i].acTab < |tables|
      && Readable(tables[us[i].dcTab]) && (se > 0 ==> Readable(tables[us[i].acTab]))
  }

  // The tables as the decoder gets them.
  function Tables(codes: seq<Code>): (tables: seq<HuffTable>)
    ensures |tables| == |codes|
  {
    seq(|codes|, i requires 0 <= i < |codes| => codes[i].htbl)
  }

  ghost predicate AllCodesFor(codes: seq<Code>, us: seq<Unit>, se: nat) {
    forall i :: 0 <= i < |us| ==> CodesFor(codes, us[i], se)
  }

  function ReadStream(tables: seq<HuffTable>, us: seq<Unit>, se: nat, own: seq<int>, s: seq<bit>): (r: StreamRead)
    requires TablesFor(tables, us, se) && se <= 63 && forall i :: 0 <= i < |us| ==> us[i].comp < |own|
    ensures r.Blocks? ==> |r.zs| == |us| && |r.own| == |own|
  {
    if us == [] then Blocks([], own, s)
    else
      var u := us[0];
      match ReadUnit(tables[u.dcTab], tables[u.acTab], se, u.coefLimit, ZeroBlock(), own[u.comp], s)
      case Incomplete => Broken
      case Complete(z, dc, s') =>
        match ReadStream(tables, us[1..], se, own[u.comp := dc], s')
        case Broken => Broken
        case Blocks(zs, own', s'') => Blocks([z] + zs, own', s'')
  }

  predicate AllKept(us: seq<Unit>, se: nat, zs: seq<Block>, zs': seq<Block>) {
    |us| == |zs| == |zs'| && forall i :: 0 <= i < |us| ==> Kept(zs[i], zs'[i], se, us[i].coefLimit)
  }

  // The encoder's and the decoder's predictions agree for the components that are needed.
  predicate Agree(needed: seq<bool>, last: seq<int>, own: seq<int>) {
    |needed| == |last| == |own| && forall c :: 0 <= c < |needed| && needed[c] ==> last[c] == own[c]
  }

  // Sequential coding of any blocks in any interleaving is undone by the decoder.
  lemma {:induction false} StreamRoundTrip(codes: seq<Code>, us: seq<Unit>, se: nat, zs: seq<Block>, needed: seq<bool>,
                                           last: seq<int>, own: seq<int>, rest: seq<bit>) returns (zs': seq<Block>)
    requires AllCodesFor(codes, us, se) && |us| == |zs| && se <= 63
    requires Layout(us, se, needed) && Agree(needed, last, own)
    requires AllEncodable(us, se, zs, last) && Emittable(codes, StreamTokens(us, se, zs, last))
    ensures AllKept(us, se, zs, zs')
    ensures ReadStream(Tables(codes), us, se, own, Flatten(codes, StreamTokens(us, se, zs, last)) + rest) ==
      Blocks(zs', OwnAfter(us, zs, own), rest)
  {
    if us == [] {
      zs' := [];
      assert Flatten(codes, []) + rest == rest;
    } else {
      var u := us[0];
      var unit := UnitTokens(u, zs[0], se, last[u.comp]);
      var last' := last[u.comp := zs[0][0]];
      var later := StreamTokens(us[1..], se, zs[1..], last');
      EmittableParts(codes, unit, later);
      Reassociate(Flatten(codes, unit), Flatten(codes, later), rest);
      var z' := UnitRoundTrip(codes, u, se, zs[0], last[u.comp], own[u.comp], Flatten(codes, later) + rest);
      var own' := own[u.comp := LastDc(u.coefLimit, own[u.comp], zs[0][0])];
      assert Agree(needed, last', own');
      var tail := StreamRoundTrip(codes, us[1..], se, zs[1..], needed, last', own', rest);
      zs' := [z'] + tail;
      AllKeptCons(us, se, zs, zs');
    }
  }

  lemma AllKeptCons(us: seq<Unit>, se: nat, zs: seq<Block>, zs': seq<Block>)
    requires |us| == |zs| == |zs'| > 0
    requires Kept(zs[0], zs'[0], se, us[0].coefLimit) && AllKept(us[1..], se, zs[1..], zs'[1..])
    ensures AllKept(us, se, zs, zs')
  {
    forall i | 0 <= i < |us|
      ensures Kept(zs[i], zs'[i], se, us[i].coefLimit)
    {
      if i > 0 {
        assert us[i] == us[1..][i - 1] && zs[i] == zs[1..][i - 1] && zs'[i] == zs'[1..][i - 1];
      }
    }
  }

  lemma {:induction false} AgreeAfter(us: seq<Unit>, se: nat, zs: seq<Block>, needed: seq<bool>, last: seq<int>, own: seq<int>)
    requires |us| == |zs| && Layout(us, se, needed) && Agree(needed, last, own)
    ensures Agree(needed, LastAfter(us, zs, last), OwnAfter(us, zs, own))
  {
    if us != [] {
      var u, dc := us[0], zs[0][0];
      assert Agree(needed, last[u.comp := dc], own[u.comp := LastDc(u.coefLimit, own[u.comp], dc)]);
      AgreeAfter(us[1..], se, zs[1..], needed, last[u.comp := dc], own[u.comp := LastDc(u.coefLimit, own[u.comp], dc)]);
    }
  }

  // ---- What a block is coded against ----

  // The DC value of the block before the i-th that has component c, or the first prediction.
  ghost predicate IsPrediction(us: seq<Unit>, zs: seq<Block>, last: seq<int>, i: nat, c: nat, dc: int)
    requires i <= |us| == |zs| && c < |last|
  {
    || ((forall j :: 0 <= j < i ==> us[j].comp != c) && dc == last[c])
    || exists j :: 0 <= j < i && us[j].comp == c && dc == zs[j][0] && forall l :: j < l < i ==> us[l].comp != c
  }

  lemma {:induction false} LastIsPrediction(us: seq<Unit>, zs: seq<Block>, last: seq<int>, c: nat)
    requires |us| == |zs| && c < |last| && forall i :: 0 <= i < |us| ==> us[i].comp < |last|
    ensures IsPrediction(us, zs, last, |us|, c, LastAfter(us, zs, last)[c])
    decreases |us|
  {
    if us != [] {
      var us', zs', last' := us[1..], zs[1..], last[us[0].comp := zs[0][0]];
      var dc := LastAfter(us', zs', last')[c];
      LastIsPrediction(us', zs', last', c);
      if exists j :: 0 <= j < |us'| && us'[j].comp == c && dc == zs'[j][0] && forall l :: j < l < |us'| ==> us'[l].comp != c {
        var j :| 0 <= j < |us'| && us'[j].comp == c && dc == zs'[j][0] && forall l :: j < l < |us'| ==> us'[l].comp != c;
        assert us[j + 1] == us'[j] && zs[j + 1] == zs'[j];
        forall l | j + 1 < l < |us|
          ensures us[l].comp != c
        {
          assert us[l] == us'[l - 1];
        }
      } else {
        forall l | 0 < l < |us|
          ensures us[l].comp != c
        {
          assert us[l] == us'[l - 1];
        }
        if us[0].comp == c {
          assert dc == zs[0][0];
        }
      }
    }
  }

  lemma {:induction false} StreamAppend(us: seq<Unit>, vs: seq<Unit>, se: nat, zs: seq<Block>, ws: seq<Block>, last: seq<int>)
    requires |us| == |zs| && |vs| == |ws| && se <= 63
    requires (forall i :: 0 <= i < |us| ==> us[i].comp < |last|) && forall i :: 0 <= i < |vs| ==> vs[i].comp < |last|
    ensures StreamTokens(us + vs, se, zs + ws, last) ==
      StreamTokens(us, se, zs, last) + StreamTokens(vs, se, ws, LastAfter(us, zs, last))
    decreases |us|
  {
    if us == [] {
      assert us + vs == vs && zs + ws == ws && [] + StreamTokens(vs, se, ws, last) == StreamTokens(vs, se, ws, last);
    } else {
      var last' := last[us[0].comp := zs[0][0]];
      StreamAppend(us[1..], vs, se, zs[1..], ws, last');
      assert (us + vs)[1..] == us[1..] + vs && (zs + ws)[1..] == zs[1..] + ws;
      Reassociate(UnitTokens(us[0], zs[0], se, last[us[0].comp]), StreamTokens(us[1..], se, zs[1..], last'),
                  StreamTokens(vs, se, ws, LastAfter(us[1..], zs[1..], last')));
    }
  }

  // The i-th block is coded with the difference to the block of its component before it.
  lemma BlockCoded(us: seq<Unit>, se: nat, zs: seq<Block>, last: seq<int>, i: nat)
    returns (head: seq<Token>, dc: int, tail: seq<Token>)
    requires i < |us| == |zs| && se <= 63 && forall j :: 0 <= j < |us| ==> us[j].comp < |last|
    ensures IsPrediction(us, zs, last, i, us[i].comp, dc) && head == StreamTokens(us[..i], se, zs[..i], last)
    ensures StreamTokens(us, se, zs, last) == head + (UnitTokens(us[i], zs[i], se, dc) + tail)
  {
    var c, last' := us[i].comp, LastAfter(us[..i], zs[..i], last);
    LastIsPrediction(us[..i], zs[..i], last, c);
    assert us == us[..i] + us[i..] && zs == zs[..i] + zs[i..];
    StreamAppend(us[..i], us[i..], se, zs[..i], zs[i..], last);
    head, dc := StreamTokens(us[..i], se, zs[..i], last), last'[c];
    tail := StreamTokens(us[i..][1..], se, zs[i..][1..], last'[c := zs[i][0]]);
  }

  // ---- Scans of MCUs with one layout ----

  predicate McuShape(us: seq<Unit>, components: nat, mcus: seq<seq<Block>>) {
    && (forall i :: 0 <= i < |us| ==> us[i].comp < components)
    && (forall m :: 0 <= m < |mcus| ==> |mcus[m]| == |us|)
  }

  function McuTokens(us: seq<Unit>, se: nat, mcus: seq<seq<Block>>, last: seq<int>): seq<Token>
    requires se <= 63 && McuShape(us, |last|, mcus)
    decreases |mcus|
  {
    if mcus == [] then []
    else StreamTokens(us, se, mcus[0], last) + McuTokens(us, se, mcus[1..], LastAfter(us, mcus[0], last))
  }

  // The layout of n MCUs, and their blocks, one after another.
  function Units(us: seq<Unit>, n: nat): seq<Unit> {
    if n == 0 then [] else us + Units(us, n - 1)
  }

  function AllBlocks(mcus: seq<seq<Block>>): seq<Block> {
    if mcus == [] then [] else mcus[0] + AllBlocks(mcus[1..])
  }

  lemma {:induction false} UnitsFit(us: seq<Unit>, components: nat, mcus: seq<seq<Block>>)
    requires McuShape(us, components, mcus)
    ensures |Units(us, |mcus|)| == |AllBlocks(mcus)|
    ensures forall i :: 0 <= i < |Units(us, |mcus|)| ==> Units(us, |mcus|)[i].comp < components
    decreases |mcus|
  {
    if mcus != [] {
      UnitsFit(us, components, mcus[1..]);
    }
  }

  // MCUs are coded as one run of blocks: predictions go on from one MCU to the next.
  lemma {:induction false} McusAreBlocks(us: seq<Unit>, se: nat, mcus: seq<seq<Block>>, last: seq<int>)
    requires se <= 63 && McuShape(us, |last|, mcus)
    ensures |Units(us, |mcus|)| == |AllBlocks(mcus)|
    ensures forall i :: 0 <= i < |Units(us, |mcus|)| ==> Units(us, |mcus|)[i].comp < |last|
    ensures McuTokens(us, se, mcus, last) == StreamTokens(Units(us, |mcus|), se, AllBlocks(mcus), last)
    decreases |mcus|
  {
    UnitsFit(us, |last|, mcus);
    if mcus != [] {
      UnitsFit(us, |last|, mcus[1..]);
      StreamAppend(us, Units(us, |mcus| - 1), se, mcus[0], AllBlocks(mcus[1..]), last);
      McusAreBlocks(us, se, mcus[1..], LastAfter(us, mcus[0], last));
    }
  }

  predicate McusEncodable(us: seq<Unit>, se: nat, mcus: seq<seq<Block>>, last: seq<int>)
    requires se <= 63 && McuShape(us, |last|, mcus)
    decreases |mcus|
  {
    mcus == [] ||
    (AllEncodable(us, se, mcus[0], last) && McusEncodable(us, se, mcus[1..], LastAfter(us, mcus[0], last)))
  }

  datatype McusRead = Mcus(mcus: seq<seq<Block>>, s: seq<bit>) | Unreadable

  function ReadMcus(tables: seq<HuffTable>, us: seq<Unit>, se: nat, n: nat, own: seq<int>, s: seq<bit>): McusRead
    requires TablesFor(tables, us, se) && se <= 63 && forall i :: 0 <= i < |us| ==> us[i].comp < |own|
    decreases n
  {
    if n == 0 then Mcus([], s)
    else
      match ReadStream(tables, us, se, own, s)
      case Broken => Unreadable
      case Blocks(zs, own', s') =>
        match ReadMcus(tables, us, se, n - 1, own', s')
        case Unreadable => Unreadable
        case Mcus(mcus, s'') => Mcus([zs] + mcus, s'')
  }

  predicate McusKept(us: seq<Unit>, se: nat, mcus: seq<seq<Block>>, mcus': seq<seq<Block>>) {
    |mcus| == |mcus'| && forall m :: 0 <= m < |mcus| ==> AllKept(us, se, mcus[m], mcus'[m])
  }

  lemma {:induction false} McusRoundTrip(codes: seq<Code>, us: seq<Unit>, se: nat, mcus: seq<seq<Block>>, needed: seq<bool>,
                                         last: seq<int>, own: seq<int>, rest: seq<bit>) returns (mcus': seq<seq<Block>>)
    requires AllCodesFor(codes, us, se) && se <= 63 && McuShape(us, |last|, mcus)
    requires Layout(us, se, needed) && Agree(needed, last, own)
    requires McusEncodable(us, se, mcus, last) && Emittable(codes, McuTokens(us, se, mcus, last))
    ensures McusKept(us, se, mcus, mcus')
    ensures ReadMcus(Tables(codes), us, se, |mcus|, own, Flatten(codes, McuTokens(us, se, mcus, last)) + rest) == Mcus(mcus', rest)
    decreases |mcus|
  {
    if mcus == [] {
      mcus' := [];
      assert Flatten(codes, []) + rest == rest;
    } else {
      var here := StreamTokens(us, se, mcus[0], last);
      var last', own' := LastAfter(us, mcus[0], last), OwnAfter(us, mcus[0], own);
      var later := McuTokens(us, se, mcus[1..], last');
      EmittableParts(codes, here, later);
      Reassociate(Flatten(codes, here), Flatten(codes, later), rest);
      var zs' := StreamRoundTrip(codes, us, se, mcus[0], needed, last, own, Flatten(codes, later) + rest);
      AgreeAfter(us, se, mcus[0], needed, last, own);
      var tail := McusRoundTrip(codes, us, se, mcus[1..], needed, last', own', rest);
      mcus' := [zs'] + tail;
      ReadMcusStep(Tables(codes), us, se, |mcus|, own, Flatten(codes, here + later) + rest, zs', own',
                   Flatten(codes, later) + rest, tail, rest);
      McusKeptCons(us, se, mcus, mcus');
    }
  }

  lemma ReadMcusStep(tables: seq<HuffTable>, us: seq<Unit>, se: nat, n: nat, own: seq<int>, s: seq<bit>,
                     zs: seq<Block>, own': seq<int>, s': seq<bit>, tail: seq<seq<Block>>, rest: seq<bit>)
    requires TablesFor(tables, us, se) && se <= 63 && (forall i :: 0 <= i < |us| ==> us[i].comp < |own|) && n > 0
    requires ReadStream(tables, us, se, own, s) == Blocks(zs, own', s')
    requires |own'| == |own| && ReadMcus(tables, us, se, n - 1, own', s') == Mcus(tail, rest)
    ensures ReadMcus(tables, us, se, n, own, s) == Mcus([zs] + tail, rest)
  {
  }

  lemma McusKeptCons(us: seq<Unit>, se: nat, mcus: seq<seq<Block>>, mcus': seq<seq<Block>>)
    requires |mcus| == |mcus'| > 0 && AllKept(us, se, mcus[0], mcus'[0]) && McusKept(us, se, mcus[1..], mcus'[1..])
    ensures McusKept(us, se, mcus, mcus')
  {
    forall m | 0 <= m < |mcus|
      ensures AllKept(us, se, mcus[m], mcus'[m])
    {
      if m > 0 {
        assert mcus[m] == mcus[1..][m - 1] && mcus'[m] == mcus'[1..][m - 1];
      }
    }
  }
}
