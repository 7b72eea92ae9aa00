// What a whole progressive AC scan is made of: groups of blocks that share one end-of-band symbol, each
// group as long as the counter of 15 bits and the buffer for correction bits allow.
module EndOfBandRuns {
  import opened Numerals
  import opened BitWriter
  import opened TokenStream
  import opened CanonicalCode
  import opened ACScan
  import opened ACFirst
  import opened ACRefine
  import opened ProgressiveScan
  import RunLength

  // ---- Blocks without symbols ----

  // Nothing of the block's band becomes nonzero in this scan.
  predicate Silent(sc: Scan, c: Block)
    requires IsScan(sc)
  {
    forall n :: sc.ss <= n <= sc.se ==> if sc.first then Mag(c[n], sc.p) == 0 else Mag(c[n], sc.p) != 1
  }

  lemma {:induction false} ZerosAlone(tab: nat, v: Block, k: nat, se: nat, r: nat)
    requires k <= se + 1 <= 64 && forall n :: k <= n <= se ==> v[n] == 0
    ensures RunLength.CodeRuns(tab, v, k, se, r).tokens == []
    decreases se + 1 - k
  {
    if k <= se {
      ZerosAlone(tab, v, k + 1, se, r + 1);
    }
  }

  lemma {:induction false} NoneAhead(sc: Scan, c: Block, a: Mags, k: nat, r: nat, br: seq<bit>)
    requires IsScan(sc) && k <= sc.se + 1 && forall n :: k <= n <= sc.se ==> a[n] != 1
    ensures CodeFrom(sc, c, a, k, r, br).tokens == []
    decreases sc.se + 1 - k
  {
    if k <= sc.se {
      if a[k] == 0 {
        NoneAhead(sc, c, a, k + 1, r + 1, br);
      } else {
        NoneAhead(sc, c, a, k + 1, r, br + [a[k] % 2]);
      }
    }
  }

  // Symbols are emitted exactly for coefficients that become nonzero: zeros and correction bits
  // after the last of them wait for the end of band.
  lemma SilentBlock(sc: Scan, c: Block)
    requires IsScan(sc)
    ensures Silent(sc, c) <==> CodeBlock(sc, c).tokens == []
  {
    var v, a := Shifted(c, sc.p), AbsValues(c, sc.p);
    if Silent(sc, c) {
      if sc.first {
        ZerosAlone(sc.tab, v, sc.ss, sc.se, 0);
      } else {
        NoneAhead(sc, c, a, sc.ss, 0, []);
      }
    }
    if CodeBlock(sc, c).tokens == [] {
      WithoutTokens(sc, c);
      if sc.first {
        NoValues(sc.tab, v, sc.ss, sc.se, 0);
        forall n | sc.ss <= n <= sc.se
          ensures Mag(c[n], sc.p) == 0
        {
          assert v[n] == 0;
        }
      } else {
        forall n | sc.ss <= n <= sc.se
          ensures Mag(c[n], sc.p) != 1
        {
          assert a[n] != 1;
        }
      }
    }
  }

  // ---- Groups ----

  // The correction bits that blocks put off.
  function Corrections(sc: Scan, g: seq<Block>): seq<bit>
    requires IsScan(sc)
  {
    if g == [] then [] else Corrections(sc, g[..|g| - 1]) + CodeBlock(sc, g[|g| - 1]).br
  }

  // The blocks of a group that end with its end of band: all, but perhaps not a first one that has
  // symbols up to the end of the band.
  function Ended(sc: Scan, g: seq<Block>): nat
    requires IsScan(sc)
  {
    if g == [] then 0 else if CodeBlock(sc, g[0]).pending then |g| else |g| - 1
  }

  // No further block can join: the counter is at its limit, or the buffer of 1000 bits might not
  // have room for the corrections of one more block.
  predicate Full(sc: Scan, g: seq<Block>)
    requires IsScan(sc)
  {
    Ended(sc, g) == 0x7FFF || |Corrections(sc, g)| > 937
  }

  // A block with symbols can only be the first of a group; a full group is at its end.
  ghost predicate Group(sc: Scan, g: seq<Block>)
    requires IsScan(sc)
  {
    && g != [] && (forall i :: 0 < i < |g| ==> Silent(sc, g[i]))
    && forall i :: 0 < i < |g| ==> !Full(sc, g[..i])
  }

  // Groups are ended only by being full or by a block with symbols.
  ghost predicate Groups(sc: Scan, gs: seq<seq<Block>>)
    requires IsScan(sc)
  {
    gs == [] || (Group(sc, gs[0]) && Groups(sc, gs[1..])
                 && (|gs| > 1 ==> Full(sc, gs[0]) || !Silent(sc, gs[1][0])))
  }

  function Joined(gs: seq<seq<Block>>): seq<Block> {
    if gs == [] then [] else gs[0] + Joined(gs[1..])
  }

  // The symbols of the first block, and one end of band for all.
  function GroupTokens(sc: Scan, g: seq<Block>): seq<Token>
    requires IsScan(sc) && g != []
  {
    CodeBlock(sc, g[0]).tokens + EobTokens(sc.tab, Ended(sc, g), Corrections(sc, g))
  }

  ghost function AllTokens(sc: Scan, gs: seq<seq<Block>>): seq<Token>
    requires IsScan(sc) && Groups(sc, gs)
  {
    if gs == [] then [] else GroupTokens(sc, gs[0]) + AllTokens(sc, gs[1..])
  }

  // ---- What is emitted for a group ----

  lemma {:induction false} NothingDue(sc: Scan, c: Block, a: Mags, k: nat, r: nat, br: seq<bit>)
    requires IsScan(sc) && k <= sc.se + 1 && !CodeFrom(sc, c, a, k, r, br).pending
    ensures CodeFrom(sc, c, a, k, r, br).br == []
    decreases sc.se + 1 - k, r
  {
    if k <= sc.se {
      if a[k] == 0 {
        NothingDue(sc, c, a, k + 1, r + 1, br);
      } else if r > 15 && OneAhead(sc, a, k) {
        NothingDue(sc, c, a, k, r - 16, []);
      } else if a[k] > 1 {
        NothingDue(sc, c, a, k + 1, r, br + [a[k] % 2]);
      } else {
        NothingDue(sc, c, a, k + 1, 0, []);
      }
    }
  }

  // The run that is pending after the blocks of a group.
  function Gathered(sc: Scan, g: seq<Block>): Run
    requires IsScan(sc)
  {
    Run(Ended(sc, g), Corrections(sc, g))
  }

  lemma GatheredFirst(sc: Scan, c: Block)
    requires IsScan(sc)
    ensures Gathered(sc, [c]) == OwnRun(CodeBlock(sc, c)) && !Full(sc, [c])
  {
    var coded := CodeBlock(sc, c);
    assert [c][..0] == [] && [] + coded.br == coded.br;
    assert Corrections(sc, [c]) == coded.br;
    OwnRunOk(sc, c);
    if !coded.pending {
      if sc.first {
        NoCorrections(sc.tab, Shifted(c, sc.p), sc.ss, sc.se, 0);
      } else {
        NothingDue(sc, c, AbsValues(c, sc.p), sc.ss, 0, []);
      }
    }
  }

  lemma GatheredMore(sc: Scan, g: seq<Block>, c: Block)
    requires IsScan(sc) && g != []
    ensures var run, br := Gathered(sc, g), CodeBlock(sc, c).br;
      Gathered(sc, g + [c]) == Run(run.eobrun + 1, run.buf + br)
  {
    assert (g + [c])[..|g|] == g;
  }

  // All that is emitted once the blocks of a group are behind.
  function AfterGroup(sc: Scan, g: seq<Block>, later: seq<Block>): seq<Token>
    requires IsScan(sc)
  {
    if Full(sc, g) then EobTokens(sc.tab, Ended(sc, g), Corrections(sc, g)) + ScanTokens(sc, Run(0, []), later)
    else ScanTokens(sc, Gathered(sc, g), later)
  }

  lemma SilentNext(sc: Scan, h: seq<Block>, cs: seq<Block>)
    requires IsScan(sc) && h != [] && cs != [] && Silent(sc, cs[0])
    ensures ScanTokens(sc, Gathered(sc, h), cs) == AfterGroup(sc, h + [cs[0]], cs[1..])
  {
    SilentBlock(sc, cs[0]);
    JoinedTokens(sc, Gathered(sc, h), cs);
    GatheredMore(sc, h, cs[0]);
  }

  lemma {:induction false} SilentRest(sc: Scan, h: seq<Block>, t: seq<Block>, g: seq<Block>, later: seq<Block>)
    requires IsScan(sc) && h != [] && t != [] && g == h + t && Group(sc, g)
    ensures ScanTokens(sc, Gathered(sc, h), t + later) == AfterGroup(sc, g, later)
    decreases |t|
  {
    var more, t' := h + [t[0]], t[1..];
    assert g[|h|] == t[0];
    SilentNext(sc, h, t + later);
    assert (t + later)[1..] == t' + later;
    if t' == [] {
      assert g == more && t' + later == later;
    } else {
      assert g[..|more|] == more && g == more + t';
      SilentRest(sc, more, t', g, later);
    }
  }

  lemma GroupScan(sc: Scan, g: seq<Block>, later: seq<Block>)
    requires IsScan(sc) && Group(sc, g)
    ensures ScanTokens(sc, Run(0, []), g + later) == CodeBlock(sc, g[0]).tokens + AfterGroup(sc, g, later)
  {
    FreshTokens(sc, Run(0, []), g + later);
    GatheredFirst(sc, g[0]);
    assert (g + later)[1..] == g[1..] + later;
    if |g| == 1 {
      assert g == [g[0]] && g[1..] + later == later;
    } else {
      assert g == [g[0]] + g[1..];
      SilentRest(sc, [g[0]], g[1..], g, later);
    }
  }

  lemma GatheredOk(sc: Scan, g: seq<Block>)
    requires IsScan(sc) && Group(sc, g) && !Full(sc, g)
    ensures RunOk(Gathered(sc, g))
  {
    if Ended(sc, g) > 0x7FFF {
      var i := |g| - (Ended(sc, g) - 0x7FFF);
      assert Full(sc, g[..i]);
    }
    if Ended(sc, g) == 0 {
      GatheredFirst(sc, g[0]);
      assert g == [g[0]];
    }
  }

  // The end of band comes out before anything else does.
  lemma GroupEnds(sc: Scan, g: seq<Block>, later: seq<Block>)
    requires IsScan(sc) && Group(sc, g)
    requires later == [] || Full(sc, g) || !Silent(sc, later[0])
    ensures AfterGroup(sc, g, later) ==
      EobTokens(sc.tab, Ended(sc, g), Corrections(sc, g)) + ScanTokens(sc, Run(0, []), later)
  {
    if !Full(sc, g) {
      if later == [] {
        var eob := EobTokens(sc.tab, Ended(sc, g), Corrections(sc, g));
        assert eob + [] == eob;
      } else {
        GatheredOk(sc, g);
        SilentBlock(sc, later[0]);
        FreshTokens(sc, Gathered(sc, g), later);
        FreshTokens(sc, Run(0, []), later);
      }
    }
  }

  // ---- The whole scan ----

  // A scan is coded group by group.
  lemma {:induction false} ScanIsGrouped(sc: Scan, gs: seq<seq<Block>>)
    requires IsScan(sc) && Groups(sc, gs)
    ensures ScanTokens(sc, Run(0, []), Joined(gs)) == AllTokens(sc, gs)
    decreases |gs|
  {
    if gs != [] {
      var later := Joined(gs[1..]);
      ScanIsGrouped(sc, gs[1..]);
      GroupScan(sc, gs[0], later);
      if |gs| > 1 {
        assert gs[1..][0] == gs[1];
        assert later[0] == gs[1][0];
      }
      GroupEnds(sc, gs[0], later);
      Reassociate(CodeBlock(sc, gs[0][0]).tokens, EobTokens(sc.tab, Ended(sc, gs[0]), Corrections(sc, gs[0])), AllTokens(sc, gs[1..]));
    }
  }

  lemma PrefixGroup(sc: Scan, cs: seq<Block>, n: nat)
    requires IsScan(sc) && 1 <= n <= |cs|
    requires forall i :: 0 < i < n ==> Silent(sc, cs[i]) && !Full(sc, cs[..i])
    ensures Group(sc, cs[..n])
  {
    forall i | 0 < i < n
      ensures !Full(sc, cs[..n][..i])
    {
      assert cs[..n][..i] == cs[..i];
    }
  }

  lemma FirstGroup(sc: Scan, cs: seq<Block>) returns (n: nat)
    requires IsScan(sc) && cs != []
    ensures 1 <= n <= |cs| && Group(sc, cs[..n])
    ensures n < |cs| ==> Full(sc, cs[..n]) || !Silent(sc, cs[n])
  {
    n := 1;
    while n < |cs| && !Full(sc, cs[..n]) && Silent(sc, cs[n])
      invariant 1 <= n <= |cs|
      invariant forall i :: 0 < i < n ==> Silent(sc, cs[i]) && !Full(sc, cs[..i])
    {
      n := n + 1;
    }
    PrefixGroup(sc, cs, n);
  }

  // Every scan has its groups.
  lemma {:induction false} GroupsExist(sc: Scan, cs: seq<Block>) returns (gs: seq<seq<Block>>)
    requires IsScan(sc)
    ensures Groups(sc, gs) && Joined(gs) == cs
    decreases |cs|
  {
    if cs == [] {
      gs := [];
    } else {
      var n := FirstGroup(sc, cs);
      var later := GroupsExist(sc, cs[n..]);
      gs := [cs[..n]] + later;
      assert gs[1..] == later;
      assert cs == cs[..n] + cs[n..];
      if |gs| > 1 {
        assert later[0][0] == cs[n];
      }
    }
  }

  // ---- Runs of blocks without symbols ----

  lemma {:induction false} CorrectionsGrow(sc: Scan, g: seq<Block>, i: nat)
    requires IsScan(sc) && i <= |g|
    ensures |Corrections(sc, g[..i])| <= |Corrections(sc, g)|
    decreases |g|
  {
    if i == |g| {
      assert g[..i] == g;
    } else {
      CorrectionsGrow(sc, g[..|g| - 1], i);
      assert g[..|g| - 1][..i] == g[..i];
    }
  }

  lemma SilentGroup(sc: Scan, g: seq<Block>)
    requires IsScan(sc) && g != [] && (forall i :: 0 <= i < |g| ==> Silent(sc, g[i]))
    requires |g| <= 0x7FFF && |Corrections(sc, g)| <= 937
    ensures Group(sc, g) && Ended(sc, g) == |g|
  {
    SilentBlock(sc, g[0]);
    WithoutTokens(sc, g[0]);
    forall i | 0 < i < |g|
      ensures !Full(sc, g[..i])
    {
      CorrectionsGrow(sc, g, i);
    }
  }

  lemma OneEndOfBand(sc: Scan, g: seq<Block>)
    requires IsScan(sc) && g != [] && (forall i :: 0 <= i < |g| ==> Silent(sc, g[i]))
    requires |g| <= 0x7FFF && |Corrections(sc, g)| <= 937
    ensures ScanTokens(sc, Run(0, []), g) == EobTokens(sc.tab, |g|, Corrections(sc, g))
  {
    SilentGroup(sc, g);
    GroupScan(sc, g, []);
    GroupEnds(sc, g, []);
    assert g + [] == g;
    SilentBlock(sc, g[0]);
    NothingMore(EobTokens(sc.tab, |g|, Corrections(sc, g)));
  }

  lemma NothingMore(ts: seq<Token>)
    ensures [] + (ts + []) == ts
  {
  }

  // Blocks without symbols that fit one run share one symbol, which tells the category of their number;
  // the number without its leading bit and all their correction bits follow.
  lemma OneRun(sc: Scan, cs: seq<Block>) returns (l: nat)
    requires IsScan(sc) && cs != [] && (forall i :: 0 <= i < |cs| ==> Silent(sc, cs[i]))
    requires |cs| <= 0x7FFF && |Corrections(sc, cs)| <= 937
    ensures Pow2(l) <= |cs| < 2 * Pow2(l)
    ensures ScanTokens(sc, Run(0, []), cs) ==
      [Symbol(sc.tab, 16 * l), Raw(LowBits(|cs|, l)), Raw(Corrections(sc, cs))]
  {
    l := Log2(|cs|);
    Log2Bounds(|cs|);
    OneEndOfBand(sc, cs);
  }

  predicate IsEob(t: Token) {
    t.Symbol? && t.sym % 16 == 0 && t.sym / 16 < 15
  }

  function NumEobs(ts: seq<Token>): nat {
    if ts == [] then 0 else (if IsEob(ts[0]) then 1 else 0) + NumEobs(ts[1..])
  }

  lemma OneEob(tab: nat, run: nat, later: seq<Token>)
    requires 0 < run <= 0x7FFF
    ensures NumEobs(EobTokens(tab, run, []) + later) == 1 + NumEobs(later)
  {
    var l := Log2(run);
    RunCategory(run);
    assert EobTokens(tab, run, []) + later == [Symbol(tab, l * 16)] + ([Raw(LowBits(run, l))] + ([Raw([])] + later));
    TokenFirst(Raw([]), later);
    TokenFirst(Raw(LowBits(run, l)), [Raw([])] + later);
    TokenFirst(Symbol(tab, l * 16), [Raw(LowBits(run, l))] + ([Raw([])] + later));
  }

  lemma TokenFirst(t: Token, later: seq<Token>)
    ensures NumEobs([t] + later) == (if IsEob(t) then 1 else 0) + NumEobs(later)
  {
    assert ([t] + later)[1..] == later;
  }

  // In a first scan, n zero bands take as few end-of-band symbols as the counter allows.
  lemma {:induction false} ZeroBands(sc: Scan, cs: seq<Block>)
    requires IsScan(sc) && sc.first && forall i :: 0 <= i < |cs| ==> Silent(sc, cs[i])
    ensures NumEobs(ScanTokens(sc, Run(0, []), cs)) == (|cs| + 0x7FFE) / 0x7FFF
    decreases |cs|
  {
    if cs != [] {
      var n := if |cs| < 0x7FFF then |cs| else 0x7FFF;
      var g, later := cs[..n], cs[n..];
      NoneToCorrect(sc, g);
      SilentGroup(sc, g);
      GroupScan(sc, g, later);
      GroupEnds(sc, g, later);
      assert cs == g + later;
      ZeroBands(sc, later);
      SilentBlock(sc, g[0]);
      var rest := ScanTokens(sc, Run(0, []), later);
      assert [] + (EobTokens(sc.tab, n, []) + rest) == EobTokens(sc.tab, n, []) + rest;
      OneEob(sc.tab, n, rest);
    }
  }

  lemma {:induction false} NoneToCorrect(sc: Scan, g: seq<Block>)
    requires IsScan(sc) && sc.first
    ensures Corrections(sc, g) == []
  {
    if g != [] {
      var c := g[|g| - 1];
      NoneToCorrect(sc, g[..|g| - 1]);
      NoCorrections(sc.tab, Shifted(c, sc.p), sc.ss, sc.se, 0);
    }
  }
}
