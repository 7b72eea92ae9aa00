// Progressive AC scans with restart intervals: the tokens of each interval, at the end of which the
// pending run is emitted.
module ProgressiveIntervals {
  import opened CanonicalCode
  import opened TokenStream
  import opened ACScan
  import opened ProgressiveScan
  import opened RestartStream

  function FreshRun(): Run {
    Run(0, [])
  }

  function IntervalTokens(sc: Scan, parts: seq<seq<Block>>): (ts: seq<seq<Token>>)
    requires IsScan(sc)
    ensures |ts| == |parts|
  {
    seq(|parts|, j requires 0 <= j < |parts| => ScanTokens(sc, FreshRun(), parts[j]))
  }

  // The tokens of a whole scan.
  function AllTokens(sc: Scan, cs: seq<Block>, r: nat): seq<Token>
    requires IsScan(sc)
  {
    Flat(IntervalTokens(sc, Parts(cs, r)))
  }

  lemma IntervalTokensSnoc(sc: Scan, parts: seq<seq<Block>>, cs: seq<Block>)
    requires IsScan(sc)
    ensures IntervalTokens(sc, parts + [cs]) == IntervalTokens(sc, parts) + [ScanTokens(sc, FreshRun(), cs)]
  {
  }

  // The blocks cs, the first of an interval, have been coded: the tokens ts are out, and a run is pending.
  ghost predicate Sent(sc: Scan, cs: seq<Block>, ts: seq<Token>, run: Run)
    requires IsScan(sc)
  {
    forall rest: seq<Block> :: ScanTokens(sc, FreshRun(), cs + rest) == ts + ScanTokens(sc, run, rest)
  }

  lemma SentNothing(sc: Scan)
    requires IsScan(sc)
    ensures Sent(sc, [], [], FreshRun())
  {
    forall rest: seq<Block>
      ensures ScanTokens(sc, FreshRun(), [] + rest) == [] + ScanTokens(sc, FreshRun(), rest)
    {
      assert [] + rest == rest && [] + ScanTokens(sc, FreshRun(), rest) == ScanTokens(sc, FreshRun(), rest);
    }
  }

  lemma SentBlock(sc: Scan, cs: seq<Block>, ts: seq<Token>, run: Run, c: Block)
    requires IsScan(sc) && Sent(sc, cs, ts, run)
    ensures Sent(sc, cs + [c], ts + BlockTokens(sc.tab, run, CodeBlock(sc, c)), NextRun(run, CodeBlock(sc, c)))
  {
    var own, next := BlockTokens(sc.tab, run, CodeBlock(sc, c)), NextRun(run, CodeBlock(sc, c));
    forall rest: seq<Block>
      ensures ScanTokens(sc, FreshRun(), (cs + [c]) + rest) == (ts + own) + ScanTokens(sc, next, rest)
    {
      Reassociate(cs, [c], rest);
      assert ([c] + rest)[1..] == rest;
      Reassociate(ts, own, ScanTokens(sc, next, rest));
    }
  }

  // At the end of an interval.
  lemma SentAll(sc: Scan, cs: seq<Block>, ts: seq<Token>, run: Run)
    requires IsScan(sc) && Sent(sc, cs, ts, run)
    ensures ScanTokens(sc, FreshRun(), cs) == ts + EobTokens(sc.tab, run.eobrun, run.buf)
  {
    assert cs + [] == cs;
    assert ScanTokens(sc, FreshRun(), cs + []) == ts + ScanTokens(sc, run, []);
  }

  // A coder that has coded i blocks: the intervals done, whose tokens are parts, and cur of another.
  ghost predicate CoderAt(sc: Scan, r: nat, cs: seq<Block>, i: nat, done: seq<seq<Block>>, cur: seq<Block>,
                          parts: seq<seq<Token>>, ts: seq<Token>, run: Run, togo: nat)
    requires IsScan(sc)
  {
    && i <= |cs| && Cut(r, cs[..i], done, cur) && (cur == [] ==> done == []) && (r > 0 ==> togo + |cur| == r)
    && parts == IntervalTokens(sc, done) && Sent(sc, cur, ts, run)
  }

  lemma CoderStarts(sc: Scan, r: nat, cs: seq<Block>)
    requires IsScan(sc)
    ensures CoderAt(sc, r, cs, 0, [], [], [], [], FreshRun(), r)
  {
    SentNothing(sc);
    assert Flat<Block>([]) + [] == [];
  }

  lemma CoderStep(sc: Scan, r: nat, cs: seq<Block>, i: nat, done: seq<seq<Block>>, cur: seq<Block>,
                  parts: seq<seq<Token>>, ts: seq<Token>, run: Run, togo: nat,
                  parts': seq<seq<Token>>, ts': seq<Token>, run': Run)
    requires IsScan(sc) && i < |cs| && CoderAt(sc, r, cs, i, done, cur, parts, ts, run, togo)
    requires Restarts(sc.tab, r, parts, ts, run, togo, parts', ts', run')
    ensures CoderAt(sc, r, cs, i + 1, NextDone(r, done, cur), NextCur(r, cur, cs[i]), parts',
                    ts' + BlockTokens(sc.tab, run', CodeBlock(sc, cs[i])), NextRun(run', CodeBlock(sc, cs[i])), LeftAfter(r, togo))
  {
    assert cs[..i + 1] == cs[..i] + [cs[i]];
    CutStep(r, cs[..i], done, cur, cs[i]);
    if Starts(r, cur) {
      SentAll(sc, cur, ts, run);
      IntervalTokensSnoc(sc, done, cur);
      SentNothing(sc);
      SentBlock(sc, [], [], FreshRun(), cs[i]);
      assert [] + [cs[i]] == [cs[i]];
    } else {
      SentBlock(sc, cur, ts, run, cs[i]);
    }
  }

  lemma CoderEnds(sc: Scan, r: nat, cs: seq<Block>, done: seq<seq<Block>>, cur: seq<Block>,
                  parts: seq<seq<Token>>, ts: seq<Token>, run: Run, togo: nat)
    requires IsScan(sc) && CoderAt(sc, r, cs, |cs|, done, cur, parts, ts, run, togo)
    ensures parts + [ts + EobTokens(sc.tab, run.eobrun, run.buf)] == IntervalTokens(sc, Parts(cs, r))
  {
    assert cs[..|cs|] == cs;
    CutEnds(r, cs, done, cur);
    SentAll(sc, cur, ts, run);
    IntervalTokensSnoc(sc, done, cur);
  }
}
