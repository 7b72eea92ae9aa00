// Sequential scans with restart intervals: the tokens of each interval, whose predictions start at zero.
module SequentialIntervals {
  import opened CanonicalCode
  import opened TokenStream
  import opened ACScan
  import opened SequentialBlock
  import opened RestartStream

  function NoPredictions(components: nat): (last: seq<int>)
    ensures |last| == components
  {
    seq(components, _ => 0)
  }

  // ---- Runs of MCUs ----

  // The predictions after them.
  function McusLast(us: seq<Unit>, mcus: seq<seq<Block>>, last: seq<int>): (last': seq<int>)
    requires McuShape(us, |last|, mcus)
    ensures |last'| == |last|
    decreases |mcus|
  {
    if mcus == [] then last else McusLast(us, mcus[1..], LastAfter(us, mcus[0], last))
  }

  lemma {:induction false} McusAppend(us: seq<Unit>, se: nat, mcus: seq<seq<Block>>, more: seq<seq<Block>>, last: seq<int>)
    requires se <= 63 && McuShape(us, |last|, mcus) && McuShape(us, |last|, more) && McuShape(us, |last|, mcus + more)
    ensures var last' := McusLast(us, mcus, last);
      && McuTokens(us, se, mcus + more, last) == McuTokens(us, se, mcus, last) + McuTokens(us, se, more, last')
      && (McusEncodable(us, se, mcus + more, last) <==> McusEncodable(us, se, mcus, last) && McusEncodable(us, se, more, last'))
      && McusLast(us, mcus + more, last) == McusLast(us, more, last')
    decreases |mcus|
  {
    if mcus == [] {
      assert [] + more == more && [] + McuTokens(us, se, more, last) == McuTokens(us, se, more, last);
    } else {
      var last' := LastAfter(us, mcus[0], last);
      assert (mcus + more)[0] == mcus[0] && (mcus + more)[1..] == mcus[1..] + more;
      McusAppend(us, se, mcus[1..], more, last');
      Reassociate(StreamTokens(us, se, mcus[0], last), McuTokens(us, se, mcus[1..], last'),
                  McuTokens(us, se, more, McusLast(us, mcus[1..], last')));
    }
  }

  predicate OneShape(us: seq<Unit>, components: nat, zs: seq<Block>) {
    |zs| == |us| && forall i :: 0 <= i < |us| ==> us[i].comp < components
  }

  lemma OneMcu(us: seq<Unit>, se: nat, zs: seq<Block>, last: seq<int>)
    requires se <= 63 && OneShape(us, |last|, zs)
    ensures McuShape(us, |last|, [zs])
    ensures McuTokens(us, se, [zs], last) == StreamTokens(us, se, zs, last)
    ensures McusEncodable(us, se, [zs], last) <==> AllEncodable(us, se, zs, last)
    ensures McusLast(us, [zs], last) == LastAfter(us, zs, last)
  {
    assert [zs][1..] == [] && StreamTokens(us, se, zs, last) + [] == StreamTokens(us, se, zs, last);
  }

  // ---- Intervals ----

  predicate Shaped(us: seq<Unit>, components: nat, parts: seq<seq<seq<Block>>>) {
    forall j :: 0 <= j < |parts| ==> McuShape(us, components, parts[j])
  }

  function IntervalTokens(us: seq<Unit>, se: nat, components: nat, parts: seq<seq<seq<Block>>>): (ts: seq<seq<Token>>)
    requires se <= 63 && Shaped(us, components, parts)
    ensures |ts| == |parts|
  {
    seq(|parts|, j requires 0 <= j < |parts| => McuTokens(us, se, parts[j], NoPredictions(components)))
  }

  // In an interval, the first block of a component is coded with its DC value itself, and any other one with
  // the difference to the one before it: the interval can be decoded without those before it.
  lemma BlockInInterval(us: seq<Unit>, se: nat, components: nat, parts: seq<seq<seq<Block>>>, j: nat, i: nat)
    returns (head: seq<Token>, dc: int, tail: seq<Token>)
    requires se <= 63 && Shaped(us, components, parts) && j < |parts| && i < |Units(us, |parts[j]|)|
    ensures |AllBlocks(parts[j])| == |Units(us, |parts[j]|)|
    ensures var unit, zs := Units(us, |parts[j]|), AllBlocks(parts[j]);
      && IntervalTokens(us, se, components, parts)[j] == head + (UnitTokens(unit[i], zs[i], se, dc) + tail)
      && unit[i].comp < components && IsPrediction(unit, zs, NoPredictions(components), i, unit[i].comp, dc)
      && ((forall l :: 0 <= l < i ==> unit[l].comp != unit[i].comp) ==> dc == 0)
  {
    var unit, zs, last := Units(us, |parts[j]|), AllBlocks(parts[j]), NoPredictions(components);
    McusAreBlocks(us, se, parts[j], last);
    head, dc, tail := BlockCoded(unit, se, zs, last, i);
  }

  predicate IntervalsEncodable(us: seq<Unit>, se: nat, components: nat, parts: seq<seq<seq<Block>>>)
    requires se <= 63 && Shaped(us, components, parts)
  {
    forall j :: 0 <= j < |parts| ==> McusEncodable(us, se, parts[j], NoPredictions(components))
  }

  lemma {:induction false} PartsShaped(us: seq<Unit>, components: nat, mcus: seq<seq<Block>>, r: nat)
    requires McuShape(us, components, mcus)
    ensures Shaped(us, components, Parts(mcus, r))
    decreases |mcus|
  {
    if r != 0 && |mcus| > r {
      PartsShaped(us, components, mcus[r..], r);
    }
  }

  // ---- A coder on its way through the intervals ----

  // It has coded i MCUs, the intervals done and the beginning cur of another.
  ghost predicate Coding(us: seq<Unit>, se: nat, components: nat, r: nat, mcus: seq<seq<Block>>, i: nat,
                         done: seq<seq<seq<Block>>>, cur: seq<seq<Block>>)
    requires se <= 63
  {
    && i <= |mcus| && Cut(r, mcus[..i], done, cur) && (cur == [] ==> done == [])
    && Shaped(us, components, done) && McuShape(us, components, cur)
    && IntervalsEncodable(us, se, components, done) && McusEncodable(us, se, cur, NoPredictions(components))
  }

  // The predictions for the next MCU.
  function LastFor(us: seq<Unit>, components: nat, r: nat, cur: seq<seq<Block>>): (last: seq<int>)
    requires McuShape(us, components, cur)
    ensures |last| == components
  {
    if Starts(r, cur) then NoPredictions(components) else McusLast(us, cur, NoPredictions(components))
  }

  lemma CodingStarts(us: seq<Unit>, se: nat, components: nat, r: nat, mcus: seq<seq<Block>>)
    requires se <= 63 && McuShape(us, components, mcus)
    ensures Coding(us, se, components, r, mcus, 0, [], [])
  {
    assert Flat<seq<Block>>([]) + [] == [];
  }

  lemma CodingStep(us: seq<Unit>, se: nat, components: nat, r: nat, mcus: seq<seq<Block>>, i: nat,
                   done: seq<seq<seq<Block>>>, cur: seq<seq<Block>>)
    requires se <= 63 && McuShape(us, components, mcus) && i < |mcus| && Coding(us, se, components, r, mcus, i, done, cur)
    ensures AllEncodable(us, se, mcus[i], LastFor(us, components, r, cur)) ==>
      Coding(us, se, components, r, mcus, i + 1, NextDone(r, done, cur), NextCur(r, cur, mcus[i]))
  {
    assert mcus[..i + 1] == mcus[..i] + [mcus[i]];
    CutStep(r, mcus[..i], done, cur, mcus[i]);
    NextTokens(us, se, components, r, cur, mcus[i]);
  }

  lemma NextTokens(us: seq<Unit>, se: nat, components: nat, r: nat, cur: seq<seq<Block>>, zs: seq<Block>)
    requires se <= 63 && McuShape(us, components, cur) && OneShape(us, components, zs)
    ensures McuShape(us, components, NextCur(r, cur, zs))
    ensures var first, last, next := NoPredictions(components), LastFor(us, components, r, cur), NextCur(r, cur, zs);
      && McuTokens(us, se, next, first) ==
           (if Starts(r, cur) then [] else McuTokens(us, se, cur, first)) + StreamTokens(us, se, zs, last)
      && McusLast(us, next, first) == LastAfter(us, zs, last)
      && (McusEncodable(us, se, cur, first) ==> (McusEncodable(us, se, next, first) <==> AllEncodable(us, se, zs, last)))
  {
    var last := LastFor(us, components, r, cur);
    OneMcu(us, se, zs, last);
    if Starts(r, cur) {
      assert [] + StreamTokens(us, se, zs, last) == StreamTokens(us, se, zs, last);
    } else {
      assert McuShape(us, components, cur + [zs]);
      McusAppend(us, se, cur, [zs], NoPredictions(components));
    }
  }

  // A value out of range anywhere.
  lemma CodingFails(us: seq<Unit>, se: nat, components: nat, r: nat, mcus: seq<seq<Block>>, i: nat,
                    done: seq<seq<seq<Block>>>, cur: seq<seq<Block>>)
    requires se <= 63 && McuShape(us, components, mcus) && i < |mcus| && Coding(us, se, components, r, mcus, i, done, cur)
    requires !AllEncodable(us, se, mcus[i], LastFor(us, components, r, cur))
    requires Shaped(us, components, Parts(mcus, r))
    ensures !IntervalsEncodable(us, se, components, Parts(mcus, r))
  {
    var whole, next := NextDone(r, done, cur), NextCur(r, cur, mcus[i]);
    var first := FirstOfRest(r, mcus, i, done, cur);
    NextTokens(us, se, components, r, cur, mcus[i]);
    var p := Parts(mcus, r)[|whole|];
    assert McuShape(us, components, p);
    BeginningFails(us, se, next, first, p, NoPredictions(components));
  }

  lemma BeginningFails(us: seq<Unit>, se: nat, next: seq<seq<Block>>, more: seq<seq<Block>>, p: seq<seq<Block>>, last: seq<int>)
    requires se <= 63 && p == next + more && McuShape(us, |last|, p) && McuShape(us, |last|, next)
    requires !McusEncodable(us, se, next, last)
    ensures !McusEncodable(us, se, p, last)
  {
    forall m | 0 <= m < |more|
      ensures |more[m]| == |us|
    {
      assert more[m] == p[|next| + m];
    }
    McusAppend(us, se, next, more, last);
  }

  // What completes the interval of the next MCU.
  lemma FirstOfRest(r: nat, mcus: seq<seq<Block>>, i: nat, done: seq<seq<seq<Block>>>, cur: seq<seq<Block>>)
    returns (first: seq<seq<Block>>)
    requires i < |mcus| && Cut(r, mcus[..i], done, cur)
    ensures |Parts(mcus, r)| > |NextDone(r, done, cur)|
    ensures Parts(mcus, r)[|NextDone(r, done, cur)|] == NextCur(r, cur, mcus[i]) + first
  {
    var whole, next := NextDone(r, done, cur), NextCur(r, cur, mcus[i]);
    var later := mcus[i + 1..];
    CutStep(r, mcus[..i], done, cur, mcus[i]);
    assert mcus == (mcus[..i] + [mcus[i]]) + later;
    Reassociate(Flat(whole), next, later);
    PartsAfter(whole, next + later, r);
    var p := Parts(next + later, r)[0];
    first := if r == 0 || |next + later| <= r then later else later[..r - |next|];
    assert p == next + first;
  }

  lemma CodingEnds(us: seq<Unit>, se: nat, components: nat, r: nat, mcus: seq<seq<Block>>,
                   done: seq<seq<seq<Block>>>, cur: seq<seq<Block>>)
    requires se <= 63 && Coding(us, se, components, r, mcus, |mcus|, done, cur)
    ensures Parts(mcus, r) == done + [cur] && Shaped(us, components, Parts(mcus, r))
    ensures IntervalsEncodable(us, se, components, Parts(mcus, r))
    ensures IntervalTokens(us, se, components, Parts(mcus, r)) ==
      IntervalTokens(us, se, components, done) + [McuTokens(us, se, cur, NoPredictions(components))]
  {
    assert mcus[..|mcus|] == mcus;
    CutEnds(r, mcus, done, cur);
  }

  lemma TokensNext(us: seq<Unit>, se: nat, components: nat, r: nat, done: seq<seq<seq<Block>>>, cur: seq<seq<Block>>)
    requires se <= 63 && Shaped(us, components, done) && McuShape(us, components, cur)
    ensures Shaped(us, components, NextDone(r, done, cur))
    ensures IntervalTokens(us, se, components, NextDone(r, done, cur)) == IntervalTokens(us, se, components, done) +
      if Starts(r, cur) then [McuTokens(us, se, cur, NoPredictions(components))] else []
  {
  }

  // ---- Whole scans ----

  function ScanTokens(us: seq<Unit>, se: nat, components: nat, mcus: seq<seq<Block>>, r: nat): seq<Token>
    requires se <= 63 && McuShape(us, components, mcus)
  {
    PartsShaped(us, components, mcus, r);
    Flat(IntervalTokens(us, se, components, Parts(mcus, r)))
  }

  // No value is out of range.
  predicate ScanEncodable(us: seq<Unit>, se: nat, components: nat, mcus: seq<seq<Block>>, r: nat)
    requires se <= 63 && McuShape(us, components, mcus)
  {
    PartsShaped(us, components, mcus, r);
    IntervalsEncodable(us, se, components, Parts(mcus, r))
  }

  function TokensSoFar(us: seq<Unit>, se: nat, components: nat, done: seq<seq<seq<Block>>>,
                       cur: seq<seq<Block>>): (ts: seq<seq<Token>>)
    requires se <= 63 && Shaped(us, components, done) && McuShape(us, components, cur)
    ensures ts != []
  {
    IntervalTokens(us, se, components, done) + [McuTokens(us, se, cur, NoPredictions(components))]
  }

  // Both passes of the encoder, with their predictions and their count of MCUs.
  ghost predicate CoderAt(us: seq<Unit>, se: nat, components: nat, r: nat, mcus: seq<seq<Block>>, i: nat,
                          done: seq<seq<seq<Block>>>, cur: seq<seq<Block>>, last: seq<int>, togo: nat)
    requires se <= 63
  {
    && Coding(us, se, components, r, mcus, i, done, cur)
    && last == McusLast(us, cur, NoPredictions(components)) && (r > 0 ==> togo + |cur| == r)
  }

  lemma CoderStarts(us: seq<Unit>, se: nat, components: nat, r: nat, mcus: seq<seq<Block>>)
    requires se <= 63 && McuShape(us, components, mcus)
    ensures CoderAt(us, se, components, r, mcus, 0, [], [], NoPredictions(components), r)
    ensures TokensSoFar(us, se, components, [], []) == [[]] && Flat(TokensSoFar(us, se, components, [], [])) == []
  {
    CodingStarts(us, se, components, r, mcus);
    var none: seq<Token> := [];
    assert TokensSoFar(us, se, components, [], []) == [none] && [none][1..] == [] && Flat([none]) == none;
  }

  lemma CoderStep(us: seq<Unit>, se: nat, components: nat, r: nat, mcus: seq<seq<Block>>, i: nat,
                  done: seq<seq<seq<Block>>>, cur: seq<seq<Block>>, last: seq<int>, togo: nat, from: seq<int>)
    requires se <= 63 && McuShape(us, components, mcus) && i < |mcus|
    requires CoderAt(us, se, components, r, mcus, i, done, cur, last, togo)
    requires from == if r > 0 && togo == 0 then NoPredictions(components) else last
    ensures |from| == components
    ensures if AllEncodable(us, se, mcus[i], from)
      then CoderAt(us, se, components, r, mcus, i + 1, NextDone(r, done, cur), NextCur(r, cur, mcus[i]),
                   LastAfter(us, mcus[i], from), LeftAfter(r, togo))
      else !ScanEncodable(us, se, components, mcus, r)
  {
    assert from == LastFor(us, components, r, cur);
    NextTokens(us, se, components, r, cur, mcus[i]);
    if AllEncodable(us, se, mcus[i], from) {
      CodingStep(us, se, components, r, mcus, i, done, cur);
    } else {
      PartsShaped(us, components, mcus, r);
      CodingFails(us, se, components, r, mcus, i, done, cur);
    }
  }

  // What an MCU adds to the tokens.
  lemma TokensStep(us: seq<Unit>, se: nat, components: nat, r: nat, done: seq<seq<seq<Block>>>, cur: seq<seq<Block>>,
                   zs: seq<Block>, from: seq<int>)
    requires se <= 63 && Shaped(us, components, done) && McuShape(us, components, cur) && OneShape(us, components, zs)
    requires from == LastFor(us, components, r, cur)
    ensures Shaped(us, components, NextDone(r, done, cur)) && McuShape(us, components, NextCur(r, cur, zs))
    ensures TokensSoFar(us, se, components, NextDone(r, done, cur), NextCur(r, cur, zs)) ==
      Extended(TokensSoFar(us, se, components, done, cur), Starts(r, cur), StreamTokens(us, se, zs, from))
  {
    TokensNext(us, se, components, r, done, cur);
    NextTokens(us, se, components, r, cur, zs);
    var own := StreamTokens(us, se, zs, from);
    assert [] + own == own;
  }

  // So each pass goes from one MCU to the next, or fails on a value out of range.
  lemma McuStep(us: seq<Unit>, se: nat, components: nat, r: nat, mcus: seq<seq<Block>>, i: nat,
                done: seq<seq<seq<Block>>>, cur: seq<seq<Block>>, last: seq<int>, togo: nat, restart: bool, from: seq<int>)
    requires se <= 63 && McuShape(us, components, mcus) && i < |mcus|
    requires CoderAt(us, se, components, r, mcus, i, done, cur, last, togo)
    requires restart == (r > 0 && togo == 0) && from == if restart then NoPredictions(components) else last
    ensures |from| == components
    ensures if AllEncodable(us, se, mcus[i], from)
      then CoderAt(us, se, components, r, mcus, i + 1, NextDone(r, done, cur), NextCur(r, cur, mcus[i]),
                   LastAfter(us, mcus[i], from), LeftAfter(r, togo))
      else !ScanEncodable(us, se, components, mcus, r)
    ensures Shaped(us, components, NextDone(r, done, cur)) && McuShape(us, components, NextCur(r, cur, mcus[i]))
    ensures var before, own := TokensSoFar(us, se, components, done, cur), StreamTokens(us, se, mcus[i], from);
      var next := TokensSoFar(us, se, components, NextDone(r, done, cur), NextCur(r, cur, mcus[i]));
      next == Extended(before, restart, own) && Flat(next) == Flat(before) + own
  {
    assert restart == Starts(r, cur) && from == LastFor(us, components, r, cur);
    CoderStep(us, se, components, r, mcus, i, done, cur, last, togo, from);
    TokensStep(us, se, components, r, done, cur, mcus[i], from);
    FlatExtended(TokensSoFar(us, se, components, done, cur), restart, StreamTokens(us, se, mcus[i], from));
  }

  lemma CoderEnds(us: seq<Unit>, se: nat, components: nat, r: nat, mcus: seq<seq<Block>>,
                  done: seq<seq<seq<Block>>>, cur: seq<seq<Block>>, last: seq<int>, togo: nat)
    requires se <= 63 && McuShape(us, components, mcus) && CoderAt(us, se, components, r, mcus, |mcus|, done, cur, last, togo)
    ensures ScanEncodable(us, se, components, mcus, r) && Shaped(us, components, Parts(mcus, r))
    ensures TokensSoFar(us, se, components, done, cur) == IntervalTokens(us, se, components, Parts(mcus, r))
    ensures Flat(TokensSoFar(us, se, components, done, cur)) == ScanTokens(us, se, components, mcus, r)
  {
    CodingEnds(us, se, components, r, mcus, done, cur);
  }
}
