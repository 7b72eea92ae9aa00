// A progressive AC scan as its decoder reads it: interval by interval, however damaged the input is, and
// block by block, however often it is suspended.
module ProgressiveReading {
  import opened Numerals
  import opened ByteStuffing
  import opened CanonicalCode
  import opened DerivedTables
  import opened HuffmanDecode
  import opened BitReader
  import opened ACScan
  import opened ProgressiveScan
  import opened ProgressiveSuspend
  import opened ProgressiveDecoder
  import opened RestartStream
  import opened RestartReader
  import opened RestartIntervals
  import opened SuspendingSource

  // What start_pass is given.
  datatype Setup = Setup(sc: Scan, htbl: HuffTable)

  predicate Proper(g: Setup) {
    IsScan(g.sc) && Readable(g.htbl)
  }

  // ---- What an interval holds ----

  // The blocks zs, refined or filled in by the bits found at its start.
  function IntervalRead(g: Setup, pos: Position, zs: seq<Block>): Scanned
    requires Proper(g) && pos.At?
  {
    ReadScan(g.sc, g.htbl, zs, 0, BitsAt(pos))
  }

  predicate Reads(g: Setup, pos: Position, zs: seq<Block>, part: seq<Block>)
    requires Proper(g)
  {
    pos.At? && IntervalRead(g, pos, zs).Scanned? && IntervalRead(g, pos, zs).zs == part
  }

  // The decoder does not stand before a marker, and the data suffice.
  predicate Clean(g: Setup, pos: Position, zs: seq<Block>)
    requires Proper(g)
  {
    pos.At? && pos.unread == 0 && IntervalRead(g, pos, zs).Scanned?
  }

  // The first i blocks are what the bits found there say; for the next one, if the decoder does not stand
  // before a marker, they do not suffice; and all blocks after that are left as they were.
  predicate StopsAfter(g: Setup, pos: Position, zs: seq<Block>, part: seq<Block>, i: nat)
    requires Proper(g) && pos.At? && i <= |zs| == |part|
  {
    && Reads(g, pos, zs[..i], part[..i])
    && (pos.unread == 0 ==> i < |zs| && IntervalRead(g, pos, zs[..i + 1]).Failed?)
    && forall j :: i < j < |zs| ==> part[j] == zs[j]
  }

  ghost predicate RanOut(g: Setup, pos: Position, zs: seq<Block>, part: seq<Block>)
    requires Proper(g) && pos.At? && |zs| == |part|
  {
    exists i :: 0 <= i <= |zs| && StopsAfter(g, pos, zs, part, i)
  }

  // If the interval is clean, or there was no warning at all, it is what the bits say; otherwise it is so as
  // far as they go.
  ghost predicate Faithful(g: Setup, pos: Position, zs: seq<Block>, part: seq<Block>, warned: bool)
    requires Proper(g)
  {
    && (Clean(g, pos, zs) || !warned ==> Reads(g, pos, zs, part))
    && pos.At? && |zs| == |part| && (Reads(g, pos, zs, part) || RanOut(g, pos, zs, part))
  }

  ghost predicate AllClean(g: Setup, start: Position, parts: seq<seq<Block>>)
    requires Proper(g)
  {
    forall j :: 0 <= j < |parts| ==> Clean(g, Walk(start, 0, j), parts[j])
  }

  // A scan of intervals, from a position on: what the blocks zs of each have become.
  ghost predicate ScanRead(g: Setup, start: Position, zs: seq<seq<Block>>, parts: seq<seq<Block>>, warned: bool)
    requires Proper(g)
  {
    && |zs| == |parts| && (forall j :: 0 <= j < |parts| ==> Faithful(g, Walk(start, 0, j), zs[j], parts[j], warned))
    && (AllClean(g, start, zs) ==> !warned)
  }

  // ---- A decoder on its way ----

  // Blocks that are done in front of the outcome for the others.
  function Joined(done: seq<Block>, later: Scanned): Scanned {
    match later
    case Failed => Failed
    case Scanned(zs, s, e) => Scanned(done + zs, s, e)
  }

  // The blocks zs, the first of an interval, have become cur; or the data have run out among them.
  ghost predicate Follows(g: Setup, pos: Position, zs: seq<Block>, cur: seq<Block>, eobrun: nat, s: seq<bit>)
    requires Proper(g) && pos.At?
  {
    forall rest: seq<Block> :: IntervalRead(g, pos, zs + rest) == Joined(cur, ReadScan(g.sc, g.htbl, rest, eobrun, s))
  }

  ghost predicate Hopeless(g: Setup, pos: Position, zs: seq<Block>)
    requires Proper(g) && pos.At?
  {
    forall rest: seq<Block> :: IntervalRead(g, pos, zs + rest).Failed?
  }

  ghost predicate Underway(g: Setup, pos: Position, zs: seq<Block>, cur: seq<Block>, source: Source, eobrun: nat)
    requires Proper(g) && pos.At?
  {
    && source.marker == Ending(pos.unread, pos.input).0 && source.after == Ending(pos.unread, pos.input).1 && |zs| == |cur|
    && if source.warned then (pos.unread != 0 || Hopeless(g, pos, zs)) && RanOut(g, pos, zs, cur)
       else Follows(g, pos, zs, cur, eobrun, source.rest)
  }

  ghost predicate Finished(g: Setup, pos: Position, zs: seq<Block>, cur: seq<Block>, flag: bool)
    requires Proper(g)
  {
    |zs| == |cur| && if flag then !Clean(g, pos, zs) && pos.At? && RanOut(g, pos, zs, cur) else Reads(g, pos, zs, cur)
  }

  lemma UnderwayStarts(g: Setup, pos: Position, flag: bool, source: Source)
    requires Proper(g) && pos.At? && Started(pos, flag, source)
    ensures Underway(g, pos, [], [], source, 0)
  {
    if source.warned {
      var none: seq<Block> := [];
      assert StopsAfter(g, pos, none, none, 0);
    }
    forall rest: seq<Block>
      ensures IntervalRead(g, pos, [] + rest) == Joined([], ReadScan(g.sc, g.htbl, rest, 0, BitsAt(pos)))
    {
      assert [] + rest == rest;
      assert forall later: Scanned :: Joined([], later) == later;
    }
  }

  lemma FollowsBlock(g: Setup, pos: Position, zs: seq<Block>, cur: seq<Block>, e: nat, s: seq<bit>, z: Block, z': Block,
                     e': nat, s': seq<bit>)
    requires Proper(g) && pos.At? && Follows(g, pos, zs, cur, e, s) && DecodeMcu(g.sc, g.htbl, z, e, s) == Done(z', s', e')
    ensures Follows(g, pos, zs + [z], cur + [z'], e', s')
  {
    forall rest: seq<Block>
      ensures IntervalRead(g, pos, (zs + [z]) + rest) == Joined(cur + [z'], ReadScan(g.sc, g.htbl, rest, e', s'))
    {
      Reassociate(zs, [z], rest);
      assert ([z] + rest)[1..] == rest;
      var later := ReadScan(g.sc, g.htbl, rest, e', s');
      if later.Scanned? {
        Reassociate(cur, [z'], later.zs);
      }
    }
  }

  lemma FollowsFails(g: Setup, pos: Position, zs: seq<Block>, cur: seq<Block>, e: nat, s: seq<bit>, z: Block)
    requires Proper(g) && pos.At? && Follows(g, pos, zs, cur, e, s) && !DecodeMcu(g.sc, g.htbl, z, e, s).Done?
    ensures Hopeless(g, pos, zs + [z])
  {
    forall rest: seq<Block>
      ensures IntervalRead(g, pos, (zs + [z]) + rest).Failed?
    {
      Reassociate(zs, [z], rest);
      assert ([z] + rest)[0] == z;
    }
  }

  lemma HopelessMore(g: Setup, pos: Position, zs: seq<Block>, z: Block)
    requires Proper(g) && pos.At? && Hopeless(g, pos, zs)
    ensures Hopeless(g, pos, zs + [z])
  {
    forall rest: seq<Block>
      ensures IntervalRead(g, pos, (zs + [z]) + rest).Failed?
    {
      Reassociate(zs, [z], rest);
    }
  }

  // The blocks before one for which the data do not suffice are what they say.
  lemma DataEnd(g: Setup, pos: Position, zs: seq<Block>, cur: seq<Block>, e: nat, s: seq<bit>, z: Block, z': Block)
    requires Proper(g) && pos.At? && Follows(g, pos, zs, cur, e, s) && !DecodeMcu(g.sc, g.htbl, z, e, s).Done?
    requires |zs| == |cur|
    ensures Hopeless(g, pos, zs + [z]) && StopsAfter(g, pos, zs + [z], cur + [z'], |zs|)
  {
    FollowsFails(g, pos, zs, cur, e, s, z);
    var zs', cur' := zs + [z], cur + [z'];
    assert zs'[..|zs|] == zs == zs + [] && cur'[..|zs|] == cur == cur + [];
    assert IntervalRead(g, pos, zs + []) == Joined(cur, ReadScan(g.sc, g.htbl, [], e, s));
    assert zs'[..|zs| + 1] == zs' == zs' + [];
  }

  // A block after that.
  lemma StaysOut(g: Setup, pos: Position, zs: seq<Block>, cur: seq<Block>, z: Block)
    requires Proper(g) && pos.At? && |zs| == |cur| && RanOut(g, pos, zs, cur)
    ensures RanOut(g, pos, zs + [z], cur + [z])
  {
    var i :| 0 <= i <= |zs| && StopsAfter(g, pos, zs, cur, i);
    var zs', cur' := zs + [z], cur + [z];
    assert zs'[..i] == zs[..i] && cur'[..i] == cur[..i];
    if pos.unread == 0 {
      assert zs'[..i + 1] == zs[..i + 1];
    }
    assert StopsAfter(g, pos, zs', cur', i);
  }

  // What a block comes to, in whatever pieces its input arrives.
  ghost predicate BlockDelivered(g: Setup, z: Block, eobrun: nat, from: Source, z': Block, eobrun': nat, to: Source)
    requires Proper(g)
  {
    && to.marker == from.marker && to.after == from.after && (from.warned ==> to.warned && z' == z)
    && (!from.warned ==>
          if to.warned then !DecodeMcu(g.sc, g.htbl, z, eobrun, from.rest).Done?
          else DecodeMcu(g.sc, g.htbl, z, eobrun, from.rest) == Done(z', to.rest, eobrun'))
  }

  lemma UnderwayBlock(g: Setup, pos: Position, zs: seq<Block>, cur: seq<Block>, from: Source, e: nat, z: Block, z': Block,
                      e': nat, to: Source)
    requires Proper(g) && pos.At? && Underway(g, pos, zs, cur, from, e) && BlockDelivered(g, z, e, from, z', e', to)
    ensures Underway(g, pos, zs + [z], cur + [z'], to, e')
  {
    if from.warned {
      StaysOut(g, pos, zs, cur, z);
      if pos.unread == 0 {
        HopelessMore(g, pos, zs, z);
      }
    } else if to.warned {
      DataEnd(g, pos, zs, cur, e, from.rest, z, z');
    } else {
      FollowsBlock(g, pos, zs, cur, e, from.rest, z, z', e', to.rest);
    }
  }

  lemma UnderwayEnds(g: Setup, pos: Position, zs: seq<Block>, cur: seq<Block>, source: Source, e: nat)
    requires Proper(g) && pos.At? && Underway(g, pos, zs, cur, source, e)
    ensures Finished(g, pos, zs, cur, source.warned)
  {
    assert zs + [] == zs && cur + [] == cur;
    if source.warned && pos.unread == 0 {
      assert IntervalRead(g, pos, zs + []).Failed?;
    } else if !source.warned {
      assert IntervalRead(g, pos, zs + []) == Joined(cur, ReadScan(g.sc, g.htbl, [], e, source.rest));
    }
  }

  ghost predicate Warnings(g: Setup, start: Position, zs: seq<seq<Block>>, done: seq<seq<Block>>, flag: bool, warned: bool)
    requires Proper(g)
  {
    && |zs| == |done| && (forall j :: 0 <= j < |done| ==> Faithful(g, Walk(start, 0, j), zs[j], done[j], warned))
    && (flag ==> warned) && (!flag && AllClean(g, start, zs) ==> !warned)
  }

  lemma AllCleanSnoc(g: Setup, start: Position, zs: seq<seq<Block>>, cur: seq<Block>)
    requires Proper(g)
    ensures AllClean(g, start, zs + [cur]) <==> AllClean(g, start, zs) && Clean(g, Walk(start, 0, |zs|), cur)
  {
    assert (zs + [cur])[|zs|] == cur;
    forall j | 0 <= j < |zs|
      ensures (zs + [cur])[j] == zs[j]
    {
    }
  }

  lemma WarningsSnoc(g: Setup, start: Position, zs: seq<seq<Block>>, done: seq<seq<Block>>, curZ: seq<Block>, cur: seq<Block>,
                     flag: bool, flag': bool, warned: bool)
    requires Proper(g) && Warnings(g, start, zs, done, flag, warned) && Finished(g, Walk(start, 0, |done|), curZ, cur, flag)
    requires flag' ==> flag
    ensures Warnings(g, start, zs + [curZ], done + [cur], flag', warned)
  {
    AllCleanSnoc(g, start, zs, curZ);
    var k := |done|;
    assert Faithful(g, Walk(start, 0, k), curZ, cur, warned);
    forall j | 0 <= j < |done + [cur]|
      ensures Faithful(g, Walk(start, 0, j), (zs + [curZ])[j], (done + [cur])[j], warned)
    {
      SnocAt(done, cur, j);
      SnocAt(zs, curZ, j);
    }
  }

  lemma SnocAt<T>(xs: seq<T>, x: T, j: nat)
    requires j <= |xs|
    ensures (xs + [x])[j] == if j < |xs| then xs[j] else x
  {
  }

  ghost predicate Current(g: Setup, pos: Position, r: nat, zs: seq<Block>, cur: seq<Block>, st: Standing<nat>)
    requires Proper(g)
  {
    pos.At? && if Due(r, st) then Finished(g, pos, zs, cur, st.source.warned) else Underway(g, pos, zs, cur, st.source, st.own)
  }

  // All of it: intervals done, and blocks of another.
  ghost predicate Decoding(g: Setup, start: Position, r: nat, doneZ: seq<seq<Block>>, curZ: seq<Block>, done: seq<seq<Block>>,
                           cur: seq<Block>, st: Standing<nat>, warned: bool)
    requires Proper(g)
  {
    && st.num == NumAfter(0, |done|) && (r > 0 ==> st.togo + |cur| == r) && |curZ| == |cur|
    && Current(g, Walk(start, 0, |done|), r, curZ, cur, st)
    && GoalOf(st.source, st.num) == Walk(start, 0, |done| + 1)
    && Warnings(g, start, doneZ, done, st.source.warned, warned)
  }

  // ---- Its steps ----

  lemma DecodingStarts(g: Setup, r: nat, input: seq<byte>)
    requires Proper(g)
    ensures Decoding(g, At(0, input), r, [], [], [], [], Standing(Fresh(input), 0, r, 0), false)
  {
    BitsOfData(At(0, input), Parse(input).data);
    UnderwayStarts(g, At(0, input), false, Fresh(input));
  }

  // A restart that was due has come to its end, in however many calls.
  ghost predicate Passed(r: nat, st: Standing<nat>, mid: Standing<nat>) {
    if Due(r, st) then
      && Started(GoalOf(st.source, st.num), st.source.warned, mid.source)
      && mid == Standing(mid.source, 0, r, NextNum(st.num))
    else mid == st.(source := st.source.(here := mid.source.here, future := mid.source.future))
  }

  lemma DecodingProceeds(g: Setup, start: Position, r: nat, doneZ: seq<seq<Block>>, curZ: seq<Block>, done: seq<seq<Block>>,
                         cur: seq<Block>, st: Standing<nat>, warned: bool, mid: Standing<nat>)
    requires Proper(g) && Decoding(g, start, r, doneZ, curZ, done, cur, st, warned) && Due(r, st) && Passed(r, st, mid)
    ensures Decoding(g, start, r, doneZ + [curZ], [], done + [cur], [], mid, warned)
  {
    NextInterval(g, start, r, |done|, |done + [cur]|, st, mid);
    WarningsSnoc(g, start, doneZ, done, curZ, cur, st.source.warned, mid.source.warned, warned);
  }

  lemma NextInterval(g: Setup, start: Position, r: nat, k: nat, next: nat, st: Standing<nat>, mid: Standing<nat>)
    requires Proper(g) && Due(r, st) && Passed(r, st, mid) && next == k + 1
    requires Walk(start, 0, k).At? && st.num == NumAfter(0, k) && GoalOf(st.source, st.num) == Walk(start, 0, next)
    ensures mid.num == NumAfter(0, next) && Current(g, Walk(start, 0, next), r, [], [], mid)
    ensures GoalOf(mid.source, mid.num) == Walk(start, 0, next + 1) && (mid.source.warned ==> st.source.warned)
  {
    var pos := Walk(start, 0, next);
    WalkStep(start, 0, k);
    WalkStep(start, 0, next);
    StartedGoal(pos, st.source.warned, mid.source, mid.num);
    UnderwayStarts(g, pos, st.source.warned, mid.source);
  }

  lemma DecodingBlock(g: Setup, start: Position, r: nat, doneZ: seq<seq<Block>>, curZ: seq<Block>, done: seq<seq<Block>>,
                      cur: seq<Block>, mid: Standing<nat>, warned: bool, z: Block, z': Block, st: Standing<nat>)
    requires Proper(g) && Decoding(g, start, r, doneZ, curZ, done, cur, mid, warned) && !Due(r, mid)
    requires BlockDelivered(g, z, mid.own, mid.source, z', st.own, st.source)
    requires st == Standing(st.source, st.own, Countdown(mid.togo), mid.num)
    ensures Decoding(g, start, r, doneZ, curZ + [z], done, cur + [z'], st, warned || st.source.warned)
  {
    var pos := Walk(start, 0, |done|);
    UnderwayBlock(g, pos, curZ, cur, mid.source, mid.own, z, z', st.own, st.source);
    UnderwayEnds(g, pos, curZ + [z], cur + [z'], st.source, st.own);
  }

  lemma DecodingEnds(g: Setup, start: Position, r: nat, doneZ: seq<seq<Block>>, curZ: seq<Block>, done: seq<seq<Block>>,
                     cur: seq<Block>, st: Standing<nat>, warned: bool)
    requires Proper(g) && Decoding(g, start, r, doneZ, curZ, done, cur, st, warned)
    ensures ScanRead(g, start, doneZ + [curZ], done + [cur], warned)
  {
    if !Due(r, st) {
      UnderwayEnds(g, Walk(start, 0, |done|), curZ, cur, st.source, st.own);
    }
    WarningsSnoc(g, start, doneZ, done, curZ, cur, st.source.warned, st.source.warned, warned);
    AllCleanSnoc(g, start, doneZ, curZ);
  }

  // ---- One block, called for again and again as its input arrives ----

  // The input suffices for a restart that is due, and for the interval.
  predicate Ahead(r: nat, st: Standing<nat>) {
    if Due(r, st) then Ends(GoalOf(st.source, st.num)) else st.source.marker != 0
  }

  // Calls so far have been suspended: before or after the restart, if there is one.
  ghost predicate Trying(g: Setup, r: nat, z: Block, st: Standing<nat>, y: Block, begun: bool, now: Standing<nat>)
    requires Proper(g)
  {
    if begun then
      && Passed(r, st, now) && !Due(r, now)
      && if now.source.warned then y == z else Resumable(g.sc, g.htbl, z, now.own, now.source.rest, y)
    else
      && Due(r, st) && y == z && now == st.(source := now.source)
      && GoalOf(now.source, st.num) == GoalOf(st.source, st.num) && now.source.warned == st.source.warned
  }

  lemma TryingStarts(g: Setup, r: nat, z: Block, st: Standing<nat>)
    requires Proper(g)
    ensures Trying(g, r, z, st, z, !Due(r, st), st)
  {
    NothingDone(g.sc, g.htbl, z, st.own, st.source.rest);
  }

  // More input has come.
  lemma TryingSupplied(g: Setup, r: nat, z: Block, st: Standing<nat>, y: Block, begun: bool, now: Standing<nat>,
                       now': Standing<nat>)
    requires Proper(g) && Trying(g, r, z, st, y, begun, now)
    requires now' == now.(source := now.source.(here := now'.source.here, future := now'.source.future))
    ensures Trying(g, r, z, st, y, begun, now')
  {
  }

  // The next call gets past the restart, if it was not done before.
  lemma TryingProceeds(g: Setup, r: nat, z: Block, st: Standing<nat>, y: Block, begun: bool, now: Standing<nat>,
                       mid: Standing<nat>)
    requires Proper(g) && Trying(g, r, z, st, y, begun, now) && Proceeds(r, 0, now, mid)
    ensures Trying(g, r, z, st, y, true, mid) && mid.source.future == now.source.future
    ensures Ahead(r, st) ==> mid.source.marker != 0
  {
    NothingDone(g.sc, g.htbl, z, mid.own, mid.source.rest);
  }

  lemma TryingStalls(g: Setup, r: nat, z: Block, st: Standing<nat>, y: Block, begun: bool, now: Standing<nat>, mid: Standing<nat>)
    requires Proper(g) && Trying(g, r, z, st, y, begun, now) && Stalled(r, now, mid)
    ensures !begun && Trying(g, r, z, st, y, false, mid) && mid.source.future == now.source.future
    ensures Ahead(r, st) ==> mid.source.future != []
  {
  }

  // It completes the block, or leaves it to be called for again.
  lemma TryingCompletes(g: Setup, r: nat, z: Block, st: Standing<nat>, y: Block, mid: Standing<nat>, z': Block, e': nat,
                        k: nat, to: Source)
    requires Proper(g) && Refinable(g.sc, z) && Trying(g, r, z, st, y, true, mid)
    requires BlockRead(g.sc, g.htbl, y, mid.own, mid.source, z', e', k, to)
    ensures BlockDelivered(g, z, mid.own, mid.source, z', e', to) && to.future == mid.source.future
  {
    if !mid.source.warned {
      SuspensionsLeaveNoTrace(g.sc, g.htbl, z, mid.own, mid.source, y, z', e', k, to);
    }
  }

  lemma TryingInterrupted(g: Setup, r: nat, z: Block, st: Standing<nat>, y: Block, mid: Standing<nat>, y': Block)
    requires Proper(g) && Refinable(g.sc, z) && Trying(g, r, z, st, y, true, mid)
    requires !mid.source.warned && Interrupted(g.sc, g.htbl, y, mid.own, mid.source.rest, y')
    ensures Trying(g, r, z, st, y', true, mid)
  {
    OneMore(g.sc, g.htbl, z, mid.own, mid.source.rest, y, y');
  }

  method Attempt(dec: Decoder, sc: Scan, block: array<int>, ghost z: Block, ghost st: Standing<nat>, ghost begun: bool)
    returns (ok: bool, ghost begun': bool, ghost mid: Standing<nat>)
    requires dec.Valid() && IsScan(sc) && Refinable(sc, z) && block.Length == 64 && Ahead(dec.restartInterval, st)
    requires Trying(Setup(sc, dec.htbl), dec.restartInterval, z, st, block[..], begun, dec.Now())
    modifies dec`eobrun, dec`restartsToGo, dec`nextRestartNum, dec.bitstate, block
    ensures dec.Valid() && dec.bitstate.future == old(dec.bitstate.future)
    ensures ok ==> Passed(dec.restartInterval, st, mid)
    ensures ok ==> dec.Now() == Standing(dec.Now().source, dec.Now().own, Countdown(mid.togo), mid.num)
    ensures ok ==> BlockDelivered(Setup(sc, dec.htbl), z, mid.own, mid.source, block[..], dec.Now().own, dec.Now().source)
    ensures !ok ==> dec.bitstate.future != []
    ensures !ok ==> Trying(Setup(sc, dec.htbl), dec.restartInterval, z, st, block[..], begun', dec.Now())
  {
    ghost var g, r, y, now := Setup(sc, dec.htbl), dec.restartInterval, block[..], dec.Now();
    ghost var k;
    ok, begun', k, mid := dec.DecodeMcu(sc, block);
    if begun' {
      TryingProceeds(g, r, z, st, y, begun, now, mid);
      if ok {
        TryingCompletes(g, r, z, st, y, mid, block[..], dec.Now().own, k, dec.Now().source);
      } else {
        TryingInterrupted(g, r, z, st, y, mid, block[..]);
        if dec.bitstate.future == [] {
          dec.bitstate.AllHere();
        }
      }
    } else {
      TryingStalls(g, r, z, st, y, begun, now, mid);
    }
  }

  method DecodeBlock(dec: Decoder, sc: Scan, z: Block, supply: Supply) returns (z': Block, supply': Supply, ghost mid: Standing<nat>)
    requires dec.Valid() && IsScan(sc) && Refinable(sc, z) && Ahead(dec.restartInterval, dec.Now())
    requires dec.bitstate.future == supply.pending
    modifies dec`eobrun, dec`restartsToGo, dec`nextRestartNum, dec.bitstate
    ensures dec.Valid() && dec.bitstate.future == supply'.pending
    ensures Passed(dec.restartInterval, old(dec.Now()), mid)
    ensures dec.Now() == Standing(dec.Now().source, dec.Now().own, Countdown(mid.togo), mid.num)
    ensures BlockDelivered(Setup(sc, dec.htbl), z, mid.own, mid.source, z', dec.Now().own, dec.Now().source)
  {
    var block := new int[64](n requires 0 <= n < 64 => z[n]);
    assert block[..] == z;
    ghost var g, st := Setup(sc, dec.htbl), dec.Now();
    ghost var begun := !Due(dec.restartInterval, st);
    TryingStarts(g, dec.restartInterval, z, st);
    supply', mid := supply, st;
    var done := false;
    while !done
      invariant fresh(block) && dec.Valid() && dec.bitstate.future == supply'.pending
      invariant !done ==> Trying(g, dec.restartInterval, z, st, block[..], begun, dec.Now())
      invariant done ==> Passed(dec.restartInterval, st, mid)
      invariant done ==> dec.Now() == Standing(dec.Now().source, dec.Now().own, Countdown(mid.togo), mid.num)
      invariant done ==> BlockDelivered(g, z, mid.own, mid.source, block[..], dec.Now().own, dec.Now().source)
      decreases !done, supply'.Left()
    {
      done, begun, mid := Attempt(dec, sc, block, z, st, begun);
      if !done {
        supply' := MoreInput(dec, g, block[..], z, st, begun, supply');
      }
    }
    z' := block[..];
  }

  method MoreInput(dec: Decoder, ghost g: Setup, ghost y: Block, ghost z: Block, ghost st: Standing<nat>, ghost begun: bool,
                   supply: Supply)
    returns (supply': Supply)
    requires dec.Valid() && Proper(g) && dec.bitstate.future == supply.pending != []
    requires Trying(g, dec.restartInterval, z, st, y, begun, dec.Now())
    modifies dec.bitstate
    ensures dec.Valid() && dec.bitstate.future == supply'.pending && supply'.Left() < supply.Left()
    ensures Trying(g, dec.restartInterval, z, st, y, begun, dec.Now())
  {
    ghost var now := dec.Now();
    supply' := Refill(dec.bitstate, supply);
    TryingSupplied(g, dec.restartInterval, z, st, y, begun, now, dec.Now());
  }

  // ---- All blocks of a scan ----

  ghost predicate InScan(g: Setup, start: Position, r: nat, zs: seq<Block>, result: seq<Block>, doneZ: seq<seq<Block>>,
                         curZ: seq<Block>,
                         done: seq<seq<Block>>, cur: seq<Block>, st: Standing<nat>, warned: bool)
    requires Proper(g)
  {
    && |result| <= |zs| && Cut(r, zs[..|result|], doneZ, curZ) && Cut(r, result, done, cur) && (cur == [] ==> done == [])
    && Decoding(g, start, r, doneZ, curZ, done, cur, st, warned)
  }

  // All input that is needed for the scan will come.
  ghost predicate Supplied(start: Position, r: nat, n: nat) {
    AllThere(start, 0, Intervals(n, r))
  }

  lemma InputAhead(g: Setup, start: Position, r: nat, zs: seq<Block>, result: seq<Block>, doneZ: seq<seq<Block>>,
                   curZ: seq<Block>,
                   done: seq<seq<Block>>, cur: seq<Block>, st: Standing<nat>, warned: bool)
    requires Proper(g) && InScan(g, start, r, zs, result, doneZ, curZ, done, cur, st, warned)
    requires |result| < |zs| && Supplied(start, r, |zs|)
    ensures Ahead(r, st)
  {
    SegmentsAhead(start, r, |zs|, result, done, cur);
  }

  lemma SegmentsAhead(start: Position, r: nat, n: nat, result: seq<Block>, done: seq<seq<Block>>, cur: seq<Block>)
    requires Supplied(start, r, n) && Cut(r, result, done, cur) && |result| < n
    ensures Ends(Walk(start, 0, |done|)) && (Starts(r, cur) ==> Ends(Walk(start, 0, |done| + 1)))
  {
    CutCount(r, result, done, cur, n);
  }

  lemma InScanBlock(g: Setup, start: Position, r: nat, zs: seq<Block>, result: seq<Block>, doneZ: seq<seq<Block>>,
                    curZ: seq<Block>,
                    done: seq<seq<Block>>, cur: seq<Block>, st: Standing<nat>, warned: bool, mid: Standing<nat>, z': Block,
                    now: Standing<nat>)
    requires Proper(g) && InScan(g, start, r, zs, result, doneZ, curZ, done, cur, st, warned) && |result| < |zs|
    requires Passed(r, st, mid) && BlockDelivered(g, zs[|result|], mid.own, mid.source, z', now.own, now.source)
    requires now == Standing(now.source, now.own, Countdown(mid.togo), mid.num)
    ensures var z := zs[|result|];
      InScan(g, start, r, zs, result + [z'], NextDone(r, doneZ, curZ), NextCur(r, curZ, z),
             NextDone(r, done, cur), NextCur(r, cur, z'), now, warned || now.source.warned)
  {
    var i := |result|;
    assert zs[..i + 1] == zs[..i] + [zs[i]];
    CutStep(r, zs[..i], doneZ, curZ, zs[i]);
    CutStep(r, result, done, cur, z');
    DecodingNext(g, start, r, doneZ, curZ, done, cur, st, warned, mid, zs[i], z', now);
  }

  lemma DecodingNext(g: Setup, start: Position, r: nat, doneZ: seq<seq<Block>>, curZ: seq<Block>, done: seq<seq<Block>>,
                     cur: seq<Block>, st: Standing<nat>, warned: bool, mid: Standing<nat>, z: Block, z': Block,
                     now: Standing<nat>)
    requires Proper(g) && Decoding(g, start, r, doneZ, curZ, done, cur, st, warned)
    requires Passed(r, st, mid) && BlockDelivered(g, z, mid.own, mid.source, z', now.own, now.source)
    requires now == Standing(now.source, now.own, Countdown(mid.togo), mid.num)
    ensures Decoding(g, start, r, NextDone(r, doneZ, curZ), NextCur(r, curZ, z), NextDone(r, done, cur), NextCur(r, cur, z'),
                     now, warned || now.source.warned)
  {
    if Due(r, st) {
      DecodingProceeds(g, start, r, doneZ, curZ, done, cur, st, warned, mid);
      DecodingBlock(g, start, r, doneZ + [curZ], [], done + [cur], [], mid, warned, z, z', now);
      assert [] + [z] == [z] && [] + [z'] == [z'];
    } else {
      DecodingBlock(g, start, r, doneZ, curZ, done, cur, mid, warned, z, z', now);
    }
  }

  method DecodeNext(dec: Decoder, sc: Scan, zs: seq<Block>, result: seq<Block>, warned: bool, supply: Supply,
                    ghost start: Position,
                    ghost doneZ: seq<seq<Block>>, ghost curZ: seq<Block>, ghost done: seq<seq<Block>>, ghost cur: seq<Block>)
    returns (result': seq<Block>, warned': bool, supply': Supply)
    requires dec.Valid() && IsScan(sc) && dec.bitstate.future == supply.pending && |result| < |zs|
    requires (forall i :: 0 <= i < |zs| ==> Refinable(sc, zs[i])) && Supplied(start, dec.restartInterval, |zs|)
    requires InScan(Setup(sc, dec.htbl), start, dec.restartInterval, zs, result, doneZ, curZ, done, cur, dec.Now(), warned)
    modifies dec`eobrun, dec`restartsToGo, dec`nextRestartNum, dec.bitstate
    ensures dec.Valid() && dec.bitstate.future == supply'.pending && |result'| == |result| + 1
    ensures var r, z, z' := dec.restartInterval, zs[|result|], result'[|result'| - 1];
      InScan(Setup(sc, dec.htbl), start, r, zs, result', NextDone(r, doneZ, curZ), NextCur(r, curZ, z),
             NextDone(r, done, cur), NextCur(r, cur, z'), dec.Now(), warned')
  {
    ghost var g, r, st := Setup(sc, dec.htbl), dec.restartInterval, dec.Now();
    InputAhead(g, start, r, zs, result, doneZ, curZ, done, cur, st, warned);
    var z';
    ghost var mid;
    z', supply', mid := DecodeBlock(dec, sc, zs[|result|], supply);
    result', warned' := result + [z'], warned || dec.bitstate.insufficientData;
    InScanBlock(g, start, r, zs, result, doneZ, curZ, done, cur, st, warned, mid, z', dec.Now());
  }

  method DecodeAll(dec: Decoder, sc: Scan, zs: seq<Block>, input: seq<byte>, cuts: seq<nat>)
    returns (result: seq<Block>, warned: bool)
    requires dec.Valid() && IsScan(sc) && Supplied(At(0, input), dec.restartInterval, |zs|)
    requires forall i :: 0 <= i < |zs| ==> Refinable(sc, zs[i])
    requires dec.Now() == Standing(Fresh(input), 0, dec.restartInterval, 0)
    modifies dec`eobrun, dec`restartsToGo, dec`nextRestartNum, dec.bitstate
    ensures |result| == |zs|
    ensures ScanRead(Setup(sc, dec.htbl), At(0, input), Parts(zs, dec.restartInterval), Parts(result, dec.restartInterval), warned)
  {
    result, warned := [], false;
    var supply := Supply(input, cuts);
    ghost var g, start, r, doneZ, curZ, done, cur := Setup(sc, dec.htbl), At(0, input), dec.restartInterval, [], [], [], [];
    InScanStarts(g, r, zs, input);
    while |result| < |zs|
      invariant dec.Valid() && dec.bitstate.future == supply.pending
      invariant InScan(g, start, r, zs, result, doneZ, curZ, done, cur, dec.Now(), warned)
      decreases |zs| - |result|
    {
      ghost var z := zs[|result|];
      result, warned, supply := DecodeNext(dec, sc, zs, result, warned, supply, start, doneZ, curZ, done, cur);
      ghost var z' := result[|result| - 1];
      doneZ, curZ, done, cur := NextDone(r, doneZ, curZ), NextCur(r, curZ, z), NextDone(r, done, cur), NextCur(r, cur, z');
    }
    InScanEnds(g, start, r, zs, result, doneZ, curZ, done, cur, dec.Now(), warned);
  }

  lemma InScanStarts(g: Setup, r: nat, zs: seq<Block>, input: seq<byte>)
    requires Proper(g)
    ensures InScan(g, At(0, input), r, zs, [], [], [], [], [], Standing(Fresh(input), 0, r, 0), false)
  {
    DecodingStarts(g, r, input);
    assert Flat<Block>([]) + [] == [];
  }

  lemma InScanEnds(g: Setup, start: Position, r: nat, zs: seq<Block>, result: seq<Block>, doneZ: seq<seq<Block>>,
                   curZ: seq<Block>,
                   done: seq<seq<Block>>, cur: seq<Block>, st: Standing<nat>, warned: bool)
    requires Proper(g) && InScan(g, start, r, zs, result, doneZ, curZ, done, cur, st, warned) && |result| == |zs|
    ensures ScanRead(g, start, Parts(zs, r), Parts(result, r), warned)
  {
    assert zs[..|result|] == zs;
    DecodingEnds(g, start, r, doneZ, curZ, done, cur, st, warned);
    CutEnds(r, zs, doneZ, curZ);
    CutEnds(r, result, done, cur);
  }

  // Every MCU of a scan, from its bytes, which arrive in pieces of the sizes cuts and then all at once;
  // zs are the blocks as they are before it.  Whatever the bytes, if only they all come: the blocks of an
  // interval for which the bits found at its start suffice become what they say; if that is so of all
  // intervals there is no warning, and if there is none it is so of all.  Where the data of an interval run
  // out, the blocks before are what they say, and those after the one where they end are left as they were.
  method DecodeScan(htbl: HuffTable, sc: Scan, restartInterval: nat, zs: seq<Block>, input: seq<byte>, cuts: seq<nat>)
    returns (ok: bool, result: seq<Block>, warned: bool)
    requires IsScan(sc) && IsTable(htbl) && forall i :: 0 <= i < |zs| ==> Refinable(sc, zs[i])
    requires Supplied(At(0, input), restartInterval, |zs|)
    ensures ok <==> Readable(htbl)
    ensures ok ==> |result| == |zs|
    ensures ok ==>
      ScanRead(Setup(sc, htbl), At(0, input), Parts(zs, restartInterval), Parts(result, restartInterval), warned)
  {
    var tbl;
    result, warned := [], false;
    ok, tbl := MakeDDerivedTbl(htbl, false);
    if !ok {
      return;
    }
    var dec := new Decoder(htbl, tbl, restartInterval, input);
    result, warned := DecodeAll(dec, sc, zs, input, cuts);
  }
}
