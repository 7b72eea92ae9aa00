// A sequential scan as its decoder reads it: interval by interval, however damaged the input is.
module SequentialReading {
  import opened Numerals
  import opened ByteStuffing
  import opened CanonicalCode
  import opened BitReader
  import opened ACScan
  import opened SequentialBlock
  import opened SequentialIntervals
  import opened SequentialDecoder
  import opened RestartStream
  import opened RestartReader
  import opened RestartIntervals
  import opened SuspendingSource

  // What start_pass is given.
  datatype Setup = Setup(tables: seq<HuffTable>, us: seq<Unit>, se: nat, components: nat)

  predicate Proper(g: Setup) {
    g.se <= 63 && TablesFor(g.tables, g.us, g.se) && Fits(g.us, g.se, g.components)
  }

  // ---- What an interval holds ----

  // The MCUs in the bits found at its start.
  function IntervalRead(g: Setup, pos: Position, m: nat): McusRead
    requires Proper(g) && pos.At?
  {
    ReadMcus(g.tables, g.us, g.se, m, NoPredictions(g.components), BitsAt(pos))
  }

  predicate Reads(g: Setup, pos: Position, part: seq<seq<Block>>)
    requires Proper(g)
  {
    pos.At? && IntervalRead(g, pos, |part|).Mcus? && IntervalRead(g, pos, |part|).mcus == part
  }

  // The decoder does not stand before a marker, and the data suffice.
  predicate Clean(g: Setup, pos: Position, m: nat)
    requires Proper(g)
  {
    pos.At? && pos.unread == 0 && IntervalRead(g, pos, m).Mcus?
  }

  // The first i MCUs are in the bits found there; the next one, if the decoder does not stand before a
  // marker, is not; and all MCUs after that are left at zero.
  predicate StopsAfter(g: Setup, pos: Position, part: seq<seq<Block>>, i: nat)
    requires Proper(g) && pos.At? && i <= |part|
  {
    && IntervalRead(g, pos, i).Mcus? && IntervalRead(g, pos, i).mcus == part[..i]
    && (pos.unread == 0 ==> i < |part| && IntervalRead(g, pos, i + 1).Unreadable?)
    && forall j :: i < j < |part| ==> part[j] == seq(|g.us|, _ => ZeroBlock())
  }

  ghost predicate RanOut(g: Setup, pos: Position, part: seq<seq<Block>>)
    requires Proper(g) && pos.At?
  {
    exists i :: 0 <= i <= |part| && StopsAfter(g, pos, part, i)
  }

  // If the interval is clean, or there was no warning at all, it is what the bits say; otherwise it is so as
  // far as they go.
  ghost predicate Faithful(g: Setup, pos: Position, part: seq<seq<Block>>, warned: bool)
    requires Proper(g)
  {
    && (Clean(g, pos, |part|) || !warned ==> Reads(g, pos, part))
    && pos.At? && (Reads(g, pos, part) || RanOut(g, pos, part))
  }

  // A scan of those intervals, from a position on.
  ghost predicate ScanRead(g: Setup, pos: Position, parts: seq<seq<seq<Block>>>, warned: bool)
    requires Proper(g)
  {
    && (forall j :: 0 <= j < |parts| ==> Faithful(g, Walk(pos, 0, j), parts[j], warned))
    && (AllClean(g, pos, parts) ==> !warned)
  }

  ghost predicate AllClean(g: Setup, pos: Position, parts: seq<seq<seq<Block>>>)
    requires Proper(g)
  {
    forall j :: 0 <= j < |parts| ==> Clean(g, Walk(pos, 0, j), |parts[j]|)
  }

  // ---- A decoder on its way ----

  function AfterMcus(done: seq<seq<Block>>, later: McusRead): McusRead {
    match later
    case Unreadable => Unreadable
    case Mcus(mcus, s) => Mcus(done + mcus, s)
  }

  // In an interval of m MCUs it has decoded cur.
  ghost predicate Underway(g: Setup, pos: Position, m: nat, cur: seq<seq<Block>>, source: Source, own: seq<int>)
    requires Proper(g) && pos.At?
  {
    && |own| == g.components && |cur| <= m
    && source.marker == Ending(pos.unread, pos.input).0 && source.after == Ending(pos.unread, pos.input).1
    && if source.warned then !Clean(g, pos, m) && RanOut(g, pos, cur) else Ahead(g, pos, cur, source.rest, own)
  }

  // What is found at the start of the interval is what has been decoded, and what is still ahead.
  ghost predicate Ahead(g: Setup, pos: Position, cur: seq<seq<Block>>, rest: seq<bit>, own: seq<int>)
    requires Proper(g) && pos.At? && |own| == g.components
  {
    forall m: nat :: |cur| <= m ==> HoldsFor(g, pos, cur, rest, own, m)
  }

  predicate HoldsFor(g: Setup, pos: Position, cur: seq<seq<Block>>, rest: seq<bit>, own: seq<int>, m: nat)
    requires Proper(g) && pos.At? && |own| == g.components && |cur| <= m
  {
    IntervalRead(g, pos, m) == AfterMcus(cur, ReadMcus(g.tables, g.us, g.se, m - |cur|, own, rest))
  }

  ghost predicate Finished(g: Setup, pos: Position, cur: seq<seq<Block>>, flag: bool)
    requires Proper(g)
  {
    if flag then !Clean(g, pos, |cur|) && pos.At? && RanOut(g, pos, cur) else Reads(g, pos, cur)
  }

  // How many MCUs there are in the current interval, if so many are left in all.
  function SizeNow(r: nat, cur: nat, left: nat): nat {
    if r == 0 || cur + left <= r then cur + left else if cur < r then r else cur
  }

  ghost predicate Current(g: Setup, pos: Position, m: nat, cur: seq<seq<Block>>, st: Standing<seq<int>>)
    requires Proper(g)
  {
    pos.At? && if |cur| < m then Underway(g, pos, m, cur, st.source, st.own) else Finished(g, pos, cur, st.source.warned)
  }

  ghost predicate Warnings(g: Setup, start: Position, done: seq<seq<seq<Block>>>, flag: bool, warned: bool)
    requires Proper(g)
  {
    && (forall j :: 0 <= j < |done| ==> Faithful(g, Walk(start, 0, j), done[j], warned))
    && (flag ==> warned) && (!flag && AllClean(g, start, done) ==> !warned)
  }

  // All of it: intervals done, MCUs decoded of another, and so many left.
  ghost predicate Decoding(g: Setup, start: Position, r: nat, left: nat, done: seq<seq<seq<Block>>>,
                           cur: seq<seq<Block>>, st: Standing<seq<int>>, warned: bool)
    requires Proper(g)
  {
    && |st.own| == g.components && st.num == NumAfter(0, |done|) && (r > 0 ==> st.togo + |cur| == r)
    && Current(g, Walk(start, 0, |done|), SizeNow(r, |cur|, left), cur, st)
    && GoalOf(st.source, st.num) == Walk(start, 0, |done| + 1)
    && Warnings(g, start, done, st.source.warned, warned)
  }

  // ---- Its steps ----

  lemma DecodingStarts(g: Setup, r: nat, n: nat, input: seq<byte>)
    requires Proper(g)
    ensures Decoding(g, At(0, input), r, n, [], [], Standing(Fresh(input), NoPredictions(g.components), r, 0), false)
  {
    var pos := At(0, input);
    BitsOfData(pos, Parse(input).data);
    UnderwayStarts(g, pos, SizeNow(r, 0, n), Fresh(input), NoPredictions(g.components));
    if SizeNow(r, 0, n) == 0 {
      UnderwayEnds(g, pos, [], Fresh(input), NoPredictions(g.components));
    }
  }

  // A restart that is due.
  lemma DecodingProceeds(g: Setup, start: Position, r: nat, left: nat, done: seq<seq<seq<Block>>>,
                         cur: seq<seq<Block>>, st: Standing<seq<int>>, warned: bool, mid: Standing<seq<int>>)
    requires Proper(g) && Decoding(g, start, r, left, done, cur, st, warned) && Due(r, st)
    requires Proceeds(r, NoPredictions(g.components), st, mid)
    ensures Decoding(g, start, r, left, done + [cur], [], mid, warned)
  {
    var pos, next := Walk(start, 0, |done|), Walk(start, 0, |done| + 1);
    WalkStep(start, 0, |done|);
    WalkStep(start, 0, |done| + 1);
    StartedGoal(next, st.source.warned, mid.source, mid.num);
    UnderwayStarts(g, next, SizeNow(r, 0, left), mid.source, mid.own);
    if SizeNow(r, 0, left) == 0 {
      UnderwayEnds(g, next, [], mid.source, mid.own);
    }
    WarningsSnoc(g, start, done, cur, st.source.warned, mid.source.warned, warned);
  }

  lemma AllCleanSnoc(g: Setup, start: Position, done: seq<seq<seq<Block>>>, cur: seq<seq<Block>>)
    requires Proper(g)
    ensures AllClean(g, start, done + [cur]) <==> AllClean(g, start, done) && Clean(g, Walk(start, 0, |done|), |cur|)
  {
    assert (done + [cur])[|done|] == cur;
    forall j | 0 <= j < |done|
      ensures (done + [cur])[j] == done[j]
    {
    }
  }

  lemma WarningsSnoc(g: Setup, start: Position, done: seq<seq<seq<Block>>>, cur: seq<seq<Block>>, flag: bool, flag': bool,
                     warned: bool)
    requires Proper(g) && Warnings(g, start, done, flag, warned) && Finished(g, Walk(start, 0, |done|), cur, flag)
    requires flag' ==> flag
    ensures Warnings(g, start, done + [cur], flag', warned)
  {
    AllCleanSnoc(g, start, done, cur);
    forall j | 0 <= j < |done + [cur]|
      ensures Faithful(g, Walk(start, 0, j), (done + [cur])[j], warned)
    {
      if j < |done| {
        assert (done + [cur])[j] == done[j];
      }
    }
  }

  // A restart for which more input is needed.
  lemma DecodingStalled(g: Setup, start: Position, r: nat, left: nat, done: seq<seq<seq<Block>>>,
                     cur: seq<seq<Block>>, st: Standing<seq<int>>, warned: bool, st': Standing<seq<int>>)
    requires Proper(g) && Decoding(g, start, r, left, done, cur, st, warned) && Stalled(r, st, st')
    ensures Decoding(g, start, r, left, done, cur, st', warned)
  {
  }

  // More input has come.
  lemma DecodingSupplied(g: Setup, start: Position, r: nat, left: nat, done: seq<seq<seq<Block>>>,
                         cur: seq<seq<Block>>, st: Standing<seq<int>>, warned: bool, st': Standing<seq<int>>)
    requires Proper(g) && Decoding(g, start, r, left, done, cur, st, warned)
    requires st' == st.(source := st.source.(here := st'.source.here, future := st'.source.future))
    ensures Decoding(g, start, r, left, done, cur, st', warned)
  {
  }

  // One MCU of which the data hold the whole.
  lemma HoldsNext(g: Setup, pos: Position, cur: seq<seq<Block>>, rest: seq<bit>, own: seq<int>,
                  zs: seq<Block>, own': seq<int>, rest': seq<bit>, m: nat, n: nat)
    requires Proper(g) && pos.At? && |own| == |own'| == g.components && m == |cur| + 1 + n
    requires ReadStream(g.tables, g.us, g.se, own, rest) == Blocks(zs, own', rest')
    requires HoldsFor(g, pos, cur, rest, own, m)
    ensures HoldsFor(g, pos, cur + [zs], rest', own', m)
  {
    var later := ReadMcus(g.tables, g.us, g.se, n, own', rest');
    assert ReadMcus(g.tables, g.us, g.se, n + 1, own, rest) == AfterMcus([zs], later);
    assert m - |cur| == n + 1 && m - |cur + [zs]| == n;
    if later.Mcus? {
      Reassociate(cur, [zs], later.mcus);
    }
  }

  lemma AheadStep(g: Setup, pos: Position, cur: seq<seq<Block>>, rest: seq<bit>, own: seq<int>,
                  zs: seq<Block>, own': seq<int>, rest': seq<bit>)
    requires Proper(g) && pos.At? && |own| == |own'| == g.components && Ahead(g, pos, cur, rest, own)
    requires ReadStream(g.tables, g.us, g.se, own, rest) == Blocks(zs, own', rest')
    ensures Ahead(g, pos, cur + [zs], rest', own')
  {
    forall m: nat | |cur + [zs]| <= m
      ensures HoldsFor(g, pos, cur + [zs], rest', own', m)
    {
      assert HoldsFor(g, pos, cur, rest, own, m);
      HoldsNext(g, pos, cur, rest, own, zs, own', rest', m, m - |cur| - 1);
    }
  }

  // One for which they do not suffice.
  lemma DataEnd(g: Setup, pos: Position, cur: seq<seq<Block>>, rest: seq<bit>, own: seq<int>, zs: seq<Block>)
    requires Proper(g) && pos.At? && |own| == g.components && Ahead(g, pos, cur, rest, own)
    requires ReadStream(g.tables, g.us, g.se, own, rest).Broken?
    ensures StopsAfter(g, pos, cur + [zs], |cur|)
    ensures forall m :: m > |cur| ==> IntervalRead(g, pos, m).Unreadable?
  {
    forall m | m > |cur|
      ensures IntervalRead(g, pos, m).Unreadable?
    {
      assert HoldsFor(g, pos, cur, rest, own, m);
    }
    assert HoldsFor(g, pos, cur, rest, own, |cur|);
    assert cur + [] == cur && (cur + [zs])[..|cur|] == cur;
  }

  // One after that.
  lemma StaysOut(g: Setup, pos: Position, cur: seq<seq<Block>>, zs: seq<Block>)
    requires Proper(g) && pos.At? && RanOut(g, pos, cur) && zs == seq(|g.us|, _ => ZeroBlock())
    ensures RanOut(g, pos, cur + [zs])
  {
    var i :| 0 <= i <= |cur| && StopsAfter(g, pos, cur, i);
    assert (cur + [zs])[..i] == cur[..i];
    assert StopsAfter(g, pos, cur + [zs], i);
  }

  lemma UnderwayStep(g: Setup, pos: Position, m: nat, cur: seq<seq<Block>>, source: Source, own: seq<int>,
                     zs: seq<Block>, own': seq<int>, k: nat, to: Source)
    requires Proper(g) && pos.At? && Underway(g, pos, m, cur, source, own) && |cur| < m && |own'| == g.components
    requires McuRead(g.tables, g.us, g.se, own, source, zs, own', k, to)
    ensures Underway(g, pos, m, cur + [zs], to, own') && (source.warned ==> to.warned)
  {
    if source.warned {
      StaysOut(g, pos, cur, zs);
    } else {
      DataSuffice(g.tables, g.us, g.se, own, source, zs, own', k, to);
      if to.warned {
        DataEnd(g, pos, cur, source.rest, own, zs);
      } else {
        AheadStep(g, pos, cur, source.rest, own, zs, own', to.rest);
      }
    }
  }

  lemma UnderwayEnds(g: Setup, pos: Position, cur: seq<seq<Block>>, source: Source, own: seq<int>)
    requires Proper(g) && pos.At? && Underway(g, pos, |cur|, cur, source, own)
    ensures Finished(g, pos, cur, source.warned)
  {
    if !source.warned {
      assert HoldsFor(g, pos, cur, source.rest, own, |cur|);
      assert cur + [] == cur;
    }
  }

  // At the start of an interval.
  lemma UnderwayStarts(g: Setup, pos: Position, m: nat, source: Source, own: seq<int>)
    requires Proper(g) && pos.At? && own == NoPredictions(g.components)
    requires source.marker == Ending(pos.unread, pos.input).0 && source.after == Ending(pos.unread, pos.input).1
    requires source.rest == BitsAt(pos) && (source.warned ==> pos.unread != 0)
    ensures Underway(g, pos, m, [], source, own)
  {
    if source.warned {
      var none: seq<seq<Block>> := [];
      assert StopsAfter(g, pos, none, 0);
    } else {
      AheadStarts(g, pos, source.rest, own);
    }
  }

  lemma AheadStarts(g: Setup, pos: Position, rest: seq<bit>, own: seq<int>)
    requires Proper(g) && pos.At? && own == NoPredictions(g.components) && rest == BitsAt(pos)
    ensures Ahead(g, pos, [], rest, own)
  {
    forall m: nat
      ensures HoldsFor(g, pos, [], rest, own, m)
    {
      AfterNone(ReadMcus(g.tables, g.us, g.se, m, own, rest));
    }
  }

  lemma AfterNone(later: McusRead)
    ensures AfterMcus([], later) == later
  {
    if later.Mcus? {
      assert [] + later.mcus == later.mcus;
    }
  }

  lemma DecodingMcu(g: Setup, start: Position, r: nat, left: nat, left': nat, done: seq<seq<seq<Block>>>, cur: seq<seq<Block>>,
                    mid: Standing<seq<int>>, warned: bool, zs: seq<Block>, k: nat, st: Standing<seq<int>>,
                    cur': seq<seq<Block>>, warned': bool)
    requires Proper(g) && Decoding(g, start, r, left, done, cur, mid, warned) && left == left' + 1 && !Due(r, mid)
    requires cur' == cur + [zs] && warned' == (warned || st.source.warned)
    requires McuRead(g.tables, g.us, g.se, mid.own, mid.source, zs, st.own, k, st.source)
    requires st == Standing(st.source, st.own, Countdown(mid.togo), mid.num) && |st.own| == g.components
    ensures Decoding(g, start, r, left', done, cur', st, warned')
  {
    var pos, m := Walk(start, 0, |done|), SizeNow(r, |cur|, left);
    assert m == SizeNow(r, |cur'|, left') > |cur|;
    UnderwayStep(g, pos, m, cur, mid.source, mid.own, zs, st.own, k, st.source);
    if |cur'| == m {
      UnderwayEnds(g, pos, cur', st.source, st.own);
    }
  }

  lemma DecodingEnds(g: Setup, start: Position, r: nat, done: seq<seq<seq<Block>>>, cur: seq<seq<Block>>,
                     st: Standing<seq<int>>, warned: bool)
    requires Proper(g) && Decoding(g, start, r, 0, done, cur, st, warned)
    ensures ScanRead(g, start, done + [cur], warned)
  {
    WarningsSnoc(g, start, done, cur, st.source.warned, st.source.warned, warned);
    AllCleanSnoc(g, start, done, cur);
  }

  // ---- The decoder ----

  // Those steps, with the MCUs that have been decoded so far.
  ghost predicate InScan(g: Setup, start: Position, r: nat, n: nat, mcus: seq<seq<Block>>, done: seq<seq<seq<Block>>>,
                         cur: seq<seq<Block>>, st: Standing<seq<int>>, warned: bool)
    requires Proper(g)
  {
    && |mcus| <= n && Cut(r, mcus, done, cur) && (cur == [] ==> done == [] || |mcus| < n)
    && Decoding(g, start, r, n - |mcus|, done, cur, st, warned)
  }

  lemma InScanProceeds(g: Setup, start: Position, r: nat, n: nat, mcus: seq<seq<Block>>, done: seq<seq<seq<Block>>>,
                       cur: seq<seq<Block>>, st: Standing<seq<int>>, warned: bool, mid: Standing<seq<int>>)
    requires Proper(g) && InScan(g, start, r, n, mcus, done, cur, st, warned) && |mcus| < n
    requires Proceeds(r, NoPredictions(g.components), st, mid)
    ensures if Due(r, st) then InScan(g, start, r, n, mcus, done + [cur], [], mid, warned)
      else InScan(g, start, r, n, mcus, done, cur, mid, warned)
    ensures r > 0 ==> !Due(r, mid)
  {
    if Due(r, st) {
      DecodingProceeds(g, start, r, n - |mcus|, done, cur, st, warned, mid);
      FlatSnoc(done, cur);
      assert Flat(done + [cur]) + [] == Flat(done + [cur]);
    }
  }

  lemma InScanMcu(g: Setup, start: Position, r: nat, n: nat, mcus: seq<seq<Block>>, done: seq<seq<seq<Block>>>,
                  cur: seq<seq<Block>>, st: Standing<seq<int>>, warned: bool, left: nat)
    requires Proper(g) && |mcus| + left == n && Cut(r, mcus, done, cur) && cur != []
    requires Decoding(g, start, r, left, done, cur, st, warned)
    ensures InScan(g, start, r, n, mcus, done, cur, st, warned)
  {
  }

  lemma StillCut(r: nat, mcus: seq<seq<Block>>, done: seq<seq<seq<Block>>>, cur: seq<seq<Block>>, zs: seq<Block>, togo: nat)
    requires Cut(r, mcus, done, cur) && (r > 0 ==> togo > 0 && togo + |cur| == r)
    ensures Cut(r, mcus + [zs], done, cur + [zs])
  {
    CutStep(r, mcus, done, cur, zs);
  }

  lemma InScanSupplied(g: Setup, start: Position, r: nat, n: nat, mcus: seq<seq<Block>>, done: seq<seq<seq<Block>>>,
                       cur: seq<seq<Block>>, st: Standing<seq<int>>, warned: bool, st': Standing<seq<int>>)
    requires Proper(g) && InScan(g, start, r, n, mcus, done, cur, st, warned)
    requires st' == st.(source := st.source.(here := st'.source.here, future := st'.source.future))
    ensures InScan(g, start, r, n, mcus, done, cur, st', warned)
  {
    DecodingSupplied(g, start, r, n - |mcus|, done, cur, st, warned, st');
  }

  // All input that is needed for the scan will come.
  ghost predicate Supplied(g: Setup, start: Position, r: nat, n: nat) {
    AllThere(start, 0, Intervals(n, r))
  }

  // So a call that fails can be given more.
  lemma StalledNeedsMore(g: Setup, start: Position, r: nat, n: nat, mcus: seq<seq<Block>>, done: seq<seq<seq<Block>>>,
                      cur: seq<seq<Block>>, st: Standing<seq<int>>, warned: bool, st': Standing<seq<int>>)
    requires Proper(g) && InScan(g, start, r, n, mcus, done, cur, st, warned) && |mcus| < n
    requires Supplied(g, start, r, n) && Stalled(r, st, st')
    ensures st'.source.future != []
  {
    CutCount(r, mcus, done, cur, n);
    assert Ends(Walk(start, 0, |done| + 1));
  }

  lemma MarkerAhead(g: Setup, start: Position, r: nat, n: nat, mcus: seq<seq<Block>>, done: seq<seq<seq<Block>>>,
                    cur: seq<seq<Block>>, st: Standing<seq<int>>, warned: bool)
    requires Proper(g) && InScan(g, start, r, n, mcus, done, cur, st, warned) && |mcus| < n
    requires Supplied(g, start, r, n) && !Due(r, st)
    ensures st.source.marker != 0
  {
    CutCount(r, mcus, done, cur, n);
    assert Ends(Walk(start, 0, |done|));
  }

  lemma CallDone(g: Setup, start: Position, r: nat, n: nat, mcus: seq<seq<Block>>, done: seq<seq<seq<Block>>>,
                 cur: seq<seq<Block>>, st: Standing<seq<int>>, warned: bool, mid: Standing<seq<int>>, zs: seq<Block>, k: nat,
                 now: Standing<seq<int>>)
    returns (done': seq<seq<seq<Block>>>, cur': seq<seq<Block>>)
    requires Proper(g) && InScan(g, start, r, n, mcus, done, cur, st, warned) && |mcus| < n
    requires Proceeds(r, NoPredictions(g.components), st, mid)
    requires McuRead(g.tables, g.us, g.se, mid.own, mid.source, zs, now.own, k, now.source)
    requires now == Standing(now.source, now.own, Countdown(mid.togo), mid.num) && |now.own| == g.components
    ensures InScan(g, start, r, n, mcus + [zs], done', cur', now, warned || now.source.warned)
    ensures now.source.future == st.source.future
  {
    InScanProceeds(g, start, r, n, mcus, done, cur, st, warned, mid);
    done', cur' := if Due(r, st) then done + [cur] else done, if Due(r, st) then [] else cur;
    var was, left, warned' := cur', n - |mcus + [zs]|, warned || now.source.warned;
    cur' := was + [zs];
    StillCut(r, mcus, done', was, zs, mid.togo);
    DecodingMcu(g, start, r, n - |mcus|, left, done', was, mid, warned, zs, k, now, cur', warned');
    InScanMcu(g, start, r, n, mcus + [zs], done', cur', now, warned', left);
  }

  lemma CallSuspended(g: Setup, start: Position, r: nat, n: nat, mcus: seq<seq<Block>>, done: seq<seq<seq<Block>>>,
                      cur: seq<seq<Block>>, st: Standing<seq<int>>, warned: bool, now: Standing<seq<int>>)
    returns (done': seq<seq<seq<Block>>>, cur': seq<seq<Block>>)
    requires Proper(g) && InScan(g, start, r, n, mcus, done, cur, st, warned) && |mcus| < n && Supplied(g, start, r, n)
    requires Stalled(r, st, now) || (Proceeds(r, NoPredictions(g.components), st, now) && !now.source.here)
    ensures InScan(g, start, r, n, mcus, done', cur', now, warned) && now.source.future == st.source.future
    ensures now.source.future == [] ==> now.source.marker != 0 && !now.source.here
  {
    done', cur' := done, cur;
    if Stalled(r, st, now) {
      DecodingStalled(g, start, r, n - |mcus|, done, cur, st, warned, now);
      StalledNeedsMore(g, start, r, n, mcus, done, cur, st, warned, now);
    } else {
      InScanProceeds(g, start, r, n, mcus, done, cur, st, warned, now);
      if Due(r, st) {
        done', cur' := done + [cur], [];
      }
      MarkerAhead(g, start, r, n, mcus, done', cur', now, warned);
    }
  }

  // One call for the next MCU, which may suspend.
  method DecodeNext(dec: Decoder, us: seq<Unit>, n: nat, mcus: seq<seq<Block>>, warned: bool, ghost g: Setup,
                    ghost start: Position,
                    ghost done: seq<seq<seq<Block>>>, ghost cur: seq<seq<Block>>)
    returns (ok: bool, mcus': seq<seq<Block>>, warned': bool, ghost done': seq<seq<seq<Block>>>, ghost cur': seq<seq<Block>>)
    requires dec.Valid() && AllDerived(dec.tables, dec.dtbls, us, dec.se) && g == Setup(dec.tables, us, dec.se, dec.lastDcVal.Length)
    requires Proper(g) && Supplied(g, start, dec.restartInterval, n) && |mcus| < n
    requires InScan(g, start, dec.restartInterval, n, mcus, done, cur, dec.Now(), warned)
    modifies dec`restartsToGo, dec`nextRestartNum, dec.bitstate, dec.lastDcVal
    ensures dec.Valid() && |mcus'| == |mcus| + (if ok then 1 else 0)
    ensures InScan(g, start, dec.restartInterval, n, mcus', done', cur', dec.Now(), warned')
    ensures !ok ==> dec.bitstate.future != []
    ensures dec.bitstate.future == old(dec.bitstate.future)
  {
    ghost var r, st := dec.restartInterval, dec.Now();
    var zs;
    ghost var k, mid;
    ok, zs, k, mid := dec.DecodeMcu(us);
    mcus', warned' := mcus, warned;
    if ok {
      done', cur' := CallDone(g, start, r, n, mcus, done, cur, st, warned, mid, zs, k, dec.Now());
      mcus', warned' := mcus + [zs], warned || dec.bitstate.insufficientData;
    } else {
      done', cur' := CallSuspended(g, start, r, n, mcus, done, cur, st, warned, dec.Now());
      if dec.bitstate.future == [] {
        dec.bitstate.AllHere();
      }
    }
  }

  // One call, and more input if it could not be completed.
  method DecodeOn(dec: Decoder, us: seq<Unit>, n: nat, mcus: seq<seq<Block>>, warned: bool, supply: Supply, ghost g: Setup,
                  ghost start: Position, ghost done: seq<seq<seq<Block>>>, ghost cur: seq<seq<Block>>)
    returns (mcus': seq<seq<Block>>, warned': bool, supply': Supply, ghost done': seq<seq<seq<Block>>>, ghost cur': seq<seq<Block>>)
    requires dec.Valid() && AllDerived(dec.tables, dec.dtbls, us, dec.se) && g == Setup(dec.tables, us, dec.se, dec.lastDcVal.Length)
    requires Proper(g) && Supplied(g, start, dec.restartInterval, n) && |mcus| < n && dec.bitstate.future == supply.pending
    requires InScan(g, start, dec.restartInterval, n, mcus, done, cur, dec.Now(), warned)
    modifies dec`restartsToGo, dec`nextRestartNum, dec.bitstate, dec.lastDcVal
    ensures dec.Valid() && dec.bitstate.future == supply'.pending
    ensures InScan(g, start, dec.restartInterval, n, mcus', done', cur', dec.Now(), warned')
    ensures supply'.Left() < supply.Left() || (supply' == supply && |mcus'| > |mcus|)
  {
    var ok;
    supply' := supply;
    ok, mcus', warned', done', cur' := DecodeNext(dec, us, n, mcus, warned, g, start, done, cur);
    if !ok {
      ghost var st := dec.Now();
      supply' := Refill(dec.bitstate, supply);
      InScanSupplied(g, start, dec.restartInterval, n, mcus', done', cur', st, warned', dec.Now());
    }
  }

  method DecodeAll(dec: Decoder, us: seq<Unit>, n: nat, input: seq<byte>, cuts: seq<nat>, ghost g: Setup)
    returns (mcus: seq<seq<Block>>, warned: bool)
    requires dec.Valid() && AllDerived(dec.tables, dec.dtbls, us, dec.se) && g == Setup(dec.tables, us, dec.se, dec.lastDcVal.Length)
    requires Proper(g) && Supplied(g, At(0, input), dec.restartInterval, n)
    requires dec.Now() == Standing(Fresh(input), NoPredictions(g.components), dec.restartInterval, 0)
    modifies dec`restartsToGo, dec`nextRestartNum, dec.bitstate, dec.lastDcVal
    ensures |mcus| == n && ScanRead(g, At(0, input), Parts(mcus, dec.restartInterval), warned)
  {
    mcus, warned := [], false;
    ghost var start, r, done, cur := At(0, input), dec.restartInterval, [], [];
    DecodingStarts(g, r, n, input);
    var supply := Supply(input, cuts);
    while |mcus| < n
      invariant dec.Valid() && dec.bitstate.future == supply.pending
      invariant InScan(g, start, r, n, mcus, done, cur, dec.Now(), warned)
      decreases supply.Left(), n - |mcus|
    {
      mcus, warned, supply, done, cur := DecodeOn(dec, us, n, mcus, warned, supply, g, start, done, cur);
    }
    DecodingEnds(g, start, r, done, cur, dec.Now(), warned);
    CutEnds(r, mcus, done, cur);
  }

  // All MCUs of a scan, from its bytes, which arrive in pieces of the sizes cuts and then all at once:
  // whenever the decoder has to suspend it is given the next piece and called again.  Whatever the bytes,
  // if only they all come: an interval for which the bits found at its start suffice is what they say; if
  // that is so of all intervals there is no warning, and if there is none it is so of all.  Where the data of
  // an interval run out, the MCUs before are in them, and those after the one where they end are zero.
  method DecodeScan(tables: seq<HuffTable>, us: seq<Unit>, se: nat, components: nat, restartInterval: nat, n: nat,
                    input: seq<byte>, cuts: seq<nat>)
    returns (ok: bool, mcus: seq<seq<Block>>, warned: bool)
    requires se <= 63 && Fits(us, se, components) && AllThere(At(0, input), 0, Intervals(n, restartInterval))
    requires forall i :: 0 <= i < |us| ==> us[i].dcTab < |tables| && us[i].acTab < |tables|
    requires forall t :: 0 <= t < |tables| ==> IsTable(tables[t])
    ensures ok <==> Usable(tables, us, se)
    ensures ok ==> |mcus| == n && Proper(Setup(tables, us, se, components))
    ensures ok ==> ScanRead(Setup(tables, us, se, components), At(0, input), Parts(mcus, restartInterval), warned)
  {
    var dtbls;
    mcus, warned := [], false;
    ok, dtbls := DeriveTables(tables, us, se);
    if !ok {
      return;
    }
    var dec := new Decoder(tables, dtbls, se, components, restartInterval, input);
    mcus, warned := DecodeAll(dec, us, n, input, cuts, Setup(tables, us, se, components));
  }
}
