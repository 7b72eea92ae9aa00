// Restart intervals (section F.1.1.5 of ITU-T T.81): how a scan is cut into them, and the bytes that they
// become.
module RestartStream {
  import opened Numerals
  import opened ByteStuffing
  import opened CanonicalCode

  const RST0: byte := 0xD0
  const RST7: byte := 0xD7

  function Rst(n: nat): byte {
    RST0 + n % 8
  }

  function NextNum(num: nat): nat {
    (num + 1) % 8
  }

  function NumAfter(num: nat, k: nat): nat
    decreases k
  {
    if k == 0 then num else NumAfter(NextNum(num), k - 1)
  }

  lemma {:induction false} NumAfterStep(num: nat, k: nat)
    ensures NumAfter(num, k + 1) == NextNum(NumAfter(num, k))
    decreases k
  {
    if k > 0 {
      NumAfterStep(NextNum(num), k - 1);
    }
  }

  // The numbers count modulo 8.
  lemma {:induction false} NumAfterIs(num: nat, k: nat)
    requires num < 8
    ensures NumAfter(num, k) == (num + k) % 8
    decreases k
  {
    if k > 0 {
      NumAfterIs(NextNum(num), k - 1);
    }
  }

  // ---- The bytes of a scan ----

  // The segments, numbered from num on, ended by another marker.
  function Stream(segs: seq<seq<byte>>, num: nat, final: byte, after: seq<byte>): seq<byte>
    requires segs != []
  {
    if |segs| == 1 then Stuff(segs[0]) + ([0xFF, final] + after)
    else Stuff(segs[0]) + ([0xFF, Rst(num)] + Stream(segs[1..], NextNum(num), final, after))
  }

  // Segments that each end in a restart marker.
  function Segments(segs: seq<seq<byte>>, num: nat): seq<byte> {
    if segs == [] then [] else Stuff(segs[0]) + ([0xFF, Rst(num)] + Segments(segs[1..], NextNum(num)))
  }

  lemma {:induction false} SegmentsSnoc(segs: seq<seq<byte>>, num: nat, data: seq<byte>)
    ensures Segments(segs + [data], num) == (Segments(segs, num) + Stuff(data)) + [0xFF, Rst(NumAfter(num, |segs|))]
    decreases |segs|
  {
    var marker := [0xFF, Rst(NumAfter(num, |segs|))];
    if segs == [] {
      assert [data][1..] == [] && [] + [data] == [data];
      assert marker + [] == marker && [] + Stuff(data) == Stuff(data);
    } else {
      var next := NextNum(num);
      assert (segs + [data])[1..] == segs[1..] + [data];
      SegmentsSnoc(segs[1..], next, data);
      FourParts(Stuff(segs[0]), [0xFF, Rst(num)], Segments(segs[1..], next), Stuff(data), marker);
    }
  }

  lemma FourParts(a: seq<byte>, b: seq<byte>, c: seq<byte>, d: seq<byte>, e: seq<byte>)
    ensures a + (b + ((c + d) + e)) == ((a + (b + c)) + d) + e
    ensures a + (b + (c + (d + e))) == (a + (b + c)) + (d + e)
  {
  }

  lemma {:induction false} StreamIs(segs: seq<seq<byte>>, num: nat, data: seq<byte>, final: byte, after: seq<byte>)
    ensures Stream(segs + [data], num, final, after) == Segments(segs, num) + (Stuff(data) + ([0xFF, final] + after))
    decreases |segs|
  {
    var tail := [0xFF, final] + after;
    if segs == [] {
      assert [] + [data] == [data];
      assert [] + (Stuff(data) + tail) == Stuff(data) + tail;
    } else {
      var next := NextNum(num);
      assert (segs + [data])[1..] == segs[1..] + [data];
      StreamIs(segs[1..], next, data, final, after);
      FourParts(Stuff(segs[0]), [0xFF, Rst(num)], Segments(segs[1..], next), Stuff(data), tail);
    }
  }

  // ---- The intervals of a scan ----

  // MCUs in intervals of length r; a length of 0 stands for a single interval.
  function Parts<T>(xs: seq<T>, r: nat): (parts: seq<seq<T>>)
    ensures parts != []
    decreases |xs|
  {
    if r == 0 || |xs| <= r then [xs] else [xs[..r]] + Parts(xs[r..], r)
  }

  function Flat<T>(parts: seq<seq<T>>): seq<T> {
    if parts == [] then [] else parts[0] + Flat(parts[1..])
  }

  lemma {:induction false} FlatSnoc<T>(parts: seq<seq<T>>, xs: seq<T>)
    ensures Flat(parts + [xs]) == Flat(parts) + xs
  {
    if parts == [] {
      assert [] + [xs] == [xs] && [xs][1..] == [] && xs + [] == xs && [] + xs == xs;
    } else {
      assert (parts + [xs])[1..] == parts[1..] + [xs];
      FlatSnoc(parts[1..], xs);
      Reassociate(parts[0], Flat(parts[1..]), xs);
    }
  }

  // Nothing is lost, and nothing changes places.
  lemma {:induction false} FlatParts<T>(xs: seq<T>, r: nat)
    ensures Flat(Parts(xs, r)) == xs
    decreases |xs|
  {
    if r == 0 || |xs| <= r {
      assert [xs][1..] == [] && xs + [] == xs;
    } else {
      FlatParts(xs[r..], r);
      assert Parts(xs, r)[1..] == Parts(xs[r..], r) && xs[..r] + xs[r..] == xs;
    }
  }

  // Whole intervals, and the beginning of another.
  ghost predicate Cut<T>(r: nat, xs: seq<T>, done: seq<seq<T>>, cur: seq<T>) {
    && xs == Flat(done) + cur
    && (if r == 0 then done == [] else |cur| <= r && forall j :: 0 <= j < |done| ==> |done[j]| == r)
  }

  // What follows whole intervals is cut as if it stood alone.
  lemma {:induction false} PartsAfter<T>(done: seq<seq<T>>, ys: seq<T>, r: nat)
    requires if r == 0 then done == [] else (ys == [] ==> done == []) && forall j :: 0 <= j < |done| ==> |done[j]| == r
    ensures Parts(Flat(done) + ys, r) == done + Parts(ys, r)
    decreases |done|
  {
    if done == [] {
      assert [] + ys == ys && [] + Parts(ys, r) == Parts(ys, r);
    } else {
      var later := Flat(done[1..]) + ys;
      forall j | 0 <= j < |done[1..]|
        ensures |done[1..][j]| == r
      {
        assert done[1..][j] == done[j + 1];
      }
      PartsAfter(done[1..], ys, r);
      assert Flat(done) + ys == done[0] + later;
      assert (done[0] + later)[..r] == done[0] && (done[0] + later)[r..] == later;
      assert [done[0]] + (done[1..] + Parts(ys, r)) == done + Parts(ys, r);
    }
  }

  // How many intervals there are.
  function Intervals(n: nat, r: nat): (k: nat)
    ensures k > 0
    decreases n
  {
    if r == 0 || n <= r then 1 else 1 + Intervals(n - r, r)
  }

  lemma {:induction false} IntervalCount<T>(xs: seq<T>, r: nat)
    ensures |Parts(xs, r)| == Intervals(|xs|, r)
    decreases |xs|
  {
    if r != 0 && |xs| > r {
      IntervalCount(xs[r..], r);
    }
  }

  lemma {:induction false} PartsIn<T>(xs: seq<T>, r: nat, j: nat, i: nat)
    requires j < |Parts(xs, r)| && i < |Parts(xs, r)[j]|
    ensures Parts(xs, r)[j][i] in xs
    decreases |xs|
  {
    if r != 0 && |xs| > r && j > 0 {
      PartsIn(xs[r..], r, j - 1, i);
    }
  }

  // Scans of equal lengths are cut in the same way.
  lemma {:induction false} SameCut<S, T>(xs: seq<S>, ys: seq<T>, r: nat, k: nat)
    requires |xs| == |ys| && k < |Parts(xs, r)|
    ensures k < |Parts(ys, r)| && |Parts(xs, r)[k]| == |Parts(ys, r)[k]|
    decreases |xs|
  {
    if r != 0 && |xs| > r && k > 0 {
      SameCut(xs[r..], ys[r..], r, k - 1);
    }
    IntervalCount(xs, r);
    IntervalCount(ys, r);
  }

  // More is to follow after whole intervals.
  lemma {:induction false} IntervalsAfter<T>(done: seq<seq<T>>, more: nat, r: nat)
    requires more > 0 && if r == 0 then done == [] else forall j :: 0 <= j < |done| ==> |done[j]| == r
    ensures Intervals(|Flat(done)| + more, r) > |done|
    decreases |done|
  {
    if done != [] {
      forall j | 0 <= j < |done[1..]|
        ensures |done[1..][j]| == r
      {
        assert done[1..][j] == done[j + 1];
      }
      IntervalsAfter(done[1..], more, r);
      assert |Flat(done)| == r + |Flat(done[1..])|;
    }
  }

  // What is emitted for an MCU goes to the last interval or to a new one.
  function Extended<T>(before: seq<seq<T>>, restart: bool, own: seq<T>): (after: seq<seq<T>>)
    requires before != []
    ensures after != []
  {
    if restart then before + [own] else before[..|before| - 1] + [before[|before| - 1] + own]
  }

  // A new interval, then what is emitted.
  function Opened<T>(before: seq<seq<T>>, restart: bool): seq<seq<T>> {
    if restart then before + [[]] else before
  }

  lemma ExtendedIs<T>(before: seq<seq<T>>, restart: bool, parts: seq<seq<T>>, cur: seq<T>, own: seq<T>)
    requires before != [] && parts + [cur] == Opened(before, restart)
    ensures parts + [cur + own] == Extended(before, restart, own)
  {
    var mid := Opened(before, restart);
    assert parts == mid[..|mid| - 1] && cur == mid[|mid| - 1];
    assert [] + own == own;
  }

  lemma FlatExtended<T>(before: seq<seq<T>>, restart: bool, own: seq<T>)
    requires before != []
    ensures Flat(Extended(before, restart, own)) == Flat(before) + own
  {
    var n := |before| - 1;
    assert before == before[..n] + [before[n]];
    FlatSnoc(before, own);
    FlatSnoc(before[..n], before[n]);
    FlatSnoc(before[..n], before[n] + own);
    Reassociate(Flat(before[..n]), before[n], own);
  }

  // Nothing is to follow.
  lemma CutEnds<T>(r: nat, xs: seq<T>, done: seq<seq<T>>, cur: seq<T>)
    requires Cut(r, xs, done, cur) && (cur == [] ==> done == [])
    ensures Parts(xs, r) == done + [cur]
  {
    PartsAfter(done, cur, r);
  }

  // The MCUs left in a restart interval after one more.
  function LeftAfter(restartInterval: nat, togo: nat): nat {
    if restartInterval == 0 then togo else (if togo == 0 then restartInterval else togo) - 1
  }

  // The part of the encoding routines that updates the restart interval state.
  method CountMcu(restartInterval: nat, restartsToGo: nat, nextRestartNum: nat) returns (togo: nat, num: nat)
    ensures togo == LeftAfter(restartInterval, restartsToGo)
    ensures num == if restartInterval > 0 && restartsToGo == 0 then NextNum(nextRestartNum) else nextRestartNum
  {
    togo, num := restartsToGo, nextRestartNum;
    if restartInterval > 0 {
      if togo == 0 {
        togo := restartInterval;
        num := (num + 1) % 8;
      }
      togo := togo - 1;
    }
  }

  // One MCU more: it starts another interval if this one is complete.
  predicate Starts<T>(r: nat, cur: seq<T>) {
    r > 0 && |cur| == r
  }

  function NextDone<T>(r: nat, done: seq<seq<T>>, cur: seq<T>): seq<seq<T>> {
    if Starts(r, cur) then done + [cur] else done
  }

  function NextCur<T>(r: nat, cur: seq<T>, x: T): seq<T> {
    if Starts(r, cur) then [x] else cur + [x]
  }

  // There are as many intervals as it takes.
  lemma CutCount<T>(r: nat, xs: seq<T>, done: seq<seq<T>>, cur: seq<T>, n: nat)
    requires Cut(r, xs, done, cur) && |xs| < n
    ensures Intervals(n, r) > |done| && (Starts(r, cur) ==> Intervals(n, r) > |done| + 1)
  {
    if Starts(r, cur) {
      FlatSnoc(done, cur);
      IntervalsAfter(done + [cur], n - |xs|, r);
    } else {
      IntervalsAfter(done, |cur| + (n - |xs|), r);
    }
  }

  lemma CutStep<T>(r: nat, xs: seq<T>, done: seq<seq<T>>, cur: seq<T>, x: T)
    requires Cut(r, xs, done, cur)
    ensures Cut(r, xs + [x], NextDone(r, done, cur), NextCur(r, cur, x))
  {
    Reassociate(Flat(done), cur, [x]);
    if Starts(r, cur) {
      FlatSnoc(done, cur);
    }
  }
}
