// What resynchronisation achieves: where a decoder finds the intervals of a scan that has lost restart
// markers, has markers too many, or has a wrong one.
module RestartRecovery {
  import opened Numerals
  import opened ByteStuffing
  import opened CanonicalCode
  import opened BitWriter
  import opened RestartStream
  import opened RestartReader
  import opened RestartIntervals

  // A marker that ends the scan: neither a restart marker nor less than SOF0.
  predicate EndsScan(final: byte) {
    final >= SOF0 && (final < RST0 || final > RST7) && final != 0xFF
  }

  // ---- Up to the damage ----

  // The first i segments with their markers, then any bytes.
  function Spliced(segs: seq<seq<byte>>, num: nat, i: nat, tail: seq<byte>): seq<byte>
    requires i <= |segs|
    decreases i
  {
    if i == 0 then tail else Stuff(segs[0]) + ([0xFF, Rst(num)] + Spliced(segs[1..], NextNum(num), i - 1, tail))
  }

  // A segment that ends as it should.
  lemma OneSegment(data: seq<byte>, num: nat, later: seq<byte>)
    ensures var input := Stuff(data) + ([0xFF, Rst(num)] + later);
      && BitsAt(At(0, input)) == BytesToBits(data) && Ends(At(0, input))
      && NextSegment(0, input, num) == At(0, later)
  {
    ParseStuffed(data, Rst(num), later);
    BitsOfData(At(0, Stuff(data) + ([0xFF, Rst(num)] + later)), data);
  }

  lemma SplicedStep(segs: seq<seq<byte>>, num: nat, i: nat, tail: seq<byte>, input: seq<byte>, later: seq<byte>)
    requires 0 < i <= |segs| && input == Spliced(segs, num, i, tail)
    requires later == Spliced(segs[1..], NextNum(num), i - 1, tail)
    ensures NextSegment(0, input, num) == At(0, later)
    ensures Ends(At(0, input)) && BitsAt(At(0, input)) == BytesToBits(segs[0])
  {
    OneSegment(segs[0], num, later);
  }

  lemma SegmentIs(input: seq<byte>, num: nat, data: seq<byte>, marker: byte, later: seq<byte>)
    requires Parse(input) == Segment(data, marker, later) && marker != 0
    ensures Ends(At(0, input)) && BitsAt(At(0, input)) == BytesToBits(data)
    ensures NextSegment(0, input, num) == AfterMarker(marker, later, num)
  {
    BitsOfData(At(0, input), data);
  }

  lemma {:induction false} SplicedWalk(segs: seq<seq<byte>>, num: nat, i: nat, tail: seq<byte>, k: nat)
    requires k <= i <= |segs|
    ensures Walk(At(0, Spliced(segs, num, i, tail)), num, k) == At(0, Spliced(segs[k..], NumAfter(num, k), i - k, tail))
    decreases k
  {
    if k == 0 {
      assert segs[0..] == segs;
    } else {
      var input, later := Spliced(segs, num, i, tail), Spliced(segs[1..], NextNum(num), i - 1, tail);
      assert NextSegment(0, input, num) == At(0, later) by {
        SplicedStep(segs, num, i, tail, input, later);
      }
      WalkOn(At(0, input), num, k);
      SplicedWalk(segs[1..], NextNum(num), i - 1, tail, k - 1);
      assert segs[1..][k - 1..] == segs[k..];
    }
  }

  // The bits of an interval are where a decoder looks for them.
  predicate FoundAt(pos: Position, data: seq<byte>) {
    Ends(pos) && pos.unread == 0 && BitsAt(pos) == BytesToBits(data)
  }

  // Before the damage all is as it should be.
  lemma BeforeDamage(segs: seq<seq<byte>>, num: nat, i: nat, tail: seq<byte>, k: nat)
    requires k < i <= |segs|
    ensures FoundAt(Walk(At(0, Spliced(segs, num, i, tail)), num, k), segs[k])
  {
    var own, due := segs[k..], NumAfter(num, k);
    SplicedWalk(segs, num, i, tail, k);
    SplicedStep(own, due, i - k, tail, Spliced(own, due, i - k, tail), Spliced(own[1..], NextNum(due), i - k - 1, tail));
  }

  // The decoder comes to it with the number that is due there.
  lemma ToDamage(segs: seq<seq<byte>>, num: nat, i: nat, tail: seq<byte>, k: nat)
    requires i <= |segs| && i <= k
    ensures Walk(At(0, Spliced(segs, num, i, tail)), num, k) == Walk(At(0, tail), NumAfter(num, i), k - i)
  {
    SplicedWalk(segs, num, i, tail, i);
    WalkFurther(At(0, Spliced(segs, num, i, tail)), num, i, k - i, k);
  }

  lemma AtDamage(segs: seq<seq<byte>>, num: nat, i: nat, tail: seq<byte>, k: nat, input: seq<byte>, due: nat, j: nat)
    requires i <= |segs| && i <= k && j == k - i && num < 8
    requires due == NumAfter(num, i) && input == Spliced(segs, num, i, tail)
    ensures Walk(At(0, input), num, k) == Walk(At(0, tail), due, j) && due < 8
  {
    ToDamage(segs, num, i, tail, k);
    NumAfterIs(num, i);
  }

  // ---- Markers in a stream ----

  // What ends the first segment of a stream, and what follows.
  function EndOf(segs: seq<seq<byte>>, num: nat, final: byte): byte {
    if |segs| <= 1 then final else Rst(num)
  }

  function Beyond(segs: seq<seq<byte>>, num: nat, final: byte, after: seq<byte>): seq<byte> {
    if |segs| <= 1 then after else Stream(segs[1..], NextNum(num), final, after)
  }

  // After a marker that ends the scan every interval is empty.
  lemma {:induction false} AfterFinal(final: byte, after: seq<byte>, num: nat, k: nat)
    requires EndsScan(final)
    ensures Walk(At(final, after), num, k) == At(final, after)
    decreases k
  {
    if k > 0 {
      AfterFinal(final, after, NextNum(num), k - 1);
    }
  }

  // From segment e on of a stream, or at its end.
  function FromSegment(segs: seq<seq<byte>>, num: nat, e: nat, final: byte, after: seq<byte>): Position {
    if e < |segs| then At(0, Stream(segs[e..], NumAfter(num, e), final, after)) else At(final, after)
  }

  // The numbers around one that is due, and the markers that carry them.
  lemma RstAround(n: nat)
    requires n < 8
    ensures Rst(n) == RST0 + n && Rst(n + 1) == RST0 + (if n < 7 then n + 1 else 0)
    ensures Rst(n + 2) == RST0 + (if n < 6 then n + 2 else n - 6)
    ensures Rst(n + 6) == RST0 + (if n < 2 then n + 6 else n - 2)
    ensures Rst(n + 7) == RST0 + (if n < 1 then 7 else n - 1)
  {
  }

  lemma NumBelow(num: nat, k: nat)
    requires num < 8
    ensures NumAfter(num, k) < 8
  {
    NumAfterIs(num, k);
  }

  lemma NumAhead(num: nat, e: nat)
    requires num < 8 && e < 8
    ensures NumAfter(num, e) == if num + e < 8 then num + e else num + e - 8
  {
    NumAfterIs(num, e);
  }

  // The restart markers up to two behind the one that is due, and that one itself.
  lemma Behind(num: nat, e: nat, desired: nat, input: seq<byte>)
    requires num < 8 && e <= 2 && desired == NumAfter(num, e)
    ensures e == 0 ==> AfterMarker(Rst(num), input, desired) == Resynced(Rst(num), input, desired) == At(0, input)
    ensures e > 0 ==> Rst(num) != Rst(desired) && ActionFor(Rst(num), desired).Scan?
  {
    NumAhead(num, e);
    RstAround(num);
    RstAround(desired);
  }

  lemma FromLater(segs: seq<seq<byte>>, num: nat, e: nat, final: byte, after: seq<byte>)
    requires segs != []
    ensures FromSegment(segs, num, e + 1, final, after) == FromSegment(segs[1..], NextNum(num), e, final, after)
  {
    if e + 1 < |segs| {
      assert segs[1..][e..] == segs[e + 1..];
    }
  }

  lemma SkipOne(num: nat, desired: nat, input: seq<byte>, marker: byte, later: seq<byte>)
    requires ActionFor(Rst(num), desired).Scan? && Parse(input).marker == marker != 0 && Parse(input).after == later
    ensures Resynced(Rst(num), input, desired) == Resynced(marker, later, desired)
  {
  }

  // A marker up to two behind the one that is due: what follows is skipped up to the one that is due.
  lemma {:induction false} CatchesUp(segs: seq<seq<byte>>, num: nat, e: nat, final: byte, after: seq<byte>, desired: nat)
    requires segs != [] && num < 8 && e <= 2 && desired == NumAfter(num, e) && EndsScan(final)
    ensures Resynced(EndOf(segs, num, final), Beyond(segs, num, final, after), desired) ==
      FromSegment(segs, num, e + 1, final, after)
    decreases e
  {
    if |segs| > 1 {
      var next, later := NextNum(num), segs[1..];
      Behind(num, e, desired, Beyond(segs, num, final, after));
      FromLater(segs, num, e, final, after);
      if e > 0 {
        StreamParse(later, next, final, after);
        SkipOne(num, desired, Stream(later, next, final, after), EndOf(later, next, final), Beyond(later, next, final, after));
        CatchesUp(later, next, e - 1, final, after, desired);
      }
    }
  }

  // The same from the segment before that marker.
  lemma AfterSegment(segs: seq<seq<byte>>, num: nat, e: nat, final: byte, after: seq<byte>, desired: nat)
    requires segs != [] && num < 8 && e <= 2 && desired == NumAfter(num, e) && EndsScan(final)
    ensures NextSegment(0, Stream(segs, num, final, after), desired) == FromSegment(segs, num, e + 1, final, after)
  {
    StreamParse(segs, num, final, after);
    CatchesUp(segs, num, e, final, after, desired);
    Behind(num, e, desired, Beyond(segs, num, final, after));
  }

  // A decoder in step with a stream stays in step.
  lemma {:induction false} StreamWalk(segs: seq<seq<byte>>, num: nat, final: byte, after: seq<byte>, k: nat)
    requires num < 8 && EndsScan(final)
    ensures Walk(FromSegment(segs, num, 0, final, after), num, k) == FromSegment(segs, num, k, final, after)
    decreases k
  {
    if segs == [] {
      AfterFinal(final, after, num, k);
    } else {
      assert segs[0..] == segs;
      if k > 0 {
        AfterSegment(segs, num, 0, final, after, num);
        FromLater(segs, num, 0, final, after);
        FromLater(segs, num, k - 1, final, after);
        WalkOn(FromSegment(segs, num, 0, final, after), num, k);
        StreamWalk(segs[1..], NextNum(num), final, after, k - 1);
      }
    }
  }

  lemma {:induction false} WalkFrom(segs: seq<seq<byte>>, num: nat, e: nat, final: byte, after: seq<byte>, k: nat, next: nat,
                                    m: nat)
    requires num < 8 && EndsScan(final) && next == NumAfter(num, e) && m == e + k
    ensures Walk(FromSegment(segs, num, e, final, after), next, k) == FromSegment(segs, num, m, final, after)
    decreases e
  {
    if e == 0 {
      StreamWalk(segs, num, final, after, k);
    } else if segs == [] {
      AfterFinal(final, after, next, k);
    } else {
      FromLater(segs, num, e - 1, final, after);
      FromLater(segs, num, m - 1, final, after);
      WalkFrom(segs[1..], NextNum(num), e - 1, final, after, k, next, m - 1);
    }
  }

  // What is found there.
  lemma SegmentFound(segs: seq<seq<byte>>, num: nat, k: nat, final: byte, after: seq<byte>)
    requires EndsScan(final)
    ensures Ends(FromSegment(segs, num, k, final, after))
    ensures k < |segs| ==> FoundAt(FromSegment(segs, num, k, final, after), segs[k])
  {
    if k < |segs| {
      StreamParse(segs[k..], NumAfter(num, k), final, after);
      BitsOfData(FromSegment(segs, num, k, final, after), segs[k]);
    }
  }

  // ---- Lost markers ----

  // The same stream without the markers after its first n segments.
  function Merged(segs: seq<seq<byte>>, num: nat, n: nat, final: byte, after: seq<byte>): seq<byte>
    requires n < |segs|
    decreases n
  {
    if n == 0 then Stream(segs, num, final, after)
    else Stuff(segs[0]) + Merged(segs[1..], NextNum(num), n - 1, final, after)
  }

  lemma ParseByte(b: byte, t: seq<byte>, more: seq<byte>)
    ensures Parse(Stuff([b] + t) + more) == Prepend(b, Parse(Stuff(t) + more))
  {
    StuffCons(b, t);
    Reassociate(StuffedByte(b), Stuff(t), more);
    ParseStuffedByte(b, Stuff(t) + more);
  }

  lemma {:induction false} ParseMerged(s: seq<byte>, more: seq<byte>)
    ensures Parse(Stuff(s) + more) == Segment(s + Parse(more).data, Parse(more).marker, Parse(more).after)
  {
    if s == [] {
      assert Stuff(s) + more == more && s + Parse(more).data == Parse(more).data;
    } else {
      var b, t := s[0], s[1..];
      assert s == [b] + t;
      ParseByte(b, t, more);
      ParseMerged(t, more);
      Reassociate([b], t, Parse(more).data);
    }
  }

  lemma {:induction false} MergedParse(segs: seq<seq<byte>>, num: nat, n: nat, final: byte, after: seq<byte>)
    requires n < |segs| && final != 0 && final != 0xFF
    ensures var last := NumAfter(num, n);
      Parse(Merged(segs, num, n, final, after)) ==
        Segment(Flat(segs[..n + 1]), EndOf(segs[n..], last, final), Beyond(segs[n..], last, final, after))
    decreases n
  {
    if n == 0 {
      StreamParse(segs, num, final, after);
      assert segs[0..] == segs && segs[..1][1..] == [] && segs[0] + [] == segs[0];
    } else {
      ParseMerged(segs[0], Merged(segs[1..], NextNum(num), n - 1, final, after));
      MergedParse(segs[1..], NextNum(num), n - 1, final, after);
      assert segs[1..][n - 1..] == segs[n..];
      assert segs[..n + 1][1..] == segs[1..][..n];
    }
  }

  // A marker up to two ahead of the one that is due, or one that ends the scan, is left unread.
  lemma Ahead(marker: byte, input: seq<byte>, desired: nat, e: nat)
    requires EndsScan(marker) || (desired < 8 && 1 <= e <= 2 && marker == Rst(NumAfter(desired, e)))
    ensures marker != 0 && AfterMarker(marker, input, desired) == NextSegment(marker, input, desired) == At(marker, input)
    ensures Resynced(marker, input, desired) == At(marker, input)
  {
    if !EndsScan(marker) {
      NumAhead(desired, e);
      RstAround(desired);
      RstAround(NumAfter(desired, e));
    }
  }

  lemma {:induction false} WaitsFor(marker: byte, input: seq<byte>, num: nat, e: nat, k: nat)
    requires num < 8 && (EndsScan(marker) || (k <= e <= 2 && marker == Rst(NumAfter(num, e))))
    ensures Walk(At(marker, input), num, k) == At(marker, input)
    decreases k
  {
    if k > 0 {
      Ahead(marker, input, num, e);
      WalkOn(At(marker, input), num, k);
      if EndsScan(marker) {
        AfterFinal(marker, input, NextNum(num), k - 1);
      } else {
        WaitsFor(marker, input, NextNum(num), e - 1, k - 1);
      }
    }
  }

  // The marker that is found after segments that are run together, and what it leads to when it is due.
  lemma MarkerThere(segs: seq<seq<byte>>, num: nat, n: nat, final: byte, after: seq<byte>, last: nat)
    requires 0 < n < |segs| && n <= 2 && num < 8 && EndsScan(final) && last == NumAfter(num, n)
    ensures var m := EndOf(segs[n..], last, final);
      && m != 0 && (EndsScan(m) || m == Rst(last)) && last < 8
      && AfterMarker(m, Beyond(segs[n..], last, final, after), num) == At(m, Beyond(segs[n..], last, final, after))
      && AfterMarker(m, Beyond(segs[n..], last, final, after), last) == FromSegment(segs, num, n + 1, final, after)
  {
    var later := segs[n..];
    NumBelow(num, n);
    CatchesUp(later, last, 0, final, after, last);
    Behind(last, 0, last, Beyond(later, last, final, after));
    SameSegment(segs, num, n, 1, final, after, n + 1);
    Ahead(EndOf(later, last, final), Beyond(later, last, final, after), num, n);
  }

  lemma MergedNext(segs: seq<seq<byte>>, num: nat, n: nat, final: byte, after: seq<byte>, m: byte, beyond: seq<byte>)
    requires 0 < n < |segs| && n <= 2 && num < 8 && EndsScan(final)
    requires var last := NumAfter(num, n);
      m == EndOf(segs[n..], last, final) && beyond == Beyond(segs[n..], last, final, after)
    ensures var input := Merged(segs, num, n, final, after);
      && Ends(At(0, input)) && BitsAt(At(0, input)) == BytesToBits(Flat(segs[..n + 1]))
      && NextSegment(0, input, num) == At(m, beyond)
  {
    var input := Merged(segs, num, n, final, after);
    MergedParse(segs, num, n, final, after);
    MarkerThere(segs, num, n, final, after, NumAfter(num, n));
    SegmentIs(input, num, Flat(segs[..n + 1]), m, beyond);
  }

  lemma SameSegment(segs: seq<seq<byte>>, num: nat, n: nat, e: nat, final: byte, after: seq<byte>, m: nat)
    requires n <= |segs| && m == n + e
    ensures FromSegment(segs[n..], NumAfter(num, n), e, final, after) == FromSegment(segs, num, m, final, after)
  {
    NumAfterMore(num, n, e, m);
    if m < |segs| {
      assert segs[n..][e..] == segs[m..];
    }
  }

  lemma {:induction false} NumAfterMore(num: nat, n: nat, e: nat, m: nat)
    requires m == n + e
    ensures NumAfter(NumAfter(num, n), e) == NumAfter(num, m)
    decreases n
  {
    if n > 0 {
      NumAfterMore(NextNum(num), n - 1, e, m - 1);
    }
  }

  // What a decoder finds in place of interval k if the markers after intervals i to i + n - 1 are lost: the
  // data of all that were run together at i, nothing in place of the others, and any other interval itself.
  predicate FoundWithout(segs: seq<seq<byte>>, i: nat, n: nat, k: nat, pos: Position)
    requires i + n < |segs| && k < |segs|
  {
    && Ends(pos) && (k <= i || k > i + n ==> pos.unread == 0)
    && BitsAt(pos) == if k < i || k > i + n then BytesToBits(segs[k])
                      else if k == i then BytesToBits(Flat(segs[i..i + n + 1])) else []
  }

  // The marker is found when it is due.
  lemma MarkerDue(m: byte, beyond: seq<byte>, num: nat, n: nat, last: nat, k: nat, goal: Position)
    requires 0 < n <= 2 && num < 8 && (EndsScan(m) || m == Rst(last)) && n < k
    requires last == NumAfter(num, n) && m != 0 && AfterMarker(m, beyond, last) == goal
    ensures Walk(At(m, beyond), NextNum(num), k - 1) == Walk(goal, NextNum(last), k - n - 1)
  {
    WaitsFor(m, beyond, NextNum(num), n - 1, n - 1);
    WalkFurther(At(m, beyond), NextNum(num), n - 1, k - n, k - 1);
    WalkOn(At(m, beyond), last, k - n);
  }

  lemma NothingThere(m: byte, beyond: seq<byte>)
    requires m != 0
    ensures Ends(At(m, beyond)) && BitsAt(At(m, beyond)) == []
  {
  }

  lemma AfterMerged(segs: seq<seq<byte>>, num: nat, n: nat, final: byte, after: seq<byte>, m: byte, beyond: seq<byte>,
                    k: nat)
    requires 0 < n < |segs| && n <= 2 && num < 8 && EndsScan(final) && 0 < k
    requires var last := NumAfter(num, n);
      m == EndOf(segs[n..], last, final) && beyond == Beyond(segs[n..], last, final, after)
    ensures m != 0
    ensures Walk(At(m, beyond), NextNum(num), k - 1) ==
      if k <= n then At(m, beyond) else FromSegment(segs, num, k, final, after)
  {
    var last := NumAfter(num, n);
    MarkerThere(segs, num, n, final, after, last);
    if k <= n {
      WaitsFor(m, beyond, NextNum(num), n - 1, k - 1);
    } else {
      MarkerDue(m, beyond, num, n, last, k, FromSegment(segs, num, n + 1, final, after));
      NumAfterStep(num, n);
      WalkFrom(segs, num, n + 1, final, after, k - n - 1, NextNum(last), k);
    }
  }

  lemma LostHere(segs: seq<seq<byte>>, num: nat, n: nat, final: byte, after: seq<byte>, k: nat)
    requires 0 < n < |segs| && n <= 2 && num < 8 && EndsScan(final) && k < |segs|
    ensures FoundWithout(segs, 0, n, k, Walk(At(0, Merged(segs, num, n, final, after)), num, k))
  {
    var last, input := NumAfter(num, n), Merged(segs, num, n, final, after);
    var m, beyond := EndOf(segs[n..], last, final), Beyond(segs[n..], last, final, after);
    MergedNext(segs, num, n, final, after, m, beyond);
    if k == 0 {
      assert segs[0..n + 1] == segs[..n + 1];
    } else {
      WalkOn(At(0, input), num, k);
      AfterMerged(segs, num, n, final, after, m, beyond, k);
      NothingThere(m, beyond);
      SegmentFound(segs, num, k, final, after);
    }
  }

  // The whole file without the n markers after intervals i to i + n - 1.
  function WithoutMarkers(segs: seq<seq<byte>>, num: nat, i: nat, n: nat, final: byte, after: seq<byte>): seq<byte>
    requires i + n < |segs|
  {
    Spliced(segs, num, i, Merged(segs[i..], NumAfter(num, i), n, final, after))
  }

  lemma FoundBefore(segs: seq<seq<byte>>, num: nat, i: nat, n: nat, tail: seq<byte>, k: nat)
    requires k < i && i + n < |segs|
    ensures FoundWithout(segs, i, n, k, Walk(At(0, Spliced(segs, num, i, tail)), num, k))
  {
    BeforeDamage(segs, num, i, tail, k);
  }

  // One or two restart markers in a row may be lost: the decoder waits for the next one until it is due.
  lemma LostMarkers(segs: seq<seq<byte>>, num: nat, i: nat, n: nat, final: byte, after: seq<byte>, k: nat)
    requires 1 <= n <= 2 && i + n < |segs| && k < |segs| && num < 8 && EndsScan(final)
    ensures FoundWithout(segs, i, n, k, Walk(At(0, WithoutMarkers(segs, num, i, n, final, after)), num, k))
  {
    var own, due := segs[i..], NumAfter(num, i);
    var tail := Merged(own, due, n, final, after);
    if k < i {
      FoundBefore(segs, num, i, n, tail, k);
    } else {
      var j := k - i;
      var pos := Walk(At(0, tail), due, j);
      AtDamage(segs, num, i, tail, k, WithoutMarkers(segs, num, i, n, final, after), due, j);
      LostHere(own, due, n, final, after, j);
      FoundFurther(segs, own, i, n, k, j, pos);
    }
  }

  lemma FoundFurther(segs: seq<seq<byte>>, own: seq<seq<byte>>, i: nat, n: nat, k: nat, j: nat, pos: Position)
    requires i + n < |segs| && i <= k < |segs| && own == segs[i..] && j == k - i && FoundWithout(own, 0, n, j, pos)
    ensures FoundWithout(segs, i, n, k, pos)
  {
    assert own[j] == segs[k];
    assert own[0..n + 1] == segs[i..i + n + 1];
  }

  // A restart marker three to five away from the one that is due is taken for a damaged one.
  lemma FarAway(num: nat, d: nat, desired: nat, input: seq<byte>)
    requires desired < 8 && 3 <= d <= 5 && num == NumAfter(desired, d)
    ensures AfterMarker(Rst(num), input, desired) == At(0, input)
  {
    NumAhead(desired, d);
    RstAround(desired);
    RstAround(num);
  }

  // So after the loss of three to five markers in a row the decoder goes on too early, and stays out of
  // step: in place of the k-th interval it finds the one that is so many later.
  lemma {:induction false} OutOfStep(segs: seq<seq<byte>>, num: nat, d: nat, final: byte, after: seq<byte>, desired: nat, k: nat)
    requires k < |segs| && desired < 8 && 3 <= d <= 5 && num == NumAfter(desired, d)
    requires final != 0 && final != 0xFF
    ensures Walk(At(0, Stream(segs, num, final, after)), desired, k) == At(0, Stream(segs[k..], NumAfter(num, k), final, after))
    decreases k
  {
    if k == 0 {
      assert segs[0..] == segs;
    } else {
      var input, later := Stream(segs, num, final, after), Stream(segs[1..], NextNum(num), final, after);
      StreamParse(segs, num, final, after);
      SegmentIs(input, desired, segs[0], Rst(num), later);
      FarAway(num, d, desired, later);
      NumAfterStep(desired, d);
      WalkOn(At(0, input), desired, k);
      OutOfStep(segs[1..], NextNum(num), d, final, after, NextNum(desired), k - 1);
      assert segs[1..][k - 1..] == segs[k..];
    }
  }

  lemma TooManyHere(own: seq<seq<byte>>, due: nat, n: nat, final: byte, after: seq<byte>, k: nat, later: seq<seq<byte>>, next: nat)
    requires 3 <= n <= 5 && n + 1 < |own| && due < 8 && final != 0 && final != 0xFF
    requires later == own[n + 1..] && next == NumAfter(due, n + 1) && k < |later|
    ensures Walk(At(0, Merged(own, due, n, final, after)), due, k + 1) == At(0, Stream(later[k..], NumAfter(next, k), final, after))
  {
    var input, last := Merged(own, due, n, final, after), NumAfter(due, n);
    NumAfterStep(due, n);
    assert own[n..][1..] == later;
    MergedParse(own, due, n, final, after);
    SegmentIs(input, due, Flat(own[..n + 1]), Rst(last), Stream(later, next, final, after));
    FarAway(last, n, due, Stream(later, next, final, after));
    WalkOn(At(0, input), due, k + 1);
    OutOfStep(later, next, n, final, after, NextNum(due), k);
  }

  // The place after the next, counted in three ways.
  lemma SamePlace(segs: seq<seq<byte>>, num: nat, i: nat, n: nat, e: nat, j: nat, m: nat)
    requires e == i + n + 1 && m == e + j && m < |segs|
    ensures segs[i..][n + 1..] == segs[e..] && segs[e..][j..] == segs[m..]
    ensures NumAfter(NumAfter(num, i), n + 1) == NumAfter(num, e) && NumAfter(NumAfter(num, e), j) == NumAfter(num, m)
  {
    NumAfterMore(num, i, n + 1, e);
    NumAfterMore(num, e, j, m);
  }

  lemma TooManyBehind(segs: seq<seq<byte>>, num: nat, i: nat, n: nat, final: byte, after: seq<byte>, k: nat,
                      own: seq<seq<byte>>, due: nat, tail: seq<byte>, input: seq<byte>, e: nat, j: nat, m: nat)
    requires 3 <= n <= 5 && m < |segs| && num < 8 && final != 0 && final != 0xFF
    requires e == i + n + 1 && m == e + j == k + n && own == segs[i..] && due == NumAfter(num, i)
    requires tail == Merged(own, due, n, final, after) && input == Spliced(segs, num, i, tail)
    ensures Walk(At(0, input), num, k) == At(0, Stream(segs[m..], NumAfter(num, m), final, after))
  {
    AtDamage(segs, num, i, tail, k, input, due, j + 1);
    SamePlace(segs, num, i, n, e, j, m);
    TooManyHere(own, due, n, final, after, j, segs[e..], NumAfter(num, e));
  }

  lemma TooManyLost(segs: seq<seq<byte>>, num: nat, i: nat, n: nat, final: byte, after: seq<byte>, k: nat)
    requires 3 <= n <= 5 && i < k && k + n < |segs| && num < 8 && final != 0 && final != 0xFF
    ensures Walk(At(0, WithoutMarkers(segs, num, i, n, final, after)), num, k) ==
      At(0, Stream(segs[k + n..], NumAfter(num, k + n), final, after))
  {
    var own, due := segs[i..], NumAfter(num, i);
    var tail := Merged(own, due, n, final, after);
    TooManyBehind(segs, num, i, n, final, after, k, own, due, tail, Spliced(segs, num, i, tail), i + n + 1, k - i - 1, k + n);
  }

  // ---- Markers too many ----

  // A marker that is passed over: no marker code at all, or a restart marker up to two behind the one due.
  predicate PassedOver(code: byte, due: nat) {
    code != 0 && (code < SOF0 || code == Rst(due + 7) || code == Rst(due + 6))
  }

  lemma PassesOver(code: byte, due: nat, input: seq<byte>, data: seq<byte>, marker: byte, later: seq<byte>)
    requires due < 8 && PassedOver(code, due) && Parse(input) == Segment(data, marker, later) && marker != 0
    ensures AfterMarker(code, input, due) == Resynced(marker, later, due)
  {
    RstAround(due);
  }

  // The data of a segment, then bytes that do not belong there, then what should follow the data.
  function Inserted(segs: seq<seq<byte>>, num: nat, stray: seq<byte>, final: byte, after: seq<byte>): seq<byte>
    requires segs != []
  {
    Stuff(segs[0]) + (stray + ([0xFF, EndOf(segs, num, final)] + Beyond(segs, num, final, after)))
  }

  function Stray(code: byte, data: seq<byte>): seq<byte> {
    [0xFF, code] + Stuff(data)
  }

  lemma InsertedNext(segs: seq<seq<byte>>, num: nat, code: byte, data: seq<byte>, final: byte, after: seq<byte>, input: seq<byte>)
    requires segs != [] && num < 8 && PassedOver(code, num) && EndsScan(final)
    requires input == Inserted(segs, num, Stray(code, data), final, after)
    ensures Ends(At(0, input)) && BitsAt(At(0, input)) == BytesToBits(segs[0])
    ensures NextSegment(0, input, num) == FromSegment(segs, num, 1, final, after)
  {
    var m, beyond := EndOf(segs, num, final), Beyond(segs, num, final, after);
    var rest := Stuff(data) + ([0xFF, m] + beyond);
    Reassociate([0xFF, code], Stuff(data), [0xFF, m] + beyond);
    ParseStuffed(data, m, beyond);
    RstAround(num);
    ParseStuffed(segs[0], code, rest);
    SegmentIs(input, num, segs[0], code, rest);
    PassesOver(code, num, rest, data, m, beyond);
    CatchesUp(segs, num, 0, final, after, num);
  }

  // The whole file with a marker too many after the data of interval i, and some data after it.
  function WithStray(segs: seq<seq<byte>>, num: nat, i: nat, code: byte, data: seq<byte>, final: byte, after: seq<byte>)
    : seq<byte>
    requires i < |segs|
  {
    Spliced(segs, num, i, Inserted(segs[i..], NumAfter(num, i), Stray(code, data), final, after))
  }

  // A decoder that finds the second segment next is in step again.
  lemma InStep(own: seq<seq<byte>>, due: nat, final: byte, after: seq<byte>, input: seq<byte>, j: nat)
    requires 0 < j && due < 8 && EndsScan(final)
    requires NextSegment(0, input, due) == FromSegment(own, due, 1, final, after)
    ensures Walk(At(0, input), due, j) == FromSegment(own, due, j, final, after)
  {
    WalkOn(At(0, input), due, j);
    WalkFrom(own, due, 1, final, after, j - 1, NextNum(due), j);
  }

  lemma StrayPassed(own: seq<seq<byte>>, due: nat, code: byte, data: seq<byte>, final: byte, after: seq<byte>,
                    tail: seq<byte>, j: nat)
    requires own != [] && due < 8 && EndsScan(final) && PassedOver(code, due)
    requires tail == Inserted(own, due, Stray(code, data), final, after)
    ensures j > 0 ==> Walk(At(0, tail), due, j) == FromSegment(own, due, j, final, after)
    ensures FoundAt(At(0, tail), own[0])
  {
    InsertedNext(own, due, code, data, final, after, tail);
    if j > 0 {
      InStep(own, due, final, after, tail, j);
    }
  }

  lemma StrayBehind(segs: seq<seq<byte>>, num: nat, i: nat, code: byte, data: seq<byte>, final: byte, after: seq<byte>,
                    k: nat, own: seq<seq<byte>>, due: nat, tail: seq<byte>, input: seq<byte>, j: nat)
    requires i < |segs| && i <= k && num < 8 && EndsScan(final) && PassedOver(code, due)
    requires own == segs[i..] && due == NumAfter(num, i) && j == k - i
    requires tail == Inserted(own, due, Stray(code, data), final, after) && input == Spliced(segs, num, i, tail)
    ensures Walk(At(0, input), num, k) == if j == 0 then At(0, tail) else FromSegment(segs, num, k, final, after)
  {
    AtDamage(segs, num, i, tail, k, input, due, j);
    if j > 0 {
      StrayPassed(own, due, code, data, final, after, tail, j);
      SameSegment(segs, num, i, j, final, after, k);
    }
  }

  // Each interval is found where it is.
  lemma StrayMarker(segs: seq<seq<byte>>, num: nat, i: nat, code: byte, data: seq<byte>, final: byte, after: seq<byte>, k: nat)
    requires i < |segs| && k < |segs| && num < 8 && EndsScan(final) && PassedOver(code, NumAfter(num, i))
    ensures FoundAt(Walk(At(0, WithStray(segs, num, i, code, data, final, after)), num, k), segs[k])
  {
    var own, due := segs[i..], NumAfter(num, i);
    var tail := Inserted(own, due, Stray(code, data), final, after);
    if k < i {
      BeforeDamage(segs, num, i, tail, k);
    } else {
      StrayBehind(segs, num, i, code, data, final, after, k, own, due, tail, Spliced(segs, num, i, tail), k - i);
      NumBelow(num, i);
      StrayPassed(own, due, code, data, final, after, tail, 0);
      SegmentFound(segs, num, k, final, after);
    }
  }

  // ---- A wrong marker ----

  // The whole file with another marker after interval i.
  function WithMarker(segs: seq<seq<byte>>, num: nat, i: nat, code: byte, final: byte, after: seq<byte>): seq<byte>
    requires i + 1 < |segs|
  {
    Spliced(segs, num, i, Replaced(segs[i..], NumAfter(num, i), code, final, after))
  }

  function Replaced(segs: seq<seq<byte>>, num: nat, code: byte, final: byte, after: seq<byte>): seq<byte>
    requires |segs| > 1
  {
    Stuff(segs[0]) + ([0xFF, code] + Stream(segs[1..], NextNum(num), final, after))
  }

  lemma ReplacedNext(own: seq<seq<byte>>, due: nat, code: byte, final: byte, after: seq<byte>, tail: seq<byte>, first: seq<byte>)
    requires |own| > 1 && code != 0 && code != 0xFF
    requires tail == Replaced(own, due, code, final, after) && first == Stream(own[1..], NextNum(due), final, after)
    ensures FoundAt(At(0, tail), own[0]) && NextSegment(0, tail, due) == AfterMarker(code, first, due)
    ensures At(0, first) == FromSegment(own, due, 1, final, after)
  {
    ParseStuffed(own[0], code, first);
    SegmentIs(tail, due, own[0], code, first);
    assert NumAfter(due, 1) == NextNum(due);
  }

  // The right marker, or one that cannot be another one's.
  predicate TakenFor(code: byte, due: nat) {
    RST0 <= code <= RST7 && code != Rst(due + 1) && code != Rst(due + 2) && code != Rst(due + 6) && code != Rst(due + 7)
  }

  lemma TakenMarker(own: seq<seq<byte>>, due: nat, code: byte, final: byte, after: seq<byte>, tail: seq<byte>, j: nat)
    requires |own| > 1 && 0 < j && due < 8 && EndsScan(final) && TakenFor(code, due)
    requires tail == Replaced(own, due, code, final, after)
    ensures Walk(At(0, tail), due, j) == FromSegment(own, due, j, final, after)
  {
    var first := Stream(own[1..], NextNum(due), final, after);
    ReplacedNext(own, due, code, final, after, tail, first);
    assert AfterMarker(code, first, due) == At(0, first);
    InStep(own, due, final, after, tail, j);
  }

  // A marker that is passed over: the next one is left unread until it is due.
  lemma MissedMarker(own: seq<seq<byte>>, due: nat, code: byte, final: byte, after: seq<byte>, tail: seq<byte>, j: nat)
    requires |own| > 1 && 0 < j && due < 8 && EndsScan(final) && PassedOver(code, due)
    requires tail == Replaced(own, due, code, final, after)
    ensures var later, next := own[1..], NextNum(due);
      var m, beyond := EndOf(later, next, final), Beyond(later, next, final, after);
      && m != 0
      && Walk(At(0, tail), due, j) == if j == 1 then At(m, beyond) else FromSegment(own, due, j, final, after)
  {
    var later, next := own[1..], NextNum(due);
    var first, m, beyond := Stream(later, next, final, after), EndOf(later, next, final), Beyond(later, next, final, after);
    RstAround(due);
    StreamParse(later, next, final, after);
    ReplacedNext(own, due, code, final, after, tail, first);
    PassesOver(code, due, first, later[0], m, beyond);
    assert NumAfter(due, 1) == next;
    Ahead(m, beyond, due, 1);
    WalkOn(At(0, tail), due, j);
    if j > 1 {
      MissedOne(own, due, final, after, later, next, m, beyond);
      WalkOn(At(m, beyond), next, j - 1);
      WalkFrom(own, due, 2, final, after, j - 2, NextNum(next), j);
    }
  }

  lemma MissedOne(own: seq<seq<byte>>, due: nat, final: byte, after: seq<byte>, later: seq<seq<byte>>, next: nat, m: byte, beyond: seq<byte>)
    requires |own| > 1 && due < 8 && EndsScan(final) && later == own[1..] && next == NextNum(due)
    requires m == EndOf(later, next, final) && beyond == Beyond(later, next, final, after)
    ensures NextSegment(m, beyond, next) == FromSegment(own, due, 2, final, after) && NumAfter(due, 2) == NextNum(next)
  {
    CatchesUp(later, next, 0, final, after, next);
    Behind(next, 0, next, beyond);
    FromLater(own, due, 1, final, after);
    NumAfterStep(due, 1);
  }

  // A marker that is taken for a later one is left unread until that one is due; then the decoder has the
  // data of the next interval before it, too late, and skips the ones after it up to the marker due then.
  lemma EarlyMarker(own: seq<seq<byte>>, due: nat, e: nat, code: byte, final: byte, after: seq<byte>, tail: seq<byte>,
                    first: seq<byte>, j: nat)
    requires |own| > 1 && 0 < j && due < 8 && EndsScan(final) && 1 <= e <= 2 && code == Rst(NumAfter(due, e))
    requires tail == Replaced(own, due, code, final, after) && first == Stream(own[1..], NextNum(due), final, after)
    ensures code != 0 && Ends(At(0, first))
    ensures Walk(At(0, tail), due, j) ==
      if j <= e then At(code, first) else if j == e + 1 then At(0, first) else FromSegment(own, due, j, final, after)
  {
    var last := NumAfter(due, e);
    NumBelow(due, e);
    RstAround(last);
    ReplacedNext(own, due, code, final, after, tail, first);
    SegmentFound(own, due, 1, final, after);
    Ahead(code, first, due, e);
    WalkOn(At(0, tail), due, j);
    if j <= e {
      WaitsFor(code, first, NextNum(due), e - 1, j - 1);
    } else {
      Behind(last, 0, last, first);
      MarkerDue(code, first, due, e, last, j, At(0, first));
      if j > e + 1 {
        SkippedUp(own, due, e, final, after, first, NextNum(last), j);
      }
    }
  }

  lemma SkippedUp(own: seq<seq<byte>>, due: nat, e: nat, final: byte, after: seq<byte>, first: seq<byte>, num: nat, j: nat)
    requires |own| > 1 && due < 8 && EndsScan(final) && 1 <= e <= 2 && j > e + 1
    requires first == Stream(own[1..], NextNum(due), final, after) && num == NextNum(NumAfter(due, e))
    ensures Walk(At(0, first), num, j - e - 1) == FromSegment(own, due, j, final, after)
  {
    NumAfterStep(due, e);
    AfterSegment(own[1..], NextNum(due), e, final, after, num);
    FromLater(own, due, e + 1, final, after);
    WalkOn(At(0, first), num, j - e - 1);
    NumAfterStep(due, e + 1);
    WalkFrom(own, due, e + 2, final, after, j - e - 2, NextNum(num), j);
  }

  // How many intervals are lost after it: none if the marker is too far from the one due to be taken for
  // another one; one if it is passed over, since the next marker is then the one after; and if it is taken
  // for a later one, those that the decoder waits for it, and one that it then has to skip.
  function LostAfter(code: byte, due: nat): nat {
    if code == Rst(due + 1) then 2
    else if code == Rst(due + 2) then 3
    else if PassedOver(code, due) then 1
    else 0
  }

  // Where the j-th interval after it is looked for.
  ghost predicate WrongThere(own: seq<seq<byte>>, due: nat, code: byte, final: byte, after: seq<byte>, j: nat, pos: Position) {
    Ends(pos) && (j > LostAfter(code, due) && !EndsScan(code) ==> pos == FromSegment(own, due, j, final, after))
  }

  lemma EarlyHere(own: seq<seq<byte>>, due: nat, e: nat, code: byte, final: byte, after: seq<byte>, tail: seq<byte>, j: nat)
    requires |own| > 1 && due < 8 && EndsScan(final) && 1 <= e <= 2 && code == Rst(due + e) && j > 0
    requires tail == Replaced(own, due, code, final, after)
    ensures WrongThere(own, due, code, final, after, j, Walk(At(0, tail), due, j))
  {
    NumAhead(due, e);
    RstAround(due);
    RstAround(NumAfter(due, e));
    EarlyMarker(own, due, e, code, final, after, tail, Stream(own[1..], NextNum(due), final, after), j);
    SegmentFound(own, due, j, final, after);
  }

  lemma FinalHere(own: seq<seq<byte>>, due: nat, code: byte, final: byte, after: seq<byte>, tail: seq<byte>, j: nat)
    requires |own| > 1 && due < 8 && EndsScan(code) && j > 0
    requires tail == Replaced(own, due, code, final, after)
    ensures Ends(Walk(At(0, tail), due, j))
  {
    var first := Stream(own[1..], NextNum(due), final, after);
    ReplacedNext(own, due, code, final, after, tail, first);
    Ahead(code, first, due, 1);
    WalkOn(At(0, tail), due, j);
    AfterFinal(code, first, NextNum(due), j - 1);
  }

  lemma WrongHere(own: seq<seq<byte>>, due: nat, code: byte, final: byte, after: seq<byte>, tail: seq<byte>, j: nat)
    requires |own| > 1 && due < 8 && EndsScan(final) && code != 0 && code != 0xFF && j > 0
    requires tail == Replaced(own, due, code, final, after)
    ensures WrongThere(own, due, code, final, after, j, Walk(At(0, tail), due, j))
  {
    if EndsScan(code) {
      FinalHere(own, due, code, final, after, tail, j);
    } else if code == Rst(due + 1) {
      EarlyHere(own, due, 1, code, final, after, tail, j);
    } else if code == Rst(due + 2) {
      EarlyHere(own, due, 2, code, final, after, tail, j);
    } else {
      SegmentFound(own, due, j, final, after);
      if PassedOver(code, due) {
        MissedMarker(own, due, code, final, after, tail, j);
      } else {
        TakenMarker(own, due, code, final, after, tail, j);
      }
    }
  }

  // A wrong marker between two intervals costs at most three of them, unless it ends the scan.
  lemma WrongMarker(segs: seq<seq<byte>>, num: nat, i: nat, code: byte, final: byte, after: seq<byte>, k: nat)
    requires i + 1 < |segs| && k < |segs| && num < 8 && EndsScan(final) && code != 0 && code != 0xFF
    ensures var pos := Walk(At(0, WithMarker(segs, num, i, code, final, after)), num, k);
      && Ends(pos)
      && (k <= i || (!EndsScan(code) && k > i + LostAfter(code, NumAfter(num, i))) ==> FoundAt(pos, segs[k]))
  {
    var own, due := segs[i..], NumAfter(num, i);
    var tail := Replaced(own, due, code, final, after);
    if k < i {
      BeforeDamage(segs, num, i, tail, k);
    } else {
      WrongBehind(segs, num, i, code, final, after, k, own, due, tail, Spliced(segs, num, i, tail), k - i);
      SegmentFound(segs, num, k, final, after);
    }
  }

  lemma WrongBehind(segs: seq<seq<byte>>, num: nat, i: nat, code: byte, final: byte, after: seq<byte>, k: nat,
                    own: seq<seq<byte>>, due: nat, tail: seq<byte>, input: seq<byte>, j: nat)
    requires i + 1 < |segs| && i <= k && num < 8 && EndsScan(final) && code != 0 && code != 0xFF
    requires own == segs[i..] && due == NumAfter(num, i) && j == k - i
    requires tail == Replaced(own, due, code, final, after) && input == Spliced(segs, num, i, tail)
    ensures Ends(Walk(At(0, input), num, k))
    ensures k == i ==> FoundAt(Walk(At(0, input), num, k), segs[i])
    ensures k > i + LostAfter(code, due) && !EndsScan(code) ==>
      Walk(At(0, input), num, k) == FromSegment(segs, num, k, final, after)
  {
    AtDamage(segs, num, i, tail, k, input, due, j);
    if j == 0 {
      ReplacedNext(own, due, code, final, after, tail, Stream(own[1..], NextNum(due), final, after));
    } else {
      WrongHere(own, due, code, final, after, tail, j);
      SameSegment(segs, num, i, j, final, after, k);
    }
  }
}
