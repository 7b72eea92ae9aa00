// What becomes of the restart intervals of a scan whose bytes are damaged on the way: each of them is
// lost only if the damage concerns it.
module DamagedStream {
  import opened Numerals
  import opened CanonicalCode
  import opened BitWriter
  import opened RestartStream
  import opened RestartReader
  import opened RestartIntervals
  import opened RestartRecovery

  const EOI: byte := 0xD9

  // The data of an interval is replaced by other data; the n restart markers after interval i are lost,
  // with what is before them run together; a marker and some data too many come after the data of an
  // interval; the restart marker after one is another; the file breaks off within one, and the source
  // manager makes up the end of the image.
  datatype Damage = Intact | DataLost(i: nat, data: seq<byte>) | MarkersLost(i: nat, n: nat)
    | MarkerAdded(i: nat, code: byte, data: seq<byte>) | MarkerChanged(i: nat, code: byte) | CutOff(i: nat, data: seq<byte>)

  predicate Possible(d: Damage, intervals: nat) {
    match d
    case Intact => true
    case DataLost(i, _) => i < intervals
    case MarkersLost(i, n) => 1 <= n <= 2 && i + n < intervals
    case MarkerAdded(i, code, _) => i < intervals && PassedOver(code, NumAfter(0, i))
    case MarkerChanged(i, code) => i + 1 < intervals && code != 0 && code != 0xFF
    case CutOff(i, _) => i < intervals
  }

  predicate Survives(d: Damage, k: nat) {
    match d
    case Intact => true
    case DataLost(i, _) => k != i
    case MarkersLost(i, n) => k <= i || k > i + n
    case MarkerAdded(_, _, _) => true
    case MarkerChanged(i, code) => k <= i || (!EndsScan(code) && k > i + LostAfter(code, NumAfter(0, i)))
    case CutOff(i, _) => k < i
  }

  // The bytes that arrive.
  function Damaged(segs: seq<seq<byte>>, final: byte, after: seq<byte>, d: Damage): seq<byte>
    requires segs != [] && Possible(d, |segs|)
  {
    match d
    case Intact => Stream(segs, 0, final, after)
    case DataLost(i, data) => Stream(segs[i := data], 0, final, after)
    case MarkersLost(i, n) => WithoutMarkers(segs, 0, i, n, final, after)
    case MarkerAdded(i, code, data) => WithStray(segs, 0, i, code, data, final, after)
    case MarkerChanged(i, code) => WithMarker(segs, 0, i, code, final, after)
    case CutOff(i, data) => Stream(segs[..i] + [data], 0, EOI, after)
  }

  predicate Received(intervals: nat, d: Damage, final: byte) {
    && Possible(d, intervals) && final != 0 && final != 0xFF
    && (d.MarkersLost? || d.MarkerAdded? || d.MarkerChanged? ==> EndsScan(final))
  }

  // A decoder that starts the interval here finds its bits, whatever may follow them.
  predicate Found(pos: Position, data: seq<byte>) {
    pos.At? && pos.unread == 0 && BytesToBits(data) <= BitsAt(pos)
  }

  lemma {:induction false} BytesToBitsAppend(s: seq<byte>, t: seq<byte>)
    ensures BytesToBits(s + t) == BytesToBits(s) + BytesToBits(t)
  {
    if t == [] {
      assert s + t == s && BytesToBits(s) + [] == BytesToBits(s);
    } else {
      var init, last := t[..|t| - 1], t[|t| - 1];
      assert s + t == (s + init) + [last] && t == init + [last];
      BytesToBitsAppend(s, init);
      BytesToBitsSnoc(s + init, last);
      BytesToBitsSnoc(init, last);
      Reassociate(BytesToBits(s), BytesToBits(init), ToBits(last, BYTE_BITS));
    }
  }

  // After markers that are lost.
  lemma FoundApart(segs: seq<seq<byte>>, i: nat, n: nat, k: nat, pos: Position)
    requires i + n < |segs| && k < |segs| && FoundWithout(segs, i, n, k, pos) && (k <= i || k > i + n)
    ensures Found(pos, segs[k])
  {
    if k == i {
      var run, later := segs[i..i + n + 1], Flat(segs[i..i + n + 1][1..]);
      assert Flat(run) == segs[i] + later;
      BytesToBitsAppend(segs[i], later);
    }
  }

  lemma BrokenOff(segs: seq<seq<byte>>, after: seq<byte>, k: nat)
    requires segs != []
    ensures Ends(Walk(At(0, Stream(segs, 0, EOI, after)), 0, k))
    ensures k < |segs| ==> FoundAt(Walk(At(0, Stream(segs, 0, EOI, after)), 0, k), segs[k])
  {
    assert segs[0..] == segs;
    StreamWalk(segs, 0, EOI, after, k);
    SegmentFound(segs, 0, k, EOI, after);
  }

  // Damage stays where it is: all other intervals are found, and the input suffices for all of them.
  lemma DamageContained(segs: seq<seq<byte>>, final: byte, after: seq<byte>, d: Damage, k: nat)
    requires Received(|segs|, d, final) && k < |segs|
    ensures var pos := Walk(At(0, Damaged(segs, final, after, d)), 0, k);
      Ends(pos) && (Survives(d, k) ==> Found(pos, segs[k]))
  {
    match d
    case Intact =>
      IntactBits(segs, 0, final, after, k);
    case DataLost(i, data) =>
      IntactBits(segs[i := data], 0, final, after, k);
    case MarkersLost(i, n) =>
      LostMarkers(segs, 0, i, n, final, after, k);
      if Survives(d, k) {
        FoundApart(segs, i, n, k, Walk(At(0, WithoutMarkers(segs, 0, i, n, final, after)), 0, k));
      }
    case MarkerAdded(i, code, data) =>
      StrayMarker(segs, 0, i, code, data, final, after, k);
    case MarkerChanged(i, code) =>
      WrongMarker(segs, 0, i, code, final, after, k);
    case CutOff(i, data) =>
      BrokenOff(segs[..i] + [data], after, k);
  }

  lemma DamageSupplied(segs: seq<seq<byte>>, final: byte, after: seq<byte>, d: Damage)
    requires segs != [] && Received(|segs|, d, final)
    ensures AllThere(At(0, Damaged(segs, final, after, d)), 0, |segs|)
  {
    forall k | 0 <= k < |segs|
      ensures Ends(Walk(At(0, Damaged(segs, final, after, d)), 0, k))
    {
      DamageContained(segs, final, after, d, k);
    }
  }
}
