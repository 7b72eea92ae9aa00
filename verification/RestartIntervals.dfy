// A scan in restart intervals: segments of data with restart markers between them, and where a decoder
// finds each of them in an intact file.
module RestartIntervals {
  import opened Numerals
  import opened ByteStuffing
  import opened CanonicalCode
  import opened BitWriter
  import opened BitReader
  import opened RestartStream
  import opened RestartReader

  // Where a decoder starts the k-th interval from a position, having read any part of those before.
  function Walk(pos: Position, num: nat, k: nat): Position
    decreases k
  {
    if k == 0 || pos.Lost? then pos else Walk(NextSegment(pos.unread, pos.input, num), NextNum(num), k - 1)
  }

  // The bits that it finds there.
  function BitsAt(pos: Position): seq<bit>
    requires pos.At?
  {
    Remaining([], pos.input, pos.unread)
  }

  lemma BitsOfData(pos: Position, data: seq<byte>)
    requires pos.At? && pos.unread == 0 && Parse(pos.input).data == data
    ensures BitsAt(pos) == BytesToBits(data)
  {
    NothingBefore(BytesToBits(data));
  }

  // All the input that a decoder of so many intervals asks for is there.
  predicate AllThere(pos: Position, num: nat, intervals: nat) {
    forall k :: 0 <= k < intervals ==> Ends(Walk(pos, num, k))
  }

  // A segment that a marker ends.
  predicate Ends(pos: Position) {
    pos.At? && Ending(pos.unread, pos.input).0 != 0
  }

  lemma WalkOn(pos: Position, num: nat, k: nat)
    requires pos.At? && k > 0
    ensures Walk(pos, num, k) == Walk(NextSegment(pos.unread, pos.input, num), NextNum(num), k - 1)
  {
  }

  lemma {:induction false} WalkStep(pos: Position, num: nat, k: nat)
    requires Walk(pos, num, k).At?
    ensures Walk(pos, num, k + 1) == NextSegment(Walk(pos, num, k).unread, Walk(pos, num, k).input, NumAfter(num, k))
    ensures NumAfter(num, k + 1) == NextNum(NumAfter(num, k))
    decreases k
  {
    if k > 0 {
      WalkStep(NextSegment(pos.unread, pos.input, num), NextNum(num), k - 1);
    }
  }

  lemma {:induction false} WalkFurther(pos: Position, num: nat, j: nat, k: nat, m: nat)
    requires Walk(pos, num, j).At? && m == j + k
    ensures Walk(pos, num, m) == Walk(Walk(pos, num, j), NumAfter(num, j), k)
    decreases j
  {
    if j > 0 {
      WalkFurther(NextSegment(pos.unread, pos.input, num), NextNum(num), j - 1, k, m - 1);
    }
  }

  // ---- An intact file ----

  lemma StreamParse(segs: seq<seq<byte>>, num: nat, final: byte, after: seq<byte>)
    requires segs != [] && final != 0 && final != 0xFF
    ensures Parse(Stream(segs, num, final, after)) ==
      if |segs| == 1 then Segment(segs[0], final, after)
      else Segment(segs[0], Rst(num), Stream(segs[1..], NextNum(num), final, after))
  {
    if |segs| == 1 {
      ParseStuffed(segs[0], final, after);
    } else {
      ParseStuffed(segs[0], Rst(num), Stream(segs[1..], NextNum(num), final, after));
    }
  }

  // Whatever the data are, each interval is found where it is.
  lemma {:induction false} IntactStream(segs: seq<seq<byte>>, num: nat, final: byte, after: seq<byte>, k: nat)
    requires k < |segs| && final != 0 && final != 0xFF
    ensures Walk(At(0, Stream(segs, num, final, after)), num, k) == At(0, Stream(segs[k..], NumAfter(num, k), final, after))
    decreases k
  {
    if k == 0 {
      assert segs[0..] == segs;
    } else {
      StreamParse(segs, num, final, after);
      IntactStream(segs[1..], NextNum(num), final, after, k - 1);
      assert segs[1..][k - 1..] == segs[k..];
    }
  }

  lemma IntactBits(segs: seq<seq<byte>>, num: nat, final: byte, after: seq<byte>, k: nat)
    requires k < |segs| && final != 0 && final != 0xFF
    ensures var pos := Walk(At(0, Stream(segs, num, final, after)), num, k);
      pos.At? && pos.unread == 0 && BitsAt(pos) == BytesToBits(segs[k]) && Ending(pos.unread, pos.input).0 != 0
  {
    IntactStream(segs, num, final, after, k);
    StreamParse(segs[k..], NumAfter(num, k), final, after);
    BitsOfData(At(0, Stream(segs[k..], NumAfter(num, k), final, after)), segs[k]);
  }
}
