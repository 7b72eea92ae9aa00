// Byte stuffing of entropy-coded segments: a data byte 0xFF is followed by 0x00, and 0xFF followed
// by any other byte is a marker.  Writers: jcarith.c, jchuff.c.  Readers: jdarith.c, jdhuff.c.
module ByteStuffing {
  import opened Numerals

  function StuffedByte(b: byte): seq<byte> {
    if b == 255 then [255, 0] else [b]
  }

  function Stuff(s: seq<byte>): seq<byte> {
    if s == [] then [] else Stuff(s[..|s| - 1]) + StuffedByte(s[|s| - 1])
  }

  // The data bytes of an input up to its first marker, and what comes after that; marker is 0 if the
  // input ends before one.
  datatype Segment = Segment(data: seq<byte>, marker: byte, after: seq<byte>)

  function Prepend(b: byte, seg: Segment): Segment {
    Segment([b] + seg.data, seg.marker, seg.after)
  }

  function Parse(input: seq<byte>): (seg: Segment)
    ensures |seg.after| < |input| || seg.marker == 0
  {
    if input == [] then Segment([], 0, [])
    else if input[0] == 255 then ParseAfterFF(input[1..])
    else Prepend(input[0], Parse(input[1..]))
  }

  // Both readers swallow repeated 0xFF bytes before looking at what follows.
  function ParseAfterFF(input: seq<byte>): (seg: Segment)
    ensures |seg.after| < |input| || seg.marker == 0
  {
    if input == [] then Segment([], 0, [])
    else if input[0] == 255 then ParseAfterFF(input[1..])
    else if input[0] == 0 then Prepend(255, Parse(input[1..]))
    else Segment([], input[0], input[1..])
  }

  lemma StuffSnoc(s: seq<byte>, b: byte)
    ensures Stuff(s + [b]) == Stuff(s) + StuffedByte(b)
  {
    assert (s + [b])[..|s|] == s;
  }

  lemma {:induction false} StuffCons(b: byte, s: seq<byte>)
    ensures Stuff([b] + s) == StuffedByte(b) + Stuff(s)
  {
    if s == [] {
      assert [b] + s == [] + [b];
      StuffSnoc([], b);
    } else {
      var init, last := s[..|s| - 1], s[|s| - 1];
      assert [b] + s == ([b] + init) + [last];
      StuffSnoc([b] + init, last);
      StuffCons(b, init);
    }
  }

  // Every 0xFF of stuffed data is followed by 0x00, so a marker cannot appear inside it.
  lemma {:induction false} StuffedHasNoMarker(s: seq<byte>, i: nat)
    requires i < |Stuff(s)| && Stuff(s)[i] == 255
    ensures i + 1 < |Stuff(s)| && Stuff(s)[i + 1] == 0
  {
    var init := Stuff(s[..|s| - 1]);
    if i < |init| {
      StuffedHasNoMarker(s[..|s| - 1], i);
    }
  }

  lemma ParseStuffedByte(b: byte, more: seq<byte>)
    ensures Parse(StuffedByte(b) + more) == Prepend(b, Parse(more))
  {
    var input := StuffedByte(b) + more;
    if b == 255 {
      assert input[1..] == [0] + more;
      assert input[1..][1..] == more;
    } else {
      assert input[1..] == more;
    }
  }

  lemma {:induction false} ParseStuffed(s: seq<byte>, marker: byte, rest: seq<byte>)
    requires marker != 0 && marker != 255
    ensures Parse(Stuff(s) + ([255, marker] + rest)) == Segment(s, marker, rest)
  {
    var tail := [255, marker] + rest;
    if s == [] {
      assert Stuff(s) + tail == tail;
      assert tail[1..] == [marker] + rest && ([marker] + rest)[1..] == rest;
    } else {
      assert s == [s[0]] + s[1..];
      StuffCons(s[0], s[1..]);
      var more := Stuff(s[1..]) + tail;
      assert Stuff(s) + tail == StuffedByte(s[0]) + more;
      ParseStuffedByte(s[0], more);
      ParseStuffed(s[1..], marker, rest);
    }
  }
}
