// Streams of tokens in segments: each of them is filled up with ones to whole bytes.
module CodedSegments {
  import opened Numerals
  import opened CanonicalCode
  import opened ByteStuffing
  import opened BitWriter
  import opened TokenStream
  import opened RestartStream

  ghost predicate FilledUp(bits: seq<bit>, data: seq<byte>) {
    exists k: nat :: k < 8 && BytesToBits(data) == bits + LowBits(0x7F, 7)[..k]
  }

  predicate AllEmittable(codes: seq<Code>, parts: seq<seq<Token>>) {
    forall j :: 0 <= j < |parts| ==> Emittable(codes, parts[j])
  }

  // The data of each segment.
  ghost predicate Carries(codes: seq<Code>, parts: seq<seq<Token>>, segs: seq<seq<byte>>)
    requires AllEmittable(codes, parts)
  {
    |segs| == |parts| && forall j :: 0 <= j < |parts| ==> FilledUp(Flatten(codes, parts[j]), segs[j])
  }

  // As far as there is a code for every symbol.
  ghost predicate Behind(codes: seq<Code>, parts: seq<seq<Token>>, segs: seq<seq<byte>>) {
    AllEmittable(codes, parts) ==> Carries(codes, parts, segs)
  }

  lemma BehindSnoc(codes: seq<Code>, parts: seq<seq<Token>>, segs: seq<seq<byte>>, ts: seq<Token>, data: seq<byte>)
    requires Behind(codes, parts, segs)
    requires AllEmittable(codes, parts) && Emittable(codes, ts) ==> FilledUp(Flatten(codes, ts), data)
    ensures AllEmittable(codes, parts + [ts]) <==> AllEmittable(codes, parts) && Emittable(codes, ts)
    ensures Behind(codes, parts + [ts], segs + [data])
  {
    AllEmittableSnoc(codes, parts, ts);
    if AllEmittable(codes, parts + [ts]) {
      CarriesSnoc(codes, parts, segs, ts, data);
    }
  }

  lemma AllEmittableSnoc(codes: seq<Code>, parts: seq<seq<Token>>, ts: seq<Token>)
    ensures AllEmittable(codes, parts + [ts]) <==> AllEmittable(codes, parts) && Emittable(codes, ts)
  {
    assert (parts + [ts])[|parts|] == ts;
    forall j | 0 <= j < |parts|
      ensures (parts + [ts])[j] == parts[j]
    {
    }
  }

  lemma CarriesSnoc(codes: seq<Code>, parts: seq<seq<Token>>, segs: seq<seq<byte>>, ts: seq<Token>, data: seq<byte>)
    requires AllEmittable(codes, parts) && Carries(codes, parts, segs)
    requires Emittable(codes, ts) && FilledUp(Flatten(codes, ts), data)
    ensures AllEmittable(codes, parts + [ts]) && Carries(codes, parts + [ts], segs + [data])
  {
    AllEmittableSnoc(codes, parts, ts);
  }

  lemma {:induction false} FlatEmittable(codes: seq<Code>, parts: seq<seq<Token>>)
    requires Emittable(codes, Flat(parts))
    ensures AllEmittable(codes, parts)
  {
    if parts != [] {
      EmittableParts(codes, parts[0], Flat(parts[1..]));
      FlatEmittable(codes, parts[1..]);
      forall j | 0 <= j < |parts|
        ensures Emittable(codes, parts[j])
      {
        assert j > 0 ==> parts[j] == parts[1..][j - 1];
      }
    }
  }

  // The bytes of a scan, up to the marker that ends it.
  function ScanBytes(segs: seq<seq<byte>>): seq<byte>
    requires segs != []
  {
    Segments(segs[..|segs| - 1], 0) + Stuff(segs[|segs| - 1])
  }

  lemma ScanBytesThen(segs: seq<seq<byte>>, final: byte, after: seq<byte>)
    requires segs != []
    ensures ScanBytes(segs) + ([0xFF, final] + after) == Stream(segs, 0, final, after)
  {
    var n := |segs| - 1;
    assert segs == segs[..n] + [segs[n]];
    StreamIs(segs[..n], 0, segs[n], final, after);
    Reassociate(Segments(segs[..n], 0), Stuff(segs[n]), [0xFF, final] + after);
  }
}
