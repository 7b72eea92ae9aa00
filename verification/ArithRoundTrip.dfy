// The two halves of the arithmetic coder undo each other: jcarith.c against jdarith.c.
module ArithRoundTrip {
  import opened Numerals
  import opened ByteStuffing
  import opened ArithTable
  import opened ArithIdeal
  import opened ArithEncoder
  import opened ArithDecoder

  // Encodes a scan of decisions; trace holds the statistics bins after each of them.
  method EncodeScan(bins: seq<Bin>, ds: seq<Decision>)
    returns (out: seq<byte>, trace: seq<seq<Bin>>, ghost data: seq<byte>)
    requires ValidBins(bins) && ValidDecisions(|bins|, ds)
    ensures out == Stuff(data) && (data != [] ==> data[|data| - 1] != 0)
    ensures Locates(data, Run(Start(bins), ds))
    ensures trace == Trace(Start(bins), ds)
  {
    var e := new Encoder(bins);
    trace := [];
    EndPrefixes(ds);
    for i := 0 to |ds|
      invariant fresh(e) && e.Valid() && e.Interval() == Run(Start(bins), ds[..i])
      invariant trace == Trace(Start(bins), ds[..i])
    {
      Prefixes(ds, i);
      RunSnoc(Start(bins), ds[..i], ds[i]);
      e.Encode(ds[i].st, ds[i].val);
      trace := trace + [e.bins];
    }
    e.FinishPass();
    out, data := e.out, e.sent;
  }

  // Decodes a scan, asking for the bins sts one after the other.
  method DecodeScan(bins: seq<Bin>, input: seq<byte>, sts: seq<nat>)
    returns (ok: bool, ds: seq<Decision>, trace: seq<seq<Bin>>)
    requires ValidBins(bins) && ValidStations(|bins|, sts)
    ensures !ok ==> Parse(input).marker == 0
    ensures ok ==> ds == Decoded(Parse(input).data, Start(bins), sts)
    ensures ok ==> trace == Trace(Start(bins), ds)
  {
    var d := new Decoder(input, bins);
    ghost var s := Parse(input).data;
    ds, trace := [], [];
    EndPrefixes(sts);
    for i := 0 to |sts|
      invariant fresh(d) && d.Valid() && d.segment == Parse(input)
      invariant ds == Decoded(s, Start(bins), sts[..i])
      invariant d.Interval() == Run(Start(bins), ds)
      invariant trace == Trace(Start(bins), ds)
    {
      var val;
      ok, val := d.Decode(sts[i]);
      if !ok {
        return;
      }
      RunSnoc(Start(bins), ds, Decision(sts[i], val));
      Prefixes(sts, i);
      ds := ds + [Decision(sts[i], val)];
      trace := trace + [d.bins];
    }
    ok := true;
  }

  // Any sequence of decisions survives encoding, transmission up to a marker, and decoding with the
  // same choice of bins; and both sides hold the same statistics after every decision.
  method RoundTrip(bins: seq<Bin>, ds: seq<Decision>, marker: byte, rest: seq<byte>)
    returns (ok: bool, ds': seq<Decision>, encoderBins: seq<seq<Bin>>, decoderBins: seq<seq<Bin>>)
    requires ValidBins(bins) && ValidDecisions(|bins|, ds) && marker != 0 && marker != 255
    ensures ok && ds' == ds
    ensures encoderBins == decoderBins == Trace(Start(bins), ds)
  {
    var out;
    ghost var data;
    out, encoderBins, data := EncodeScan(bins, ds);
    ParseStuffed(data, marker, rest);
    RunDecodes(data, Start(bins), ds);
    ok, ds', decoderBins := DecodeScan(bins, out + ([0xFF, marker] + rest), Stations(ds));
  }
}
