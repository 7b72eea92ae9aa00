// The coder that jcarith.c and jdarith.c approximate with 32-bit registers: an interval of
// unbounded precision [base, base + width) / 2^(16 + shift), narrowed once per decision.
module ArithIdeal {
  import opened Numerals
  import opened ArithTable

  datatype Coder = Coder(base: nat, width: nat, shift: nat, bins: seq<Bin>)

  datatype Decision = Decision(st: nat, val: nat)

  predicate ValidCoder(co: Coder) {
    && 0x8000 <= co.width <= 0x1_0000
    && ValidBins(co.bins)
  }

  predicate ValidBins(bins: seq<Bin>) {
    forall i :: 0 <= i < |bins| ==> ValidBin(bins[i])
  }

  predicate ValidDecision(n: nat, d: Decision) {
    d.st < n && d.val <= 1
  }

  predicate ValidDecisions(n: nat, ds: seq<Decision>) {
    forall i :: 0 <= i < |ds| ==> ValidDecision(n, ds[i])
  }

  function Start(bins: seq<Bin>): (co: Coder)
    requires ValidBins(bins)
    ensures ValidCoder(co)
  {
    Coder(0, 0x1_0000, 0, bins)
  }

  // The less probable symbol has the upper part of size qe, unless the other part is the smaller.
  predicate TakesUpper(rest: nat, qe: nat, lps: bool) {
    lps <==> rest >= qe
  }

  // Splitting the interval; the bin is re-estimated on every less probable symbol, and on a more
  // probable one exactly when the interval must be renormalised.
  function Split(co: Coder, st: nat, qe: nat, lps: bool, next: Bin): (co': Coder)
    requires ValidCoder(co) && st < |co.bins| && 0 < qe < 0x8000 && ValidBin(next)
    ensures 0 < co'.width <= 0x1_0000 && co'.shift == co.shift
    ensures co.base <= co'.base && co'.base + co'.width <= co.base + co.width
    ensures ValidBins(co'.bins) && |co'.bins| == |co.bins|
  {
    var rest := co.width - qe;
    var bins' := if !lps && rest >= 0x8000 then co.bins else co.bins[st := next];
    if TakesUpper(rest, qe, lps) then Coder(co.base + rest, qe, co.shift, bins')
    else Coder(co.base, rest, co.shift, bins')
  }

  // Coding one decision, before renormalisation.
  function Narrow(co: Coder, d: Decision): (co': Coder)
    requires ValidCoder(co) && ValidDecision(|co.bins|, d)
    ensures 0 < co'.width <= 0x1_0000 && co'.shift == co.shift
    ensures co.base <= co'.base && co'.base + co'.width <= co.base + co.width
    ensures ValidBins(co'.bins) && |co'.bins| == |co.bins|
  {
    var sv := co.bins[d.st];
    var lps := d.val != Mps(sv);
    Split(co, d.st, Qe(sv), lps, NextBin(sv, lps))
  }

  // The two answers share the interval, and the upper part is as wide as the estimate says.  The less
  // probable answer never has the wider part, and has the upper one if both are equally wide.  It
  // always has the bin estimated anew; the other has it if its part is too narrow to go on with.
  lemma NarrowSplits(co: Coder, st: nat)
    requires ValidCoder(co) && st < |co.bins|
    ensures var sv := co.bins[st];
      var more, less := Narrow(co, Decision(st, Mps(sv))), Narrow(co, Decision(st, 1 - Mps(sv)));
      var lower, upper := if more.base < less.base then more else less, if more.base < less.base then less else more;
      && lower.base == co.base && upper.base == lower.base + lower.width
      && upper.base + upper.width == co.base + co.width && upper.width == Qe(sv)
      && less.width <= more.width && (less.width == more.width ==> less == upper)
      && less.bins == co.bins[st := NextBin(sv, true)]
      && more.bins == if more.width < 0x8000 then co.bins[st := NextBin(sv, false)] else co.bins
  {
    var sv := co.bins[st];
    assert 0 < Qe(sv) < 0x8000;
  }

  function Doubled(co: Coder): Coder {
    Coder(2 * co.base, 2 * co.width, co.shift + 1, co.bins)
  }

  function Renorm(co: Coder): (co': Coder)
    requires 0 < co.width <= 0x1_0000 && ValidBins(co.bins)
    ensures ValidCoder(co') && co'.bins == co.bins
    decreases 0x8000 - co.width
  {
    if co.width >= 0x8000 then co
    else Renorm(Doubled(co))
  }

  // The interval is doubled as often as it takes, and no more.
  lemma {:induction false} RenormIs(co: Coder) returns (k: nat)
    requires 0 < co.width <= 0x1_0000 && ValidBins(co.bins)
    ensures Renorm(co) == Coder(Pow2(k) * co.base, Pow2(k) * co.width, co.shift + k, co.bins)
    ensures Pow2(k) * co.width >= 0x8000 && (k > 0 ==> Pow2(k) * co.width < 0x1_0000)
    decreases 0x8000 - co.width
  {
    if co.width >= 0x8000 {
      k := 0;
    } else {
      var j := RenormIs(Doubled(co));
      k := j + 1;
      MulAssoc(Pow2(j), 2, co.base);
      MulAssoc(Pow2(j), 2, co.width);
    }
  }

  lemma RenormDoubled(co: Coder)
    requires 0 < co.width < 0x8000 && ValidBins(co.bins)
    ensures Renorm(Doubled(co)) == Renorm(co)
  {
  }

  function Step(co: Coder, d: Decision): (co': Coder)
    requires ValidCoder(co) && ValidDecision(|co.bins|, d)
    ensures ValidCoder(co') && |co'.bins| == |co.bins|
  {
    Renorm(Narrow(co, d))
  }

  function Run(co: Coder, ds: seq<Decision>): (co': Coder)
    requires ValidCoder(co) && ValidDecisions(|co.bins|, ds)
    ensures ValidCoder(co') && |co'.bins| == |co.bins|
  {
    if ds == [] then co else Step(Run(co, ds[..|ds| - 1]), ds[|ds| - 1])
  }

  // The digits s, read as the binary fraction 0.s, denote a point of the coder's interval.
  predicate Locates(s: seq<byte>, co: Coder) {
    && co.base * Pow2(8 * |s|) <= Value(s) * Pow2(16 + co.shift)
    && Value(s) * Pow2(16 + co.shift) < (co.base + co.width) * Pow2(8 * |s|)
  }

  // What a decoder that sees the whole fraction would conclude about the next decision.
  predicate PointsUpper(s: seq<byte>, co: Coder, qe: nat)
    requires qe <= co.width
  {
    Value(s) * Pow2(16 + co.shift) >= (co.base + co.width - qe) * Pow2(8 * |s|)
  }

  function Decide(s: seq<byte>, co: Coder, st: nat): (val: nat)
    requires ValidCoder(co) && st < |co.bins|
    ensures val <= 1
  {
    var qe := Qe(co.bins[st]);
    var lps := PointsUpper(s, co, qe) <==> co.width - qe >= qe;
    if lps then 1 - Mps(co.bins[st]) else Mps(co.bins[st])
  }

  lemma {:induction false} RenormLocates(s: seq<byte>, co: Coder)
    requires 0 < co.width <= 0x1_0000 && ValidBins(co.bins)
    ensures Locates(s, Renorm(co)) <==> Locates(s, co)
    decreases 0x8000 - co.width
  {
    if co.width < 0x8000 {
      var co2 := Coder(2 * co.base, 2 * co.width, co.shift + 1, co.bins);
      RenormLocates(s, co2);
      var p, q, v := Pow2(8 * |s|), Pow2(16 + co.shift), Value(s);
      assert Pow2(16 + co2.shift) == 2 * q;
      MulAssoc(2, v, q);
      MulAssoc(2, co.base, p);
      MulAssoc(2, co.base + co.width, p);
      assert 2 * co.base + 2 * co.width == 2 * (co.base + co.width);
    }
  }

  // A point of the interval after a decision was already a point before it, and it
  // reveals that decision.
  lemma StepLocates(s: seq<byte>, co: Coder, d: Decision)
    requires ValidCoder(co) && ValidDecision(|co.bins|, d)
    requires Locates(s, Step(co, d))
    ensures Locates(s, co) && Decide(s, co, d.st) == d.val
  {
    var nar := Narrow(co, d);
    RenormLocates(s, nar);
    LocatesWithin(s, nar, co);
  }

  lemma LocatesWithin(s: seq<byte>, nar: Coder, co: Coder)
    requires co.base <= nar.base && nar.base + nar.width <= co.base + co.width && nar.shift == co.shift
    requires Locates(s, nar)
    ensures Locates(s, co)
  {
    var p := Pow2(8 * |s|);
    ScaleLe(co.base, nar.base, p);
    ScaleLe(nar.base + nar.width, co.base + co.width, p);
  }

  // The statistics bins after each decision of a run.
  function Trace(co: Coder, ds: seq<Decision>): seq<seq<Bin>>
    requires ValidCoder(co) && ValidDecisions(|co.bins|, ds)
  {
    if ds == [] then [] else Trace(co, ds[..|ds| - 1]) + [Run(co, ds).bins]
  }

  predicate ValidStations(n: nat, sts: seq<nat>) {
    forall i :: 0 <= i < |sts| ==> sts[i] < n
  }

  function Stations(ds: seq<Decision>): (sts: seq<nat>) {
    if ds == [] then [] else Stations(ds[..|ds| - 1]) + [ds[|ds| - 1].st]
  }

  // The decisions that a decoder reads from the fraction 0.s when it asks for the bins sts.
  function Decoded(s: seq<byte>, co: Coder, sts: seq<nat>): (ds: seq<Decision>)
    requires ValidCoder(co) && ValidStations(|co.bins|, sts)
    ensures ValidDecisions(|co.bins|, ds) && |ds| == |sts|
  {
    if sts == [] then []
    else
      var init, st := Decoded(s, co, sts[..|sts| - 1]), sts[|sts| - 1];
      init + [Decision(st, Decide(s, Run(co, init), st))]
  }

  lemma RunSnoc(co: Coder, ds: seq<Decision>, d: Decision)
    requires ValidCoder(co) && ValidDecisions(|co.bins|, ds) && ValidDecision(|co.bins|, d)
    ensures ValidDecisions(|co.bins|, ds + [d])
    ensures Run(co, ds + [d]) == Step(Run(co, ds), d)
    ensures Trace(co, ds + [d]) == Trace(co, ds) + [Run(co, ds + [d]).bins]
    ensures Stations(ds + [d]) == Stations(ds) + [d.st]
  {
    assert (ds + [d])[..|ds|] == ds;
  }

  lemma DecodedSnoc(s: seq<byte>, co: Coder, sts: seq<nat>, st: nat)
    requires ValidCoder(co) && ValidStations(|co.bins|, sts) && st < |co.bins|
    ensures Decoded(s, co, sts + [st]) ==
      Decoded(s, co, sts) + [Decision(st, Decide(s, Run(co, Decoded(s, co, sts)), st))]
  {
    assert (sts + [st])[..|sts|] == sts;
  }

  lemma {:induction false} StationsValid(n: nat, ds: seq<Decision>)
    requires ValidDecisions(n, ds)
    ensures ValidStations(n, Stations(ds))
  {
    if ds != [] {
      StationsValid(n, ds[..|ds| - 1]);
    }
  }

  // The whole run can be read back from any point of the final interval.
  lemma {:induction false} RunDecodes(s: seq<byte>, co: Coder, ds: seq<Decision>)
    requires ValidCoder(co) && ValidDecisions(|co.bins|, ds)
    requires Locates(s, Run(co, ds))
    ensures ValidStations(|co.bins|, Stations(ds))
    ensures Decoded(s, co, Stations(ds)) == ds
  {
    if ds != [] {
      var init, d := ds[..|ds| - 1], ds[|ds| - 1];
      assert ds == init + [d];
      StationsValid(|co.bins|, ds);
      StepLocates(s, Run(co, init), d);
      RunDecodes(s, co, init);
      var sts := Stations(init);
      assert Stations(ds) == sts + [d.st];
      DecodedSnoc(s, co, sts, d.st);
    }
  }
}
