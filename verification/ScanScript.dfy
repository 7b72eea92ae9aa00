// Scan scripts: what validate_script of jcmaster.c accepts, what reduce_script makes of it, and what
// start_pass_huff_decoder of jdhuff.c says to the scans, one after another.
module ScanScript {
  const MAX_COMPONENTS := 10
  const MAX_COMPS_IN_SCAN := 4
  const MAX_AH_AL := 10

  // jpeg_scan_info: the components, the band, and the bit positions.
  datatype ScanInfo = ScanInfo(comps: seq<int>, Ss: int, Se: int, Ah: int, Al: int)

  // For each component and coefficient the last Al sent, -1 if there was none.
  type Bits = seq<seq<int>>

  predicate IsBits(n: nat, bits: Bits) {
    |bits| == n && forall c :: 0 <= c < n ==> |bits[c]| == 64
  }

  function NothingSent(n: nat): (bits: Bits)
    ensures IsBits(n, bits)
  {
    seq(n, _ => seq(64, _ => -1))
  }

  // ---- What the compressor demands ----

  // Components appear in the order of the frame header.
  predicate ComponentsOk(n: nat, s: ScanInfo) {
    && 1 <= |s.comps| <= MAX_COMPS_IN_SCAN
    && (forall i :: 0 <= i < |s.comps| ==> 0 <= s.comps[i] < n)
    && (forall i, j :: 0 <= i < j < |s.comps| ==> s.comps[i] < s.comps[j])
  }

  predicate RangesOk(s: ScanInfo) {
    && 0 <= s.Ss <= s.Se < 64 && 0 <= s.Ah <= MAX_AH_AL && 0 <= s.Al <= MAX_AH_AL
    && (if s.Ss == 0 then s.Se == 0 else |s.comps| == 1)
  }

  // A first scan of a coefficient has no Ah; a later one adds the next bit.
  predicate CoefOk(last: int, s: ScanInfo) {
    if last < 0 then s.Ah == 0 else s.Ah == last && s.Al == s.Ah - 1
  }

  ghost predicate CompOk(sent: seq<int>, s: ScanInfo)
    requires |sent| == 64
  {
    && (s.Ss != 0 ==> sent[0] >= 0)
    && forall k :: 0 <= k < 64 && s.Ss <= k <= s.Se ==> CoefOk(sent[k], s)
  }

  ghost predicate ScanOk(n: nat, bits: Bits, s: ScanInfo)
    requires IsBits(n, bits)
  {
    ComponentsOk(n, s) && RangesOk(s) && forall i :: 0 <= i < |s.comps| ==> CompOk(bits[s.comps[i]], s)
  }

  function CompAfter(sent: seq<int>, s: ScanInfo): (r: seq<int>)
    requires |sent| == 64
    ensures |r| == 64
  {
    seq(64, k requires 0 <= k < 64 => if s.Ss <= k <= s.Se then s.Al else sent[k])
  }

  function After(n: nat, bits: Bits, s: ScanInfo): (r: Bits)
    requires IsBits(n, bits)
    ensures IsBits(n, r)
  {
    seq(n, c requires 0 <= c < n => if c in s.comps then CompAfter(bits[c], s) else bits[c])
  }

  ghost predicate ProgressiveOk(n: nat, bits: Bits, script: seq<ScanInfo>)
    requires IsBits(n, bits)
    decreases |script|
  {
    script == [] || (ScanOk(n, bits, script[0]) && ProgressiveOk(n, After(n, bits, script[0]), script[1..]))
  }

  function AfterAll(n: nat, bits: Bits, script: seq<ScanInfo>): (r: Bits)
    requires IsBits(n, bits)
    ensures IsBits(n, r)
    decreases |script|
  {
    if script == [] then bits else AfterAll(n, After(n, bits, script[0]), script[1..])
  }

  // A script whose first scan is not a whole block is meant to be progressive.
  predicate IsProgressive(script: seq<ScanInfo>)
    requires script != []
  {
    script[0].Ss != 0 || script[0].Se != 63
  }

  // Some DC data must be sent for each component.
  ghost predicate AcceptedProgressive(n: nat, script: seq<ScanInfo>) {
    && script != [] && IsProgressive(script) && ProgressiveOk(n, NothingSent(n), script)
    && forall c :: 0 <= c < n ==> AfterAll(n, NothingSent(n), script)[c][0] >= 0
  }

  // All progression parameters of a sequential scan are fixed.
  predicate SequentialScan(n: nat, s: ScanInfo) {
    ComponentsOk(n, s) && s.Ss == 0 && s.Se == 63 && s.Ah == 0 && s.Al == 0
  }

  predicate Sends(script: seq<ScanInfo>, m: nat, c: int)
    requires m <= |script|
  {
    exists i :: 0 <= i < m && c in script[i].comps
  }

  predicate SentOnce(script: seq<ScanInfo>, m: nat)
    requires m <= |script|
  {
    forall i, j, c :: 0 <= i < j < m && c in script[i].comps ==> c !in script[j].comps
  }

  // Each component must be sent in exactly one scan.
  predicate AcceptedSequential(n: nat, script: seq<ScanInfo>) {
    && script != [] && !IsProgressive(script)
    && (forall i :: 0 <= i < |script| ==> SequentialScan(n, script[i]))
    && SentOnce(script, |script|) && forall c :: 0 <= c < n ==> Sends(script, |script|, c)
  }

  ghost predicate Accepted(n: nat, script: seq<ScanInfo>) {
    AcceptedProgressive(n, script) || AcceptedSequential(n, script)
  }

  // ---- What the decompressor says ----

  // The warning of a sequential frame about a scan's parameters.
  predicate NotSequential(s: ScanInfo, limSe: int, baseline: bool) {
    s.Ss != 0 || s.Ah != 0 || s.Al != 0 || ((baseline || s.Se < 64) && s.Se != limSe)
  }

  predicate Fatal(s: ScanInfo, limSe: int) {
    || (if s.Ss == 0 then s.Se != 0 else s.Se < s.Ss || s.Se > limSe || |s.comps| != 1)
    || (s.Ah != 0 && s.Ah - 1 != s.Al)
    || s.Al > 13
  }

  function Expected(last: int): int {
    if last < 0 then 0 else last
  }

  ghost predicate CompWarns(sent: seq<int>, s: ScanInfo)
    requires |sent| == 64
  {
    || (s.Ss != 0 && sent[0] < 0)
    || exists k :: 0 <= k < 64 && s.Ss <= k <= s.Se && s.Ah != Expected(sent[k])
  }

  ghost predicate Warns(n: nat, bits: Bits, s: ScanInfo)
    requires IsBits(n, bits)
  {
    exists i :: 0 <= i < |s.comps| && 0 <= s.comps[i] < n && CompWarns(bits[s.comps[i]], s)
  }

  // The warnings about a component: one if AC comes before DC, and one for each coefficient that is not
  // at the bit position it should be.
  ghost function Mismatched(sent: seq<int>, s: ScanInfo): set<int>
    requires |sent| == 64
  {
    set k | 0 <= k < 64 && s.Ss <= k <= s.Se && s.Ah != Expected(sent[k])
  }

  ghost function CompWarnings(sent: seq<int>, s: ScanInfo): nat
    requires |sent| == 64
  {
    (if s.Ss != 0 && sent[0] < 0 then 1 else 0) + |Mismatched(sent, s)|
  }

  lemma CompWarnsIs(sent: seq<int>, s: ScanInfo)
    requires |sent| == 64
    ensures CompWarns(sent, s) <==> CompWarnings(sent, s) > 0
  {
    if CompWarns(sent, s) && !(s.Ss != 0 && sent[0] < 0) {
      var k :| 0 <= k < 64 && s.Ss <= k <= s.Se && s.Ah != Expected(sent[k]);
      assert k in Mismatched(sent, s);
    }
    if |Mismatched(sent, s)| > 0 {
      var k :| k in Mismatched(sent, s);
    }
  }

  // The warnings about the first m components of a scan.
  ghost function ScanWarnings(n: nat, bits: Bits, s: ScanInfo, m: nat): nat
    requires IsBits(n, bits) && ComponentsOk(n, s) && m <= |s.comps|
  {
    if m == 0 then 0 else ScanWarnings(n, bits, s, m - 1) + CompWarnings(bits[s.comps[m - 1]], s)
  }

  lemma {:induction false} WarnsIs(n: nat, bits: Bits, s: ScanInfo, m: nat)
    requires IsBits(n, bits) && ComponentsOk(n, s) && m <= |s.comps|
    ensures ScanWarnings(n, bits, s, m) > 0 <==> exists i :: 0 <= i < m && CompWarns(bits[s.comps[i]], s)
  {
    if m > 0 {
      WarnsIs(n, bits, s, m - 1);
      CompWarnsIs(bits[s.comps[m - 1]], s);
    }
  }

  // Every scan passes without an error or a warning.
  ghost predicate Clean(n: nat, limSe: int, bits: Bits, script: seq<ScanInfo>)
    requires IsBits(n, bits)
    decreases |script|
  {
    script == [] ||
    (!Fatal(script[0], limSe) && !Warns(n, bits, script[0]) && Clean(n, limSe, After(n, bits, script[0]), script[1..]))
  }

  // ---- What it means that there is no complaint ----

  // The scan itself: a DC scan, or a band of one component; a first scan, or one more bit.
  predicate WellFormed(s: ScanInfo, limSe: int) {
    && (if s.Ss == 0 then s.Se == 0 else |s.comps| == 1 && s.Ss <= s.Se <= limSe)
    && (s.Ah == 0 || s.Ah == s.Al + 1) && s.Al <= 13
  }

  // What a scan brings of a component follows what has been sent of it: DC before AC, coefficients not
  // yet known in a first scan, and those known down to a bit position by the bit below it.  One that
  // is known to its last bit may only be sent again from the start.
  ghost predicate Follows(sent: seq<int>, s: ScanInfo)
    requires |sent| == 64
  {
    && (s.Ss != 0 ==> sent[0] >= 0)
    && forall k :: 0 <= k < 64 && s.Ss <= k <= s.Se ==>
         if sent[k] > 0 then s.Ah == sent[k] && s.Al == sent[k] - 1 else s.Ah == 0
  }

  // Without an error, a component draws no warning exactly if the scan follows those before it.
  lemma NoWarning(sent: seq<int>, s: ScanInfo, limSe: int)
    requires |sent| == 64 && WellFormed(s, limSe)
    ensures CompWarns(sent, s) <==> !Follows(sent, s)
  {
    if !CompWarns(sent, s) {
      forall k | 0 <= k < 64 && s.Ss <= k <= s.Se
        ensures s.Ah == Expected(sent[k])
      {
      }
    }
  }

  lemma NoComplaint(n: nat, bits: Bits, s: ScanInfo, limSe: int)
    requires IsBits(n, bits) && ComponentsOk(n, s)
    ensures !Fatal(s, limSe) && !Warns(n, bits, s) <==>
      WellFormed(s, limSe) && forall i :: 0 <= i < |s.comps| ==> Follows(bits[s.comps[i]], s)
  {
    assert Fatal(s, limSe) <==> !WellFormed(s, limSe);
    if WellFormed(s, limSe) {
      forall i | 0 <= i < |s.comps|
        ensures CompWarns(bits[s.comps[i]], s) <==> !Follows(bits[s.comps[i]], s)
      {
        NoWarning(bits[s.comps[i]], s, limSe);
      }
    }
  }

  // Some coefficient that is known to its last bit is sent again.
  ghost predicate Resends(sent: seq<int>, s: ScanInfo)
    requires |sent| == 64
  {
    exists k :: 0 <= k < 64 && s.Ss <= k <= s.Se && sent[k] == 0
  }

  ghost predicate ResendsNone(n: nat, bits: Bits, s: ScanInfo)
    requires IsBits(n, bits) && ComponentsOk(n, s)
  {
    forall i :: 0 <= i < |s.comps| ==> !Resends(bits[s.comps[i]], s)
  }

  // Apart from the ranges of the parameters, the compressor demands of a scan what the decompressor does
  // without a warning, and that nothing is sent again.
  lemma DemandsAgree(n: nat, bits: Bits, s: ScanInfo)
    requires IsBits(n, bits) && ComponentsOk(n, s) && RangesOk(s)
    ensures ScanOk(n, bits, s) <==>
      !Fatal(s, 63) && !Warns(n, bits, s) && ResendsNone(n, bits, s)
  {
    NoComplaint(n, bits, s, 63);
    forall i | 0 <= i < |s.comps|
      ensures CompOk(bits[s.comps[i]], s) <==>
        WellFormed(s, 63) && Follows(bits[s.comps[i]], s) && !Resends(bits[s.comps[i]], s)
    {
      CompDemands(bits[s.comps[i]], s);
    }
    assert 0 <= s.comps[0] < n;
  }

  lemma CompDemands(sent: seq<int>, s: ScanInfo)
    requires |sent| == 64 && s.comps != [] && RangesOk(s)
    ensures CompOk(sent, s) <==> WellFormed(s, 63) && Follows(sent, s) && !Resends(sent, s)
  {
    if CompOk(sent, s) {
      assert CoefOk(sent[s.Ss], s);
      forall k | 0 <= k < 64 && s.Ss <= k <= s.Se
        ensures sent[k] != 0
      {
        assert CoefOk(sent[k], s);
      }
    }
  }

  // The scans send nothing again, one after another.
  ghost predicate NoneResent(n: nat, bits: Bits, script: seq<ScanInfo>)
    requires IsBits(n, bits) && forall i :: 0 <= i < |script| ==> ComponentsOk(n, script[i])
    decreases |script|
  {
    script == [] || (ResendsNone(n, bits, script[0]) && NoneResent(n, After(n, bits, script[0]), script[1..]))
  }

  // So the scripts that the compressor accepts, with parameters in their ranges, are exactly those that
  // the decompressor takes without a warning and that send nothing again.
  lemma {:induction false} CleanIsAccepted(n: nat, bits: Bits, script: seq<ScanInfo>)
    requires IsBits(n, bits) && forall i :: 0 <= i < |script| ==> ComponentsOk(n, script[i]) && RangesOk(script[i])
    ensures ProgressiveOk(n, bits, script) <==> Clean(n, 63, bits, script) && NoneResent(n, bits, script)
    decreases |script|
  {
    if script != [] {
      DemandsAgree(n, bits, script[0]);
      CleanIsAccepted(n, After(n, bits, script[0]), script[1..]);
    }
  }

  // ---- Reduced block sizes ----

  function Reduced(script: seq<ScanInfo>, limSe: int): seq<ScanInfo> {
    if script == [] then []
    else if script[0].Ss > limSe then Reduced(script[1..], limSe)
    else [script[0].(Se := if script[0].Se > limSe then limSe else script[0].Se)] + Reduced(script[1..], limSe)
  }

  // The two sides have seen the same of the coefficients that there are.
  ghost predicate SameUpTo(n: nat, limSe: int, bits: Bits, bits': Bits) {
    IsBits(n, bits) && IsBits(n, bits') && 0 <= limSe <= 63 &&
    forall c, k :: 0 <= c < n && 0 <= k <= limSe ==> bits[c][k] == bits'[c][k]
  }

  // An accepted progressive script, cut down to the block size, causes no error and no warning.
  lemma {:induction false} AcceptedIsClean(n: nat, limSe: int, bits: Bits, bits': Bits, script: seq<ScanInfo>)
    requires SameUpTo(n, limSe, bits, bits') && ProgressiveOk(n, bits, script)
    ensures Clean(n, limSe, bits', Reduced(script, limSe))
    decreases |script|
  {
    if script != [] {
      var s := script[0];
      var s' := s.(Se := if s.Se > limSe then limSe else s.Se);
      if s.Ss > limSe {
        AcceptedIsClean(n, limSe, After(n, bits, s), bits', script[1..]);
      } else {
        assert SameUpTo(n, limSe, After(n, bits, s), After(n, bits', s'));
        forall i | 0 <= i < |s.comps|
          ensures !CompWarns(bits'[s.comps[i]], s')
        {
          assert CompOk(bits[s.comps[i]], s);
        }
        assert CompOk(bits[s.comps[0]], s) && CoefOk(bits[s.comps[0]][s.Ss], s);
        AcceptedIsClean(n, limSe, After(n, bits, s), After(n, bits', s'), script[1..]);
      }
    }
  }

  // Nothing is lost by that: of the coefficients that there are, the same is sent.
  lemma {:induction false} ReducedSendsTheSame(n: nat, limSe: int, bits: Bits, bits': Bits, script: seq<ScanInfo>)
    requires SameUpTo(n, limSe, bits, bits')
    ensures SameUpTo(n, limSe, AfterAll(n, bits, script), AfterAll(n, bits', Reduced(script, limSe)))
    ensures forall i :: 0 <= i < |Reduced(script, limSe)| ==> Reduced(script, limSe)[i].Se <= limSe
    decreases |script|
  {
    if script != [] {
      var s := script[0];
      var s' := s.(Se := if s.Se > limSe then limSe else s.Se);
      assert SameUpTo(n, limSe, After(n, bits, s), bits') || s.Ss <= limSe;
      if s.Ss > limSe {
        ReducedSendsTheSame(n, limSe, After(n, bits, s), bits', script[1..]);
      } else {
        assert SameUpTo(n, limSe, After(n, bits, s), After(n, bits', s'));
        ReducedSendsTheSame(n, limSe, After(n, bits, s), After(n, bits', s'), script[1..]);
        assert Reduced(script, limSe) == [s'] + Reduced(script[1..], limSe);
      }
    }
  }

  // A sequential script sends each component once at any block size, and no scan of it draws a warning.
  lemma {:induction false} SequentialScriptsAgree(n: nat, script: seq<ScanInfo>, limSe: int, i: nat, baseline: bool)
    requires 0 <= limSe <= 63 && i < |script| && forall j :: 0 <= j < |script| ==> SequentialScan(n, script[j])
    ensures |Reduced(script, limSe)| == |script|
    ensures Reduced(script, limSe)[i] == ScanInfo(script[i].comps, 0, limSe, 0, 0)
    ensures !NotSequential(Reduced(script, limSe)[i], limSe, baseline)
  {
    if |script| > 1 {
      SequentialScriptsAgree(n, script[1..], limSe, if i > 0 then i - 1 else 0, baseline);
    }
  }

  lemma ScriptsAgree(n: nat, script: seq<ScanInfo>, limSe: int)
    requires AcceptedProgressive(n, script) && 0 <= limSe <= 63
    ensures Clean(n, limSe, NothingSent(n), Reduced(script, limSe))
  {
    AcceptedIsClean(n, limSe, NothingSent(n), NothingSent(n), script);
  }
}
