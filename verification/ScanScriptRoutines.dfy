// validate_script and reduce_script of jcmaster.c, the scan checks of start_pass_huff_decoder in
// jdhuff.c, and jpeg_simple_progression of jcparam.c.
module ScanScriptRoutines {
  import opened ScanScript

  // The array holds these bit positions.
  ghost predicate Records(a: array2<int>, n: nat, bits: Bits)
    reads a
  {
    a.Length0 == n && a.Length1 == 64 && IsBits(n, bits) &&
    forall c, k :: 0 <= c < n && 0 <= k < 64 ==> a[c, k] == bits[c][k]
  }

  method ValidateComponents(n: nat, s: ScanInfo) returns (ok: bool)
    ensures ok <==> ComponentsOk(n, s)
  {
    var ncomps := |s.comps|;
    if ncomps <= 0 || ncomps > MAX_COMPS_IN_SCAN {
      return false;
    }
    for ci := 0 to ncomps
      invariant forall i :: 0 <= i < ci ==> 0 <= s.comps[i] < n
      invariant forall i, j :: 0 <= i < j < ci ==> s.comps[i] < s.comps[j]
    {
      var thisi := s.comps[ci];
      if thisi < 0 || thisi >= n {
        return false;
      }
      if ci > 0 && thisi <= s.comps[ci - 1] {
        return false;
      }
    }
    ok := true;
  }

  // The progression parameters of one scan against what was sent before, which is brought up to date.
  method ValidateProgression(n: nat, s: ScanInfo, lastBitpos: array2<int>, ghost bits: Bits) returns (ok: bool)
    requires ComponentsOk(n, s) && Records(lastBitpos, n, bits)
    modifies lastBitpos
    ensures ok <==> ScanOk(n, bits, s)
    ensures ok ==> Records(lastBitpos, n, After(n, bits, s))
  {
    if s.Ss < 0 || s.Ss >= 64 || s.Se < s.Ss || s.Se >= 64 ||
       s.Ah < 0 || s.Ah > MAX_AH_AL || s.Al < 0 || s.Al > MAX_AH_AL {
      return false;
    }
    if s.Ss == 0 {
      if s.Se != 0 {
        return false;
      }
    } else if |s.comps| != 1 {
      return false;
    }
    for ci := 0 to |s.comps|
      invariant Records(lastBitpos, n, AfterSome(n, bits, s, ci))
      invariant forall i :: 0 <= i < ci ==> CompOk(bits[s.comps[i]], s)
    {
      AfterOneMore(n, bits, s, ci);
      ok := ValidateCoefs(n, s, s.comps[ci], lastBitpos, AfterSome(n, bits, s, ci));
      if !ok {
        return;
      }
    }
    assert s.comps[..|s.comps|] == s.comps;
    ok := true;
  }

  // After the first m components of a scan.
  function AfterSome(n: nat, bits: Bits, s: ScanInfo, m: nat): (r: Bits)
    requires IsBits(n, bits) && m <= |s.comps|
    ensures IsBits(n, r)
  {
    seq(n, c requires 0 <= c < n => if c in s.comps[..m] then CompAfter(bits[c], s) else bits[c])
  }

  lemma AfterEnds(n: nat, bits: Bits, s: ScanInfo)
    requires IsBits(n, bits)
    ensures AfterSome(n, bits, s, 0) == bits && AfterSome(n, bits, s, |s.comps|) == After(n, bits, s)
  {
    assert s.comps[..|s.comps|] == s.comps;
  }

  lemma AfterOneMore(n: nat, bits: Bits, s: ScanInfo, m: nat)
    requires IsBits(n, bits) && ComponentsOk(n, s) && m < |s.comps|
    ensures var c, before := s.comps[m], AfterSome(n, bits, s, m);
      before[c] == bits[c] && before[c := CompAfter(before[c], s)] == AfterSome(n, bits, s, m + 1)
  {
    assert s.comps[m] !in s.comps[..m];
    assert s.comps[..m + 1] == s.comps[..m] + [s.comps[m]];
  }

  method ValidateCoefs(n: nat, s: ScanInfo, c: int, lastBitpos: array2<int>, ghost bits: Bits) returns (ok: bool)
    requires 0 <= c < n && RangesOk(s) && Records(lastBitpos, n, bits)
    modifies lastBitpos
    ensures ok <==> CompOk(bits[c], s)
    ensures ok ==> Records(lastBitpos, n, bits[c := CompAfter(bits[c], s)])
  {
    if s.Ss != 0 && lastBitpos[c, 0] < 0 {
      return false;
    }
    for coefi := s.Ss to s.Se + 1
      invariant forall k :: s.Ss <= k < coefi ==> CoefOk(bits[c][k], s) && lastBitpos[c, k] == s.Al
      invariant forall d, k :: 0 <= d < n && 0 <= k < 64 && !(d == c && s.Ss <= k < coefi) ==> lastBitpos[d, k] == bits[d][k]
    {
      if lastBitpos[c, coefi] < 0 {
        if s.Ah != 0 {
          assert !CoefOk(bits[c][coefi], s);
          return false;
        }
      } else if s.Ah != lastBitpos[c, coefi] || s.Al != s.Ah - 1 {
        assert !CoefOk(bits[c][coefi], s);
        return false;
      }
      lastBitpos[c, coefi] := s.Al;
    }
    ok := true;
  }

  // validate_script, for a script that is meant to be progressive.
  method ValidateProgressiveScript(n: nat, script: seq<ScanInfo>) returns (ok: bool)
    requires n <= MAX_COMPONENTS && script != [] && IsProgressive(script)
    ensures ok <==> AcceptedProgressive(n, script)
  {
    var lastBitpos := new int[n, 64]((_, _) => -1);
    ghost var bits := NothingSent(n);
    assert script[0..] == script;
    for scanno := 0 to |script|
      invariant Records(lastBitpos, n, bits)
      invariant ProgressiveOk(n, NothingSent(n), script) <==> ProgressiveOk(n, bits, script[scanno..])
      invariant AfterAll(n, NothingSent(n), script) == AfterAll(n, bits, script[scanno..])
    {
      var s := script[scanno];
      assert script[scanno..][0] == s && script[scanno..][1..] == script[scanno + 1..];
      ok := ValidateComponents(n, s);
      if !ok {
        return;
      }
      ok := ValidateProgression(n, s, lastBitpos, bits);
      if !ok {
        return;
      }
      bits := After(n, bits, s);
    }
    for ci := 0 to n
      invariant forall c :: 0 <= c < ci ==> bits[c][0] >= 0
    {
      if lastBitpos[ci, 0] < 0 {
        return false;
      }
    }
    ok := true;
  }

  // The components of one sequential scan, none of which may have been sent before.
  method MarkSent(n: nat, script: seq<ScanInfo>, scanno: nat, componentSent: array<bool>) returns (ok: bool)
    requires scanno < |script| && ComponentsOk(n, script[scanno]) && componentSent.Length == n && SentOnce(script, scanno)
    requires forall c :: 0 <= c < n ==> (componentSent[c] <==> Sends(script, scanno, c))
    modifies componentSent
    ensures ok <==> SentOnce(script, scanno + 1)
    ensures ok ==> forall c :: 0 <= c < n ==> (componentSent[c] <==> Sends(script, scanno + 1, c))
  {
    var comps := script[scanno].comps;
    for ci := 0 to |comps|
      invariant forall c :: 0 <= c < n ==> (componentSent[c] <==> Sends(script, scanno, c) || c in comps[..ci])
      invariant forall k :: 0 <= k < ci ==> !Sends(script, scanno, comps[k])
    {
      var thisi := comps[ci];
      assert thisi !in comps[..ci];
      if componentSent[thisi] {
        assert !SentOnce(script, scanno + 1);
        return false;
      }
      componentSent[thisi] := true;
      assert comps[..ci + 1] == comps[..ci] + [thisi];
    }
    assert comps[..|comps|] == comps;
    assert forall c :: Sends(script, scanno + 1, c) <==> Sends(script, scanno, c) || c in comps;
    ok := true;
  }

  // validate_script, for a script that is meant to be sequential.
  method ValidateSequentialScript(n: nat, script: seq<ScanInfo>) returns (ok: bool)
    requires n <= MAX_COMPONENTS && script != [] && !IsProgressive(script)
    ensures ok <==> AcceptedSequential(n, script)
  {
    var componentSent := new bool[n](_ => false);
    for scanno := 0 to |script|
      invariant forall i :: 0 <= i < scanno ==> SequentialScan(n, script[i])
      invariant SentOnce(script, scanno)
      invariant forall c :: 0 <= c < n ==> (componentSent[c] <==> Sends(script, scanno, c))
    {
      var s := script[scanno];
      ok := ValidateComponents(n, s);
      if !ok || s.Ss != 0 || s.Se != 63 || s.Ah != 0 || s.Al != 0 {
        assert !SequentialScan(n, script[scanno]);
        return false;
      }
      ok := MarkSent(n, script, scanno, componentSent);
      if !ok {
        return;
      }
    }
    for ci := 0 to n
      invariant forall c :: 0 <= c < ci ==> Sends(script, |script|, c)
    {
      if !componentSent[ci] {
        return false;
      }
    }
    ok := true;
  }

  // validate_script.  The first scan decides which kind of script is meant.
  method ValidateScript(n: nat, script: seq<ScanInfo>) returns (ok: bool, progressiveMode: bool)
    requires n <= MAX_COMPONENTS
    ensures ok <==> Accepted(n, script)
    ensures ok ==> (if progressiveMode then AcceptedProgressive(n, script) else AcceptedSequential(n, script))
  {
    if |script| <= 0 {
      return false, false;
    }
    progressiveMode := script[0].Ss != 0 || script[0].Se != 63;
    if progressiveMode {
      ok := ValidateProgressiveScript(n, script);
    } else {
      ok := ValidateSequentialScript(n, script);
    }
  }

  lemma KeepOne(done: seq<ScanInfo>, s: ScanInfo, later: seq<ScanInfo>)
    ensures done + [s] + later == done + ([s] + later)
  {
  }

  // reduce_script, in place: the first n entries are the reduced script.
  method ReduceScript(script: array<ScanInfo>, limSe: int) returns (n: nat)
    modifies script
    ensures n <= script.Length && script[..n] == Reduced(old(script[..]), limSe)
  {
    var idxout, idxin := 0, 0;
    ghost var was := script[..];
    assert was[0..] == was;
    while idxin < script.Length
      invariant idxout <= idxin <= script.Length
      invariant forall i :: idxin <= i < script.Length ==> script[i] == was[i]
      invariant script[..idxout] + Reduced(was[idxin..], limSe) == Reduced(was, limSe)
    {
      ghost var done := script[..idxout];
      ghost var later := Reduced(was[idxin + 1..], limSe);
      assert was[idxin..][0] == was[idxin] && was[idxin..][1..] == was[idxin + 1..];
      if idxin != idxout {
        script[idxout] := script[idxin];
      }
      if script[idxout].Ss > limSe {
        assert script[..idxout] == done;
      } else {
        if script[idxout].Se > limSe {
          script[idxout] := script[idxout].(Se := limSe);
        }
        assert script[..idxout + 1] == done + [script[idxout]];
        KeepOne(done, script[idxout], later);
        idxout := idxout + 1;
      }
      idxin := idxin + 1;
    }
    assert was[idxin..] == [];
    n := idxout;
  }

  // ---- The decoder ----

  method CheckCoefs(n: nat, s: ScanInfo, c: int, coefBits: array2<int>, ghost bits: Bits) returns (warnings: nat)
    requires 0 <= c < n && 0 <= s.Ss <= s.Se <= 63 && Records(coefBits, n, bits)
    modifies coefBits
    ensures Records(coefBits, n, bits[c := CompAfter(bits[c], s)])
    ensures warnings == CompWarnings(bits[c], s)
  {
    warnings := 0;
    if s.Ss != 0 && coefBits[c, 0] < 0 {
      warnings := warnings + 1;
    }
    ghost var dc, seen: set<int> := warnings, {};
    for coefi := s.Ss to s.Se + 1
      invariant forall k :: s.Ss <= k < coefi ==> coefBits[c, k] == s.Al
      invariant forall d, k :: 0 <= d < n && 0 <= k < 64 && !(d == c && s.Ss <= k < coefi) ==> coefBits[d, k] == bits[d][k]
      invariant warnings == dc + |seen| && forall k :: k in seen <==> k in Mismatched(bits[c], s) && k < coefi
    {
      var expected := if coefBits[c, coefi] < 0 then 0 else coefBits[c, coefi];
      assert expected == Expected(bits[c][coefi]);
      if s.Ah != expected {
        warnings := warnings + 1;
        seen := seen + {coefi};
      }
      coefBits[c, coefi] := s.Al;
    }
    assert seen == Mismatched(bits[c], s);
  }

  method CheckComponent(n: nat, s: ScanInfo, ci: nat, coefBits: array2<int>, ghost bits: Bits) returns (warnings: nat)
    requires ComponentsOk(n, s) && IsBits(n, bits) && 0 <= s.Ss <= s.Se <= 63 && ci < |s.comps|
    requires Records(coefBits, n, AfterSome(n, bits, s, ci))
    modifies coefBits
    ensures Records(coefBits, n, AfterSome(n, bits, s, ci + 1)) && warnings == CompWarnings(bits[s.comps[ci]], s)
  {
    AfterOneMore(n, bits, s, ci);
    warnings := CheckCoefs(n, s, s.comps[ci], coefBits, AfterSome(n, bits, s, ci));
  }

  method CheckComponents(n: nat, s: ScanInfo, coefBits: array2<int>, ghost bits: Bits) returns (warnings: nat)
    requires ComponentsOk(n, s) && Records(coefBits, n, bits) && 0 <= s.Ss <= s.Se <= 63
    modifies coefBits
    ensures Records(coefBits, n, After(n, bits, s)) && warnings == ScanWarnings(n, bits, s, |s.comps|)
  {
    warnings := 0;
    AfterEnds(n, bits, s);
    ghost var total := 0;
    for ci := 0 to |s.comps|
      invariant Records(coefBits, n, AfterSome(n, bits, s, ci))
      invariant warnings == total == ScanWarnings(n, bits, s, ci)
    {
      var more := CheckComponent(n, s, ci, coefBits, bits);
      warnings := warnings + more;
      total := ScanWarnings(n, bits, s, ci + 1);
    }
  }

  // The checks of one scan: an error, or some number of warnings while coef_bits is brought up to date.
  method CheckScan(n: nat, s: ScanInfo, limSe: int, coefBits: array2<int>, ghost bits: Bits) returns (bad: bool, warnings: nat)
    requires ComponentsOk(n, s) && Records(coefBits, n, bits) && 0 <= limSe <= 63 && 0 <= s.Ss <= 63
    modifies coefBits
    ensures bad <==> Fatal(s, limSe)
    ensures !bad ==> Records(coefBits, n, After(n, bits, s)) && warnings == ScanWarnings(n, bits, s, |s.comps|)
    ensures !bad ==> (warnings > 0 <==> Warns(n, bits, s))
    ensures !bad && warnings == 0 <==>
      WellFormed(s, limSe) && forall i :: 0 <= i < |s.comps| ==> Follows(bits[s.comps[i]], s)
  {
    NoComplaint(n, bits, s, limSe);
    WarnsIs(n, bits, s, |s.comps|);
    bad, warnings := true, 0;
    if s.Ss == 0 {
      if s.Se != 0 {
        return;
      }
    } else {
      if s.Se < s.Ss || s.Se > limSe {
        return;
      }
      if |s.comps| != 1 {
        return;
      }
    }
    if s.Ah != 0 && s.Ah - 1 != s.Al {
      return;
    }
    if s.Al > 13 {
      return;
    }
    bad := false;
    warnings := CheckComponents(n, s, coefBits, bits);
  }

  // ---- The recommended script ----

  const YCC_SCANS := 10

  // One scan for each component from ci on.
  function ScansFrom(ci: nat, n: nat, Ss: int, Se: int, Ah: int, Al: int): seq<ScanInfo>
    requires ci <= n
    decreases n - ci
  {
    if ci == n then [] else [ScanInfo([ci], Ss, Se, Ah, Al)] + ScansFrom(ci + 1, n, Ss, Se, Ah, Al)
  }

  function AllComps(n: nat): seq<int> {
    seq(n, i => i)
  }

  function DcScans(n: nat, Ah: int, Al: int): seq<ScanInfo> {
    if n <= MAX_COMPS_IN_SCAN then [ScanInfo(AllComps(n), 0, 0, Ah, Al)] else ScansFrom(0, n, 0, 0, Ah, Al)
  }

  function Phase(n: nat, Ss: int, Se: int, Ah: int, Al: int): seq<ScanInfo> {
    ScansFrom(0, n, Ss, Se, Ah, Al)
  }

  function OneScan(c: int, Ss: int, Se: int, Ah: int, Al: int): seq<ScanInfo> {
    [ScanInfo([c], Ss, Se, Ah, Al)]
  }

  function YccScript(n: nat): seq<ScanInfo> {
    DcScans(n, 0, 1) + OneScan(0, 1, 5, 0, 2) + OneScan(2, 1, 63, 0, 1) + OneScan(1, 1, 63, 0, 1) +
    OneScan(0, 6, 63, 0, 2) + OneScan(0, 1, 63, 2, 1) + DcScans(n, 1, 0) +
    OneScan(2, 1, 63, 1, 0) + OneScan(1, 1, 63, 1, 0) + OneScan(0, 1, 63, 1, 0)
  }

  function GeneralScript(n: nat): seq<ScanInfo> {
    DcScans(n, 0, 1) + Phase(n, 1, 5, 0, 2) + Phase(n, 6, 63, 0, 2) + Phase(n, 1, 63, 2, 1) +
    DcScans(n, 1, 0) + Phase(n, 1, 63, 1, 0)
  }

  method FillAScan(space: array<ScanInfo>, scanptr: nat, ci: int, Ss: int, Se: int, Ah: int, Al: int) returns (next: nat)
    requires scanptr < space.Length
    modifies space
    ensures next == scanptr + 1 && space[..next] == old(space[..scanptr]) + OneScan(ci, Ss, Se, Ah, Al)
  {
    space[scanptr] := ScanInfo([ci], Ss, Se, Ah, Al);
    next := scanptr + 1;
  }

  method FillScans(space: array<ScanInfo>, scanptr: nat, ncomps: nat, Ss: int, Se: int, Ah: int, Al: int) returns (next: nat)
    requires scanptr + ncomps <= space.Length
    modifies space
    ensures next == scanptr + ncomps && space[..next] == old(space[..scanptr]) + Phase(ncomps, Ss, Se, Ah, Al)
  {
    next := scanptr;
    for ci := 0 to ncomps
      invariant next == scanptr + ci
      invariant space[..next] + ScansFrom(ci, ncomps, Ss, Se, Ah, Al) == old(space[..scanptr]) + Phase(ncomps, Ss, Se, Ah, Al)
    {
      ghost var done := space[..next];
      space[next] := ScanInfo([ci], Ss, Se, Ah, Al);
      assert space[..next + 1] == done + [ScanInfo([ci], Ss, Se, Ah, Al)];
      next := next + 1;
    }
  }

  method FillDcScans(space: array<ScanInfo>, scanptr: nat, ncomps: nat, Ah: int, Al: int) returns (next: nat)
    requires scanptr + (if ncomps <= MAX_COMPS_IN_SCAN then 1 else ncomps) <= space.Length
    modifies space
    ensures next == scanptr + (if ncomps <= MAX_COMPS_IN_SCAN then 1 else ncomps)
    ensures space[..next] == old(space[..scanptr]) + DcScans(ncomps, Ah, Al)
  {
    if ncomps <= MAX_COMPS_IN_SCAN {
      space[scanptr] := ScanInfo(seq(ncomps, i => i), 0, 0, Ah, Al);
      next := scanptr + 1;
    } else {
      next := FillScans(space, scanptr, ncomps, 0, 0, Ah, Al);
    }
  }

  // The custom script for three components of a luminance-chrominance image.
  method FillYccScript(script: array<ScanInfo>, ncomps: nat) returns (scanptr: nat)
    requires ncomps == 3 && script.Length == YCC_SCANS
    modifies script
    ensures scanptr == script.Length && script[..scanptr] == YccScript(ncomps)
  {
    scanptr := FillDcScans(script, 0, ncomps, 0, 1);
    assert script[..scanptr] == DcScans(ncomps, 0, 1);
    scanptr := FillAScan(script, scanptr, 0, 1, 5, 0, 2);
    scanptr := FillAScan(script, scanptr, 2, 1, 63, 0, 1);
    scanptr := FillAScan(script, scanptr, 1, 1, 63, 0, 1);
    scanptr := FillAScan(script, scanptr, 0, 6, 63, 0, 2);
    scanptr := FillAScan(script, scanptr, 0, 1, 63, 2, 1);
    scanptr := FillDcScans(script, scanptr, ncomps, 1, 0);
    scanptr := FillAScan(script, scanptr, 2, 1, 63, 1, 0);
    scanptr := FillAScan(script, scanptr, 1, 1, 63, 1, 0);
    scanptr := FillAScan(script, scanptr, 0, 1, 63, 1, 0);
  }

  method FillGeneralScript(script: array<ScanInfo>, ncomps: nat) returns (scanptr: nat)
    requires script.Length == 2 * (if ncomps <= MAX_COMPS_IN_SCAN then 1 else ncomps) + 4 * ncomps
    modifies script
    ensures scanptr == script.Length && script[..scanptr] == GeneralScript(ncomps)
  {
    scanptr := FillDcScans(script, 0, ncomps, 0, 1);
    assert script[..scanptr] == DcScans(ncomps, 0, 1);
    scanptr := FillScans(script, scanptr, ncomps, 1, 5, 0, 2);
    scanptr := FillScans(script, scanptr, ncomps, 6, 63, 0, 2);
    scanptr := FillScans(script, scanptr, ncomps, 1, 63, 2, 1);
    scanptr := FillDcScans(script, scanptr, ncomps, 1, 0);
    scanptr := FillScans(script, scanptr, ncomps, 1, 63, 1, 0);
  }

  // jpeg_simple_progression: the space computed in advance is filled exactly.
  method SimpleProgression(ncomps: nat, isYcc: bool) returns (script: array<ScanInfo>)
    ensures fresh(script)
    ensures script[..] == if ncomps == 3 && isYcc then YccScript(ncomps) else GeneralScript(ncomps)
  {
    var nscans;
    if ncomps == 3 && isYcc {
      nscans := YCC_SCANS;
    } else if ncomps > MAX_COMPS_IN_SCAN {
      nscans := 6 * ncomps;
    } else {
      nscans := 2 + 4 * ncomps;
    }
    script := new ScanInfo[nscans](_ => ScanInfo([], 0, 0, 0, 0));
    var scanptr;
    if ncomps == 3 && isYcc {
      scanptr := FillYccScript(script, ncomps);
    } else {
      scanptr := FillGeneralScript(script, ncomps);
    }
    assert script[..] == script[..scanptr];
  }

  // ---- It is accepted ----

  // The coefficients from Ss to Se of all components are at position last, the DC coefficients are sent.
  ghost predicate AtLevel(n: nat, bits: Bits, Ss: int, Se: int, last: int) {
    IsBits(n, bits) && forall c, k :: 0 <= c < n && 0 <= k < 64 && Ss <= k <= Se ==> bits[c][k] == last
  }

  ghost predicate DcSent(n: nat, bits: Bits) {
    IsBits(n, bits) && forall c :: 0 <= c < n ==> bits[c][0] >= 0
  }

  function Raised(n: nat, bits: Bits, ci: nat, Ss: int, Se: int, Al: int): (r: Bits)
    requires IsBits(n, bits) && ci <= n
    ensures IsBits(n, r)
  {
    seq(n, c requires 0 <= c < n => if c < ci then bits[c] else CompAfter(bits[c], ScanInfo([], Ss, Se, 0, Al)))
  }

  // One scan per component takes a band of all components from one position to the next.
  lemma {:induction false} PhaseOk(n: nat, bits: Bits, ci: nat, Ss: int, Se: int, last: int, Ah: int, Al: int)
    requires IsBits(n, bits) && ci <= n && 0 <= Ss <= Se < 64 && (Ss == 0 ==> Se == 0) && (Ss > 0 ==> DcSent(n, bits))
    requires forall c, k :: ci <= c < n && 0 <= k < 64 && Ss <= k <= Se ==> bits[c][k] == last
    requires 0 <= Al <= MAX_AH_AL && 0 <= Ah <= MAX_AH_AL
    requires if last < 0 then Ah == 0 else Ah == last && Al == Ah - 1
    ensures ProgressiveOk(n, bits, ScansFrom(ci, n, Ss, Se, Ah, Al))
    ensures AfterAll(n, bits, ScansFrom(ci, n, Ss, Se, Ah, Al)) == Raised(n, bits, ci, Ss, Se, Al)
    decreases n - ci
  {
    if ci < n {
      var s := ScanInfo([ci], Ss, Se, Ah, Al);
      var bits' := After(n, bits, s);
      assert bits'[ci] == CompAfter(bits[ci], s) && forall c :: 0 <= c < n && c != ci ==> bits'[c] == bits[c];
      assert CompOk(bits[s.comps[0]], s);
      PhaseOk(n, bits', ci + 1, Ss, Se, last, Ah, Al);
      assert Raised(n, bits', ci + 1, Ss, Se, Al) == Raised(n, bits, ci, Ss, Se, Al);
    } else {
      assert Raised(n, bits, ci, Ss, Se, Al) == bits;
    }
  }

  lemma {:induction false} ScriptAppend(n: nat, bits: Bits, a: seq<ScanInfo>, b: seq<ScanInfo>)
    requires IsBits(n, bits)
    ensures AfterAll(n, bits, a + b) == AfterAll(n, AfterAll(n, bits, a), b)
    ensures ProgressiveOk(n, bits, a + b) <==> ProgressiveOk(n, bits, a) && ProgressiveOk(n, AfterAll(n, bits, a), b)
    decreases |a|
  {
    if a == [] {
      assert a + b == b;
    } else {
      assert (a + b)[0] == a[0] && (a + b)[1..] == a[1..] + b;
      ScriptAppend(n, After(n, bits, a[0]), a[1..], b);
    }
  }

  lemma DcPhaseOk(n: nat, bits: Bits, last: int, Ah: int, Al: int)
    requires n >= 1 && AtLevel(n, bits, 0, 0, last) && 0 <= Al <= MAX_AH_AL && 0 <= Ah <= MAX_AH_AL
    requires if last < 0 then Ah == 0 else Ah == last && Al == Ah - 1
    ensures ProgressiveOk(n, bits, DcScans(n, Ah, Al))
    ensures AfterAll(n, bits, DcScans(n, Ah, Al)) == Raised(n, bits, 0, 0, 0, Al)
  {
    if n <= MAX_COMPS_IN_SCAN {
      var s := ScanInfo(AllComps(n), 0, 0, Ah, Al);
      forall i | 0 <= i < |s.comps|
        ensures CompOk(bits[s.comps[i]], s)
      {
      }
      forall c | 0 <= c < n
        ensures c in s.comps
      {
        assert s.comps[c] == c;
      }
      assert After(n, bits, s) == Raised(n, bits, 0, 0, 0, Al);
      assert DcScans(n, Ah, Al)[1..] == [];
    } else {
      PhaseOk(n, bits, 0, 0, 0, last, Ah, Al);
    }
  }

  // A part of a script, given what was sent before it.
  ghost predicate Leads(n: nat, bits: Bits, part: seq<ScanInfo>, bits': Bits) {
    IsBits(n, bits) && ProgressiveOk(n, bits, part) && AfterAll(n, bits, part) == bits'
  }

  lemma LeadsOn(n: nat, bits: Bits, a: seq<ScanInfo>, bits': Bits, b: seq<ScanInfo>, bits'': Bits)
    requires Leads(n, bits, a, bits') && Leads(n, bits', b, bits'')
    ensures Leads(n, bits, a + b, bits'')
  {
    ScriptAppend(n, bits, a, b);
  }

  lemma BandLeads(n: nat, bits: Bits, Ss: int, Se: int, last: int, Ah: int, Al: int) returns (bits': Bits)
    requires IsBits(n, bits) && 1 <= Ss <= Se < 64 && DcSent(n, bits) && AtLevel(n, bits, Ss, Se, last)
    requires 0 <= Al <= MAX_AH_AL && 0 <= Ah <= MAX_AH_AL && (if last < 0 then Ah == 0 else Ah == last && Al == Ah - 1)
    ensures bits' == Raised(n, bits, 0, Ss, Se, Al) && Leads(n, bits, Phase(n, Ss, Se, Ah, Al), bits')
    ensures DcSent(n, bits') && AtLevel(n, bits', Ss, Se, Al)
  {
    PhaseOk(n, bits, 0, Ss, Se, last, Ah, Al);
    bits' := Raised(n, bits, 0, Ss, Se, Al);
  }

  lemma DcLeads(n: nat, bits: Bits, last: int, Ah: int, Al: int) returns (bits': Bits)
    requires n >= 1 && AtLevel(n, bits, 0, 0, last) && 0 <= Al <= MAX_AH_AL && 0 <= Ah <= MAX_AH_AL
    requires if last < 0 then Ah == 0 else Ah == last && Al == Ah - 1
    ensures bits' == Raised(n, bits, 0, 0, 0, Al) && Leads(n, bits, DcScans(n, Ah, Al), bits')
    ensures DcSent(n, bits') && AtLevel(n, bits', 0, 0, Al)
  {
    DcPhaseOk(n, bits, last, Ah, Al);
    bits' := Raised(n, bits, 0, 0, 0, Al);
  }

  // Everything is sent to the last bit.
  ghost predicate Complete(n: nat, bits: Bits) {
    AtLevel(n, bits, 0, 63, 0)
  }

  // The all-purpose script is accepted, and sends every bit of every coefficient.
  lemma GeneralAccepted(n: nat)
    requires n >= 1
    ensures AcceptedProgressive(n, GeneralScript(n)) && Complete(n, AfterAll(n, NothingSent(n), GeneralScript(n)))
  {
    var b0 := NothingSent(n);
    var b1 := DcLeads(n, b0, -1, 0, 1);
    var b2 := BandLeads(n, b1, 1, 5, -1, 0, 2);
    LeadsOn(n, b0, DcScans(n, 0, 1), b1, Phase(n, 1, 5, 0, 2), b2);
    var b3 := BandLeads(n, b2, 6, 63, -1, 0, 2);
    LeadsOn(n, b0, DcScans(n, 0, 1) + Phase(n, 1, 5, 0, 2), b2, Phase(n, 6, 63, 0, 2), b3);
    var b4 := BandLeads(n, b3, 1, 63, 2, 2, 1);
    LeadsOn(n, b0, DcScans(n, 0, 1) + Phase(n, 1, 5, 0, 2) + Phase(n, 6, 63, 0, 2), b3, Phase(n, 1, 63, 2, 1), b4);
    var b5 := DcLeads(n, b4, 1, 1, 0);
    var first4 := DcScans(n, 0, 1) + Phase(n, 1, 5, 0, 2) + Phase(n, 6, 63, 0, 2) + Phase(n, 1, 63, 2, 1);
    LeadsOn(n, b0, first4, b4, DcScans(n, 1, 0), b5);
    var b6 := BandLeads(n, b5, 1, 63, 1, 1, 0);
    LeadsOn(n, b0, first4 + DcScans(n, 1, 0), b5, Phase(n, 1, 63, 1, 0), b6);
    assert GeneralScript(n)[0].Ss == 0 && GeneralScript(n)[0].Se == 0;
  }

  // ---- The custom script ----

  ghost predicate Level(bits: Bits, c: nat, Ss: int, Se: int, last: int) {
    c < |bits| && |bits[c]| == 64 && forall k :: 0 <= k < 64 && Ss <= k <= Se ==> bits[c][k] == last
  }

  lemma OneLeads(n: nat, bits: Bits, c: nat, Ss: int, Se: int, last: int, Ah: int, Al: int) returns (bits': Bits)
    requires IsBits(n, bits) && c < n && 1 <= Ss <= Se < 64 && DcSent(n, bits) && Level(bits, c, Ss, Se, last)
    requires 0 <= Al <= MAX_AH_AL && 0 <= Ah <= MAX_AH_AL && (if last < 0 then Ah == 0 else Ah == last && Al == Ah - 1)
    ensures bits' == bits[c := CompAfter(bits[c], ScanInfo([c], Ss, Se, Ah, Al))]
    ensures Leads(n, bits, OneScan(c, Ss, Se, Ah, Al), bits') && DcSent(n, bits') && Level(bits', c, Ss, Se, Al)
  {
    var s := ScanInfo([c], Ss, Se, Ah, Al);
    bits' := bits[c := CompAfter(bits[c], s)];
    assert CompOk(bits[s.comps[0]], s);
    assert After(n, bits, s) == bits';
    assert OneScan(c, Ss, Se, Ah, Al)[1..] == [];
  }

  function YccStart(n: nat): seq<ScanInfo> {
    DcScans(n, 0, 1) + OneScan(0, 1, 5, 0, 2) + OneScan(2, 1, 63, 0, 1) + OneScan(1, 1, 63, 0, 1)
  }

  function YccFirst(n: nat): seq<ScanInfo> {
    YccStart(n) + OneScan(0, 6, 63, 0, 2) + OneScan(0, 1, 63, 2, 1)
  }

  lemma YccStartLeads(n: nat) returns (bits: Bits)
    requires n == 3
    ensures Leads(n, NothingSent(n), YccStart(n), bits) && DcSent(n, bits) && AtLevel(n, bits, 0, 0, 1)
    ensures Level(bits, 0, 1, 5, 2) && Level(bits, 0, 6, 63, -1) && Level(bits, 1, 1, 63, 1) && Level(bits, 2, 1, 63, 1)
  {
    var b0 := NothingSent(n);
    var b1 := DcLeads(n, b0, -1, 0, 1);
    var b2 := OneLeads(n, b1, 0, 1, 5, -1, 0, 2);
    var p := DcScans(n, 0, 1);
    LeadsOn(n, b0, p, b1, OneScan(0, 1, 5, 0, 2), b2);
    p := p + OneScan(0, 1, 5, 0, 2);
    var b3 := OneLeads(n, b2, 2, 1, 63, -1, 0, 1);
    LeadsOn(n, b0, p, b2, OneScan(2, 1, 63, 0, 1), b3);
    p := p + OneScan(2, 1, 63, 0, 1);
    bits := OneLeads(n, b3, 1, 1, 63, -1, 0, 1);
    LeadsOn(n, b0, p, b3, OneScan(1, 1, 63, 0, 1), bits);
  }

  lemma YccFirstHalf(n: nat) returns (bits: Bits)
    requires n == 3
    ensures Leads(n, NothingSent(n), YccFirst(n), bits) && AtLevel(n, bits, 0, 63, 1) && DcSent(n, bits)
  {
    var b0 := NothingSent(n);
    var b4 := YccStartLeads(n);
    var p := YccStart(n);
    var b5 := OneLeads(n, b4, 0, 6, 63, -1, 0, 2);
    LeadsOn(n, b0, p, b4, OneScan(0, 6, 63, 0, 2), b5);
    p := p + OneScan(0, 6, 63, 0, 2);
    JoinLevels(b5, 0, 1, 6, 63, 2);
    bits := OneLeads(n, b5, 0, 1, 63, 2, 2, 1);
    LeadsOn(n, b0, p, b5, OneScan(0, 1, 63, 2, 1), bits);
    forall c | 0 <= c < n
      ensures Level(bits, c, 0, 63, 1)
    {
      JoinLevels(bits, c, 0, 1, 63, 1);
    }
  }

  lemma JoinLevels(bits: Bits, c: nat, Ss: int, mid: int, Se: int, last: int)
    requires Level(bits, c, Ss, mid - 1, last) && Level(bits, c, mid, Se, last)
    ensures Level(bits, c, Ss, Se, last)
  {
  }

  lemma YccAccepted(n: nat)
    requires n == 3
    ensures AcceptedProgressive(n, YccScript(n)) && Complete(n, AfterAll(n, NothingSent(n), YccScript(n)))
  {
    var b0 := NothingSent(n);
    var b1 := YccFirstHalf(n);
    var p := YccFirst(n);
    var b2 := DcLeads(n, b1, 1, 1, 0);
    LeadsOn(n, b0, p, b1, DcScans(n, 1, 0), b2);
    p := p + DcScans(n, 1, 0);
    var b3 := OneLeads(n, b2, 2, 1, 63, 1, 1, 0);
    LeadsOn(n, b0, p, b2, OneScan(2, 1, 63, 1, 0), b3);
    p := p + OneScan(2, 1, 63, 1, 0);
    var b4 := OneLeads(n, b3, 1, 1, 63, 1, 1, 0);
    LeadsOn(n, b0, p, b3, OneScan(1, 1, 63, 1, 0), b4);
    p := p + OneScan(1, 1, 63, 1, 0);
    var b5 := OneLeads(n, b4, 0, 1, 63, 1, 1, 0);
    LeadsOn(n, b0, p, b4, OneScan(0, 1, 63, 1, 0), b5);
    assert p + OneScan(0, 1, 63, 1, 0) == YccScript(n);
    assert YccScript(n)[0].Ss == 0 && YccScript(n)[0].Se == 0;
  }

  // The recommended script, for any number of components: it passes the compressor's own check, loses no
  // bit, and at any block size the decompressor has nothing to say against it.
  method RecommendedScriptIsSound(ncomps: nat, isYcc: bool, limSe: int) returns (script: seq<ScanInfo>, accepted: bool)
    requires 1 <= ncomps <= MAX_COMPONENTS && 0 <= limSe <= 63
    ensures accepted && Complete(ncomps, AfterAll(ncomps, NothingSent(ncomps), script))
    ensures Clean(ncomps, limSe, NothingSent(ncomps), Reduced(script, limSe))
    ensures AtLevel(ncomps, AfterAll(ncomps, NothingSent(ncomps), Reduced(script, limSe)), 0, limSe, 0)
  {
    var space := SimpleProgression(ncomps, isYcc);
    script := space[..];
    if ncomps == 3 && isYcc {
      YccAccepted(ncomps);
    } else {
      GeneralAccepted(ncomps);
    }
    accepted := ValidateProgressiveScript(ncomps, script);
    ScriptsAgree(ncomps, script, limSe);
    ReducedSendsTheSame(ncomps, limSe, NothingSent(ncomps), NothingSent(ncomps), script);
  }
}
