// The order in which the blocks of an image are to reach the entropy coder: what jccoefct.c and jctrans.c
// assemble in three different ways.  A plane is a sequence of strips, one for each iMCU row; a strip holds
// the block rows of a component in that iMCU row, real blocks only.
module McuOrder {
  import opened Numerals
  import ACScan

  type Block = ACScan.Block
  type Strip = seq<seq<Block>>

  const C_MAX_BLOCKS_IN_MCU := 10

  // ---- Geometry ----

  datatype Comp = Comp(h: nat, v: nat, width: nat, height: nat)

  // across and total count the interleaved MCUs in a row, and the iMCU rows.
  datatype Frame = Frame(comps: seq<Comp>, across: nat, total: nat)

  predicate Fits(n: nat, k: nat, q: nat) {
    k >= 1 && q >= 1 && (q - 1) * k < n <= q * k
  }

  predicate ValidFrame(f: Frame) {
    forall c :: 0 <= c < |f.comps| ==> ValidComp(f, c)
  }

  predicate ValidComp(f: Frame, c: nat)
    requires c < |f.comps|
  {
    Fits(f.comps[c].width, f.comps[c].h, f.across) && Fits(f.comps[c].height, f.comps[c].v, f.total)
  }

  function DivRoundUp(a: nat, b: nat): nat
    requires b > 0
  {
    (a + b - 1) / b
  }

  lemma RoundUpFits(a: nat, b: nat)
    requires a > 0 && b > 0
    ensures Fits(a, b, DivRoundUp(a, b))
  {
    var q := DivRoundUp(a, b);
    assert a + b - 1 == q * b + (a + b - 1) % b;
    TimesSum(q, -1, b);
  }

  // The sizes that initial_setup computes from the image always fit.
  lemma SizesFit(size: nat, samp: nat, unit: nat)
    requires size > 0 && samp > 0 && unit > 0
    ensures Fits(DivRoundUp(size * samp, unit), samp, DivRoundUp(size, unit))
  {
    var n, q, a := DivRoundUp(size * samp, unit), DivRoundUp(size, unit), size * samp;
    ScaleLt(0, size, samp);
    RoundUpFits(size, unit);
    RoundUpFits(a, unit);
    assert (q - 1) * samp < n by {
      ScaleLt((q - 1) * unit, size, samp);
      MulAssoc(samp, q - 1, unit);
      Cancel((q - 1) * samp, n, unit, a);
    }
    assert n <= q * samp by {
      ScaleLe(size, q * unit, samp);
      MulAssoc(samp, q, unit);
      Cancel(n - 1, q * samp, unit, a);
    }
  }

  lemma Cancel(x: int, y: int, unit: nat, a: int)
    requires unit > 0 && (x * unit < a <= y * unit)
    ensures x < y
  {
    if y <= x {
      ScaleLe(y, x, unit);
    }
  }

  // How many of the k places in the last group are taken.
  function LastCount(n: nat, k: nat): nat
    requires k > 0
  {
    if n % k == 0 then k else n % k
  }

  lemma LastCountIs(n: nat, k: nat, q: nat)
    requires Fits(n, k, q)
    ensures LastCount(n, k) == n - (q - 1) * k && 1 <= LastCount(n, k) <= k
  {
    TimesSum(q, -1, k);
    var r := n - (q - 1) * k;
    if r < k {
      DivModIs(n, q - 1, k, r);
    } else {
      DivModIs(n, q, k, 0);
    }
  }

  // A scan lists its components; a single one is not interleaved, and has one block in each MCU.
  predicate IsScan(f: Frame, scan: seq<nat>) {
    ValidFrame(f) && 1 <= |scan| && forall i :: 0 <= i < |scan| ==> scan[i] < |f.comps|
  }

  function McuWidth(scan: seq<nat>, c: Comp): nat {
    if |scan| == 1 then 1 else c.h
  }

  function McuHeight(scan: seq<nat>, c: Comp): nat {
    if |scan| == 1 then 1 else c.v
  }

  function McusPerRow(f: Frame, scan: seq<nat>): nat
    requires IsScan(f, scan)
  {
    if |scan| == 1 then f.comps[scan[0]].width else f.across
  }

  // start_iMCU_row.
  function McuRowsIn(f: Frame, scan: seq<nat>, imcu: nat): nat
    requires IsScan(f, scan)
  {
    if |scan| > 1 then 1 else StripRows(f, scan[0], imcu)
  }

  function StripRows(f: Frame, c: nat, imcu: nat): nat
    requires ValidFrame(f) && c < |f.comps|
  {
    assert ValidComp(f, c);
    if imcu < f.total - 1 then f.comps[c].v else LastCount(f.comps[c].height, f.comps[c].v)
  }

  // The blocks in an MCU, of the first n components of the scan.
  function McuBlocks(f: Frame, scan: seq<nat>, n: nat): nat
    requires IsScan(f, scan) && n <= |scan|
  {
    if n == 0 then 0
    else McuBlocks(f, scan, n - 1) + McuHeight(scan, f.comps[scan[n - 1]]) * McuWidth(scan, f.comps[scan[n - 1]])
  }

  // ---- The blocks of an MCU ----

  ghost predicate IsStrip(f: Frame, c: nat, imcu: nat, strip: Strip)
    requires ValidFrame(f) && c < |f.comps|
  {
    |strip| == StripRows(f, c, imcu) && forall y :: 0 <= y < |strip| ==> |strip[y]| == f.comps[c].width
  }

  ghost predicate ArePlanes(f: Frame, planes: seq<seq<Strip>>)
    requires ValidFrame(f)
  {
    && |planes| == |f.comps|
    && (forall c :: 0 <= c < |f.comps| ==> |planes[c]| == f.total)
    && forall c, i :: 0 <= c < |f.comps| && 0 <= i < f.total ==> IsStrip(f, c, i, planes[c][i])
  }

  // A block outside the image: no AC coefficient, and the given DC coefficient.
  function Dummy(dc: int): Block {
    seq(64, _ => 0)[0 := dc]
  }

  // Block x of a block row whose first width blocks are real.
  function RowBlock(row: seq<Block>, width: nat, x: nat): Block
    requires 1 <= width <= |row|
  {
    if x < width then row[x] else Dummy(row[width - 1][0])
  }

  ghost predicate Usable(strip: Strip, width: nat) {
    width >= 1 && strip != [] && forall y :: 0 <= y < |strip| ==> |strip[y]| >= width
  }

  // The block in place (xi, y) of the MCU in column col.  Below the image, it repeats the DC coefficient of the
  // last block of this MCU in the last real row.
  ghost function McuBlock(strip: Strip, width: nat, w: nat, y: nat, col: nat, xi: nat): Block
    requires Usable(strip, width) && w >= 1
  {
    if y < |strip| then RowBlock(strip[y], width, col * w + xi)
    else Dummy(RowBlock(strip[|strip| - 1], width, col * w + (w - 1))[0])
  }

  // A row of blocks of an MCU.
  ghost function McuRow(strip: Strip, width: nat, w: nat, y: nat, col: nat): (row: seq<Block>)
    requires Usable(strip, width) && w >= 1
    ensures |row| == w
  {
    seq(w, xi requires 0 <= xi < w => McuBlock(strip, width, w, y, col, xi))
  }

  // Its first n rows, from block row vert of the strip on.
  ghost function McuRows(strip: Strip, width: nat, w: nat, vert: nat, col: nat, n: nat): (rows: seq<Block>)
    requires Usable(strip, width) && w >= 1
    ensures |rows| == n * w
  {
    if n == 0 then []
    else
      TimesSum(n - 1, 1, w);
      McuRows(strip, width, w, vert, col, n - 1) + McuRow(strip, width, w, vert + (n - 1), col)
  }

  predicate IsReal(strip: Strip, width: nat, w: nat, y: nat, col: nat, xi: nat) {
    y < |strip| && col * w + xi < width
  }

  // Where the blocks of an MCU are: row by row, those of the image as they are.
  lemma {:induction false} RowsAt(strip: Strip, width: nat, w: nat, vert: nat, col: nat, n: nat, y: nat, xi: nat, p: nat)
    requires Usable(strip, width) && w >= 1 && y < n && xi < w && p == y * w + xi
    ensures p < n * w && McuRows(strip, width, w, vert, col, n)[p] == McuBlock(strip, width, w, vert + y, col, xi)
    ensures IsReal(strip, width, w, vert + y, col, xi) ==>
      McuRows(strip, width, w, vert, col, n)[p] == strip[vert + y][col * w + xi]
    decreases n
  {
    TimesSum(n - 1, 1, w);
    ScaleLe(y + 1, n, w);
    TimesSum(y, 1, w);
    if y < n - 1 {
      ScaleLe(y + 1, n - 1, w);
      RowsAt(strip, width, w, vert, col, n - 1, y, xi, p);
    }
  }

  // A block outside the image costs next to nothing: it has no AC coefficients, and the DC value of the
  // block that is sent before it.
  lemma DummyRepeats(strip: Strip, width: nat, w: nat, vert: nat, col: nat, n: nat, y: nat, xi: nat, p: nat)
    requires Usable(strip, width) && w >= 1 && y < n && xi < w && p == y * w + xi
    requires col * w < width && vert < |strip| && !IsReal(strip, width, w, vert + y, col, xi)
    ensures 0 < p < n * w
    ensures var rows := McuRows(strip, width, w, vert, col, n);
      rows[p][0] == rows[p - 1][0] && forall k :: 1 <= k < 64 ==> rows[p][k] == 0
  {
    RowsAt(strip, width, w, vert, col, n, y, xi, p);
    if xi > 0 {
      RowsAt(strip, width, w, vert, col, n, y, xi - 1, p - 1);
    } else {
      ScaleLe(1, y, w);
      TimesSum(y, -1, w);
      RowsAt(strip, width, w, vert, col, n, y - 1, w - 1, p - 1);
    }
  }

  lemma PlanesUsable(f: Frame, planes: seq<seq<Strip>>, c: nat, imcu: nat)
    requires ValidFrame(f) && ArePlanes(f, planes) && c < |f.comps| && imcu < f.total
    ensures Usable(planes[c][imcu], f.comps[c].width) && f.comps[c].h >= 1 && f.comps[c].v >= 1
  {
    assert ValidComp(f, c) && IsStrip(f, c, imcu, planes[c][imcu]);
    LastCountIs(f.comps[c].height, f.comps[c].v, f.total);
    ScaleLe(0, f.across - 1, f.comps[c].h);
  }

  // The blocks of the first n components of a scan.
  ghost function McuTo(f: Frame, scan: seq<nat>, planes: seq<seq<Strip>>, imcu: nat, vert: nat, col: nat,
                       n: nat): (mcu: seq<Block>)
    requires IsScan(f, scan) && ArePlanes(f, planes) && imcu < f.total && n <= |scan|
    ensures |mcu| == McuBlocks(f, scan, n)
  {
    if n == 0 then []
    else
      var c := scan[n - 1];
      PlanesUsable(f, planes, c, imcu);
      McuTo(f, scan, planes, imcu, vert, col, n - 1) +
      McuRows(planes[c][imcu], f.comps[c].width, McuWidth(scan, f.comps[c]), vert, col, McuHeight(scan, f.comps[c]))
  }

  ghost function McuAt(f: Frame, scan: seq<nat>, planes: seq<seq<Strip>>, imcu: nat, vert: nat, col: nat): seq<Block>
    requires IsScan(f, scan) && ArePlanes(f, planes) && imcu < f.total
  {
    McuTo(f, scan, planes, imcu, vert, col, |scan|)
  }

  // ---- The stream of MCUs ----

  // The MCU that is due: its iMCU row, its MCU row there, and its place in that row.
  datatype Pos = Pos(imcu: nat, vert: nat, ctr: nat)

  // All MCUs before it, in order.
  ghost function StreamBefore(f: Frame, scan: seq<nat>, planes: seq<seq<Strip>>, p: Pos): seq<seq<Block>>
    requires IsScan(f, scan) && ArePlanes(f, planes) && p.imcu <= f.total && (p.imcu == f.total ==> p.vert == p.ctr == 0)
    decreases p.imcu, p.vert, p.ctr
  {
    if p.ctr > 0 then
      StreamBefore(f, scan, planes, p.(ctr := p.ctr - 1)) + [McuAt(f, scan, planes, p.imcu, p.vert, p.ctr - 1)]
    else if p.vert > 0 then StreamBefore(f, scan, planes, Pos(p.imcu, p.vert - 1, McusPerRow(f, scan)))
    else if p.imcu > 0 then StreamBefore(f, scan, planes, Pos(p.imcu - 1, McuRowsIn(f, scan, p.imcu - 1), 0))
    else []
  }

  // Where a controller stands after a call in which the entropy coder takes at most grant MCUs.
  function AfterCall(f: Frame, scan: seq<nat>, p: Pos, grant: nat): Pos
    requires IsScan(f, scan)
    decreases McuRowsIn(f, scan, p.imcu) - p.vert, McusPerRow(f, scan) - p.ctr
  {
    if p.vert >= McuRowsIn(f, scan, p.imcu) then Pos(p.imcu + 1, 0, 0)
    else if p.ctr >= McusPerRow(f, scan) then AfterCall(f, scan, Pos(p.imcu, p.vert + 1, 0), grant)
    else if grant == 0 then p
    else AfterCall(f, scan, p.(ctr := p.ctr + 1), grant - 1)
  }

  // After several calls, or as many of them as it takes.
  function AfterCalls(f: Frame, scan: seq<nat>, grants: seq<nat>): Pos
    requires IsScan(f, scan)
  {
    if grants == [] then Pos(0, 0, 0)
    else
      var p := AfterCalls(f, scan, grants[..|grants| - 1]);
      if p.imcu >= f.total then p else AfterCall(f, scan, p, grants[|grants| - 1])
  }

  ghost function WholeStream(f: Frame, scan: seq<nat>, planes: seq<seq<Strip>>): seq<seq<Block>>
    requires IsScan(f, scan) && ArePlanes(f, planes)
  {
    StreamBefore(f, scan, planes, Pos(f.total, 0, 0))
  }

  ghost predicate InRange(f: Frame, scan: seq<nat>, p: Pos)
    requires IsScan(f, scan)
  {
    if p.imcu < f.total then
      && p.vert <= McuRowsIn(f, scan, p.imcu) && p.ctr <= McusPerRow(f, scan)
      && (p.vert == McuRowsIn(f, scan, p.imcu) ==> p.ctr == 0)
    else p == Pos(f.total, 0, 0)
  }

  // What has been sent at any position is the beginning of the whole stream.
  lemma {:induction false} StreamExtends(f: Frame, scan: seq<nat>, planes: seq<seq<Strip>>, p: Pos)
    requires IsScan(f, scan) && ArePlanes(f, planes) && InRange(f, scan, p)
    ensures StreamBefore(f, scan, planes, p) <= WholeStream(f, scan, planes)
    decreases f.total - p.imcu, McuRowsIn(f, scan, p.imcu) - p.vert, McusPerRow(f, scan) - p.ctr
  {
    if p.imcu < f.total {
      if p.vert == McuRowsIn(f, scan, p.imcu) {
        StreamExtends(f, scan, planes, Pos(p.imcu + 1, 0, 0));
      } else if p.ctr == McusPerRow(f, scan) {
        StreamExtends(f, scan, planes, Pos(p.imcu, p.vert + 1, 0));
      } else {
        StreamExtends(f, scan, planes, p.(ctr := p.ctr + 1));
      }
    }
  }

  // ---- Nothing is left out ----

  // The MCU that is due at a position is the next one in the stream.
  lemma McuSent(f: Frame, scan: seq<nat>, planes: seq<seq<Strip>>, p: Pos)
    requires IsScan(f, scan) && ArePlanes(f, planes)
    requires p.imcu < f.total && p.vert < McuRowsIn(f, scan, p.imcu) && p.ctr < McusPerRow(f, scan)
    ensures var i := |StreamBefore(f, scan, planes, p)|;
      i < |WholeStream(f, scan, planes)| && WholeStream(f, scan, planes)[i] == McuAt(f, scan, planes, p.imcu, p.vert, p.ctr)
  {
    var next := p.(ctr := p.ctr + 1);
    StreamExtends(f, scan, planes, next);
    assert StreamBefore(f, scan, planes, next) ==
      StreamBefore(f, scan, planes, p) + [McuAt(f, scan, planes, p.imcu, p.vert, p.ctr)];
  }

  lemma {:induction false} RowsInMcu(f: Frame, scan: seq<nat>, planes: seq<seq<Strip>>, imcu: nat, vert: nat, col: nat,
                                     n: nat, ci: nat, p: nat)
    requires IsScan(f, scan) && ArePlanes(f, planes) && imcu < f.total && ci < n <= |scan|
    requires p < McuHeight(scan, f.comps[scan[ci]]) * McuWidth(scan, f.comps[scan[ci]])
    ensures Usable(planes[scan[ci]][imcu], f.comps[scan[ci]].width) && McuWidth(scan, f.comps[scan[ci]]) >= 1
    ensures McuBlocks(f, scan, ci) + p < McuBlocks(f, scan, n)
    ensures var c := f.comps[scan[ci]];
      McuTo(f, scan, planes, imcu, vert, col, n)[McuBlocks(f, scan, ci) + p] ==
        McuRows(planes[scan[ci]][imcu], c.width, McuWidth(scan, c), vert, col, McuHeight(scan, c))[p]
    decreases n
  {
    PlanesUsable(f, planes, scan[ci], imcu);
    PlanesUsable(f, planes, scan[n - 1], imcu);
    if ci < n - 1 {
      RowsInMcu(f, scan, planes, imcu, vert, col, n - 1, ci, p);
    }
  }

  // Every block of every component of a scan is sent: in row y and column x of an iMCU row, it is in the MCU
  // that covers it.
  lemma BlockSent(f: Frame, scan: seq<nat>, planes: seq<seq<Strip>>, ci: nat, imcu: nat, y: nat, x: nat)
    returns (i: nat, p: nat)
    requires IsScan(f, scan) && ArePlanes(f, planes) && ci < |scan| && imcu < f.total
    requires y < |planes[scan[ci]][imcu]| && x < f.comps[scan[ci]].width
    ensures i < |WholeStream(f, scan, planes)| && p < |WholeStream(f, scan, planes)[i]|
    ensures WholeStream(f, scan, planes)[i][p] == planes[scan[ci]][imcu][y][x]
  {
    var c, strip := f.comps[scan[ci]], planes[scan[ci]][imcu];
    var w, h := McuWidth(scan, c), McuHeight(scan, c);
    PlanesUsable(f, planes, scan[ci], imcu);
    var vert, yin := if |scan| == 1 then y else 0, if |scan| == 1 then 0 else y;
    var col, xin := x / w, x % w;
    Covered(f, scan, ci, imcu, y, x);
    ScaleLe(yin + 1, h, w);
    TimesSum(yin, 1, w);
    RowsAt(strip, c.width, w, vert, col, h, yin, xin, yin * w + xin);
    RowsInMcu(f, scan, planes, imcu, vert, col, |scan|, ci, yin * w + xin);
    McuSent(f, scan, planes, Pos(imcu, vert, col));
    i, p := |StreamBefore(f, scan, planes, Pos(imcu, vert, col))|, McuBlocks(f, scan, ci) + (yin * w + xin);
  }

  lemma Covered(f: Frame, scan: seq<nat>, ci: nat, imcu: nat, y: nat, x: nat)
    requires IsScan(f, scan) && ci < |scan| && imcu < f.total
    requires y < StripRows(f, scan[ci], imcu) && x < f.comps[scan[ci]].width
    ensures var c := f.comps[scan[ci]]; var w := McuWidth(scan, c);
      w >= 1 && x / w < McusPerRow(f, scan) && x / w * w + x % w == x
    ensures if |scan| == 1 then y < McuRowsIn(f, scan, imcu)
      else McuRowsIn(f, scan, imcu) == 1 && y < McuHeight(scan, f.comps[scan[ci]])
  {
    var c := f.comps[scan[ci]];
    var w := McuWidth(scan, c);
    assert ValidComp(f, scan[ci]);
    LastCountIs(c.height, c.v, f.total);
    if |scan| > 1 && x / w >= f.across {
      ScaleLe(f.across, x / w, w);
    }
  }
}
