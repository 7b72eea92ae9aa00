// The coefficient controllers of the compressor: compress_data, and compress_first_pass with compress_output
// (jccoefct.c), and compress_output of the transcoder (jctrans.c).  They assemble MCUs in three ways, and each
// can be suspended by the entropy coder at any MCU.  The loops over an iMCU row are the same in all of them.
module CoefControllers {
  import opened Numerals
  import opened McuOrder

  // One pass over the blocks of the input; passes over padded virtual arrays; and virtual arrays of real blocks only.
  datatype Kind = SinglePass | Buffered | Transcode

  type Plane = seq<Strip>

  // ---- What the arrays hold ----

  // The real blocks are in place; there may be anything beside and below them.
  ghost predicate Covers(strip: Strip, width: nat, arr: Strip) {
    |arr| >= |strip| && forall y :: 0 <= y < |strip| ==> CoversRow(strip[y], width, arr[y])
  }

  ghost predicate CoversRow(row: seq<Block>, width: nat, arr: seq<Block>) {
    |row| >= width && |arr| >= width && forall x :: 0 <= x < width ==> arr[x] == row[x]
  }

  // A strip padded to whole MCUs.
  ghost predicate Padded(strip: Strip, c: Comp, across: nat, arr: Strip) {
    && Usable(strip, c.width) && |strip| <= |arr| == c.v && c.h >= 1
    && forall y :: 0 <= y < c.v ==> PaddedRow(strip, c, across, y, arr[y])
  }

  ghost predicate PaddedRow(strip: Strip, c: Comp, across: nat, y: nat, row: seq<Block>)
    requires Usable(strip, c.width) && c.h >= 1
  {
    |row| == across * c.h && forall col :: 0 <= col < across ==> PaddedMcu(strip, c, y, col, row)
  }

  // The blocks of one MCU in a block row.
  ghost predicate PaddedMcu(strip: Strip, c: Comp, y: nat, col: nat, row: seq<Block>)
    requires Usable(strip, c.width) && c.h >= 1
  {
    col * c.h + c.h <= |row| && row[col * c.h..col * c.h + c.h] == McuRow(strip, c.width, c.h, y, col)
  }

  // ---- A row of blocks of an MCU ----

  // Before a dummy row comes the block whose DC coefficient it repeats.
  ghost predicate Follows(strip: Strip, width: nat, w: nat, y: nat, col: nat, mcu: seq<Block>)
    requires Usable(strip, width) && w >= 1
  {
    y >= |strip| ==> mcu != [] && mcu[|mcu| - 1][0] == McuBlock(strip, width, w, |strip|, col, 0)[0]
  }

  lemma FollowsNext(strip: Strip, width: nat, w: nat, y: nat, col: nat, mcu: seq<Block>)
    requires Usable(strip, width) && w >= 1
    ensures Follows(strip, width, w, y + 1, col, mcu + McuRow(strip, width, w, y, col))
  {
    var row := McuRow(strip, width, w, y, col);
    assert (mcu + row)[|mcu + row| - 1] == row[w - 1] == McuBlock(strip, width, w, y, col, w - 1);
  }

  // A dummy block repeats the DC coefficient of the block before it.
  lemma DummyFollows(strip: Strip, width: nat, w: nat, y: nat, col: nat, bi: nat)
    requires Usable(strip, width) && 1 <= bi < w && (y < |strip| ==> col * w + bi >= width)
    ensures McuBlock(strip, width, w, y, col, bi) == Dummy(McuBlock(strip, width, w, y, col, bi - 1)[0])
  {
  }

  // The real blocks of the row, the first blockcnt of it.
  method TakeReal(ghost strip: Strip, ghost width: nat, w: nat, arr: Strip, blockcnt: nat, y: nat, col: nat, mcu: seq<Block>)
    returns (mcu': seq<Block>)
    requires Usable(strip, width) && Covers(strip, width, arr) && 1 <= blockcnt <= w && y < |strip|
    requires col * w + blockcnt <= width
    ensures mcu' == mcu + McuRow(strip, width, w, y, col)[..blockcnt]
  {
    ScaleLe(0, col, w);
    var start := col * w;
    assert CoversRow(strip[y], width, arr[y]);
    assert arr[y][start..start + blockcnt] == McuRow(strip, width, w, y, col)[..blockcnt];
    mcu' := mcu + arr[y][start..start + blockcnt];
  }

  lemma OneMoreBlock(mcu: seq<Block>, row: seq<Block>, bi: nat)
    requires bi < |row|
    ensures mcu + row[..bi] + [row[bi]] == mcu + row[..bi + 1]
    ensures bi > 0 ==> (mcu + row[..bi])[|mcu + row[..bi]| - 1] == row[bi - 1]
    ensures mcu + row[..0] == mcu && row[..|row|] == row
  {
  }

  // compress_data: a row of blocks, transformed or made up.
  method RowFromInput(ghost strip: Strip, ghost width: nat, w: nat, arr: Strip, inside: bool, blockcnt: nat,
                      y: nat, col: nat, mcu: seq<Block>) returns (mcu': seq<Block>)
    requires Usable(strip, width) && Covers(strip, width, arr) && 1 <= blockcnt <= w && (inside <==> y < |strip|)
    requires col * w + blockcnt <= width && (blockcnt < w ==> width == col * w + blockcnt)
    requires Follows(strip, width, w, y, col, mcu)
    ensures mcu' == mcu + McuRow(strip, width, w, y, col)
  {
    ghost var row := McuRow(strip, width, w, y, col);
    if inside {
      mcu' := TakeReal(strip, width, w, arr, blockcnt, y, col, mcu);
      var bi := blockcnt;
      while bi < w
        invariant blockcnt <= bi <= w && mcu' == mcu + row[..bi]
      {
        OneMoreBlock(mcu, row, bi);
        DummyFollows(strip, width, w, y, col, bi);
        mcu' := mcu' + [Dummy(mcu'[|mcu'| - 1][0])];
        bi := bi + 1;
      }
    } else {
      mcu' := mcu;
      var bi, dc := 0, mcu[|mcu| - 1][0];
      OneMoreBlock(mcu, row, 0);
      while bi < w
        invariant bi <= w && mcu' == mcu + row[..bi]
      {
        OneMoreBlock(mcu, row, bi);
        mcu' := mcu' + [Dummy(dc)];
        bi := bi + 1;
      }
    }
    assert row[..w] == row;
  }

  // compress_output of the compressor: the padded array has it all.
  method RowFromArray(ghost strip: Strip, c: Comp, ghost across: nat, w: nat, arr: Strip, y: nat, col: nat, mcu: seq<Block>)
    returns (mcu': seq<Block>)
    requires Padded(strip, c, across, arr) && y < c.v && c.width <= across * c.h
    requires if w == c.h then col < across else w == 1 && y < |strip| && col < c.width
    ensures mcu' == mcu + McuRow(strip, c.width, w, y, col)
  {
    ScaleLe(0, col, w);
    var start := col * w;
    assert PaddedRow(strip, c, across, y, arr[y]);
    if w == c.h {
      assert PaddedMcu(strip, c, y, col, arr[y]);
    } else {
      PaddedReal(strip, c, across, arr[y], y, col);
      assert arr[y][start..start + w] == McuRow(strip, c.width, w, y, col);
    }
    mcu' := mcu + arr[y][start..start + w];
  }

  lemma PaddedReal(strip: Strip, c: Comp, across: nat, row: seq<Block>, y: nat, x: nat)
    requires Usable(strip, c.width) && c.h >= 1 && PaddedRow(strip, c, across, y, row) && y < |strip|
    requires x < c.width <= across * c.h
    ensures x < |row| && row[x] == strip[y][x]
  {
    var col, xi := x / c.h, x % c.h;
    assert x == col * c.h + xi;
    if across <= col {
      ScaleLe(across, col, c.h);
    }
    assert PaddedMcu(strip, c, y, col, row);
    assert row[col * c.h..col * c.h + c.h][xi] == row[x];
  }

  ghost predicate Blank(dummies: seq<Block>) {
    |dummies| == C_MAX_BLOCKS_IN_MCU && forall i :: 0 <= i < |dummies| ==> IsDummy(dummies[i])
  }

  ghost predicate IsDummy(b: Block) {
    forall k :: 1 <= k < 64 ==> b[k] == 0
  }

  lemma DummyWith(b: Block, dc: int)
    requires IsDummy(b)
    ensures |b[0 := dc]| == 64 && b[0 := dc] == Dummy(dc) && IsDummy(Dummy(dc))
  {
  }

  // compress_output of the transcoder: dummy blocks are made on the fly, by setting one coefficient of a
  // block that is kept for its place in the MCU.
  method RowTranscoded(ghost strip: Strip, ghost width: nat, w: nat, arr: Strip, inside: bool, blockcnt: nat,
                       y: nat, col: nat, mcu: seq<Block>, dummies: seq<Block>)
    returns (mcu': seq<Block>, dummies': seq<Block>)
    requires Usable(strip, width) && Covers(strip, width, arr) && 1 <= blockcnt <= w && (inside <==> y < |strip|)
    requires col * w + blockcnt <= width && (blockcnt < w ==> width == col * w + blockcnt)
    requires Follows(strip, width, w, y, col, mcu) && Blank(dummies) && |mcu| + w <= C_MAX_BLOCKS_IN_MCU
    ensures mcu' == mcu + McuRow(strip, width, w, y, col) && Blank(dummies')
  {
    ghost var row := McuRow(strip, width, w, y, col);
    var xindex := 0;
    mcu', dummies' := mcu, dummies;
    OneMoreBlock(mcu, row, 0);
    if inside {
      mcu' := TakeReal(strip, width, w, arr, blockcnt, y, col, mcu);
      xindex := blockcnt;
    }
    while xindex < w
      invariant xindex <= w && mcu' == mcu + row[..xindex] && Blank(dummies')
      invariant y < |strip| ==> blockcnt <= xindex
    {
      OneMoreBlock(mcu, row, xindex);
      if xindex > 0 {
        DummyFollows(strip, width, w, y, col, xindex);
      }
      mcu', dummies' := AppendDummy(mcu', dummies', mcu'[|mcu'| - 1][0]);
      xindex := xindex + 1;
    }
    assert row[..w] == row;
  }

  method AppendDummy(mcu: seq<Block>, dummies: seq<Block>, dc: int) returns (mcu': seq<Block>, dummies': seq<Block>)
    requires Blank(dummies) && |mcu| < C_MAX_BLOCKS_IN_MCU
    ensures mcu' == mcu + [Dummy(dc)] && Blank(dummies')
  {
    var blkn := |mcu|;
    DummyWith(dummies[blkn], dc);
    dummies' := dummies[blkn := dummies[blkn][0 := dc]];
    mcu' := mcu + [dummies'[blkn]];
  }

  // ---- An MCU ----

  // The number of real blocks in a row of an MCU (last_col_width in the last column).
  function BlockCount(f: Frame, scan: seq<nat>, c: nat, col: nat): nat
    requires IsScan(f, scan) && c < |f.comps|
  {
    assert ValidComp(f, c);
    if |scan| == 1 then 1
    else if col < f.across - 1 then f.comps[c].h
    else LastCount(f.comps[c].width, f.comps[c].h)
  }

  lemma BlockCountFits(f: Frame, scan: seq<nat>, i: nat, col: nat)
    requires IsScan(f, scan) && i < |scan| && col < McusPerRow(f, scan)
    ensures var c, w, n := f.comps[scan[i]], McuWidth(scan, f.comps[scan[i]]), BlockCount(f, scan, scan[i], col);
      1 <= n <= w && col * w + n <= c.width && (n < w ==> c.width == col * w + n)
  {
    var c := f.comps[scan[i]];
    assert ValidComp(f, scan[i]);
    if |scan| > 1 {
      LastCountIs(c.width, c.h, f.across);
      if col < f.across - 1 {
        ScaleLe(col + 1, f.across - 1, c.h);
        TimesSum(col, 1, c.h);
      }
    }
  }

  // What the controller has to work with in an iMCU row.
  ghost predicate Serves(kind: Kind, f: Frame, planes: seq<Plane>, source: seq<Plane>, imcu: nat)
    requires ValidFrame(f) && ArePlanes(f, planes) && imcu < f.total
  {
    && |source| == |f.comps|
    && forall c :: 0 <= c < |f.comps| ==> |source[c]| == f.total && ServesComp(kind, f, c, planes[c][imcu], source[c][imcu])
  }

  ghost predicate ServesComp(kind: Kind, f: Frame, c: nat, strip: Strip, arr: Strip)
    requires ValidFrame(f) && c < |f.comps|
  {
    if kind == Buffered then Padded(strip, f.comps[c], f.across, arr) else Covers(strip, f.comps[c].width, arr)
  }

  // Block row y of the strip exists in the arrays, and is real exactly when the controllers take it to be.
  lemma RowExists(f: Frame, scan: seq<nat>, planes: seq<Plane>, i: nat, imcu: nat, vert: nat, yindex: nat)
    requires IsScan(f, scan) && ArePlanes(f, planes) && imcu < f.total && i < |scan|
    requires vert < McuRowsIn(f, scan, imcu) && yindex < McuHeight(scan, f.comps[scan[i]])
    ensures var c, strip := f.comps[scan[i]], planes[scan[i]][imcu];
      && vert + yindex < c.v && (yindex == 0 ==> vert < |strip|) && (|scan| == 1 ==> vert + yindex < |strip|)
      && (imcu < f.total - 1 || vert + yindex < LastCount(c.height, c.v) <==> vert + yindex < |strip|)
  {
    var c := scan[i];
    assert ValidComp(f, c) && IsStrip(f, c, imcu, planes[c][imcu]);
    LastCountIs(f.comps[c].height, f.comps[c].v, f.total);
  }

  lemma BlocksWithin(f: Frame, scan: seq<nat>, i: nat, yindex: nat)
    requires IsScan(f, scan) && i < |scan| && yindex < McuHeight(scan, f.comps[scan[i]])
    ensures var w := McuWidth(scan, f.comps[scan[i]]);
      McuBlocks(f, scan, i) + yindex * w + w <= McuBlocks(f, scan, |scan|)
  {
    var c := f.comps[scan[i]];
    ScaleLe(yindex + 1, McuHeight(scan, c), McuWidth(scan, c));
    TimesSum(yindex, 1, McuWidth(scan, c));
    BlocksGrow(f, scan, i + 1, |scan|);
  }

  lemma {:induction false} BlocksGrow(f: Frame, scan: seq<nat>, m: nat, n: nat)
    requires IsScan(f, scan) && m <= n <= |scan|
    ensures McuBlocks(f, scan, m) <= McuBlocks(f, scan, n)
  {
    if m < n {
      BlocksGrow(f, scan, m, n - 1);
      ScaleLe(0, McuHeight(scan, f.comps[scan[n - 1]]), McuWidth(scan, f.comps[scan[n - 1]]));
    }
  }

  // The setting of one MCU: its column, block row vert of its strips, and what may be written into it.
  ghost predicate AtMcu(kind: Kind, f: Frame, scan: seq<nat>, planes: seq<Plane>, source: seq<Plane>, imcu: nat, vert: nat,
                        col: nat) {
    && IsScan(f, scan) && ArePlanes(f, planes) && imcu < f.total && Serves(kind, f, planes, source, imcu)
    && vert < McuRowsIn(f, scan, imcu) && col < McusPerRow(f, scan)
    && McuBlocks(f, scan, |scan|) <= C_MAX_BLOCKS_IN_MCU
  }

  // One row of blocks, in the way of the controller.
  method AppendRow(kind: Kind, f: Frame, scan: seq<nat>, ghost planes: seq<Plane>, source: seq<Plane>, imcu: nat, vert: nat,
                   col: nat, i: nat, yindex: nat, mcu: seq<Block>, dummies: seq<Block>)
    returns (mcu': seq<Block>, dummies': seq<Block>)
    requires AtMcu(kind, f, scan, planes, source, imcu, vert, col) && i < |scan|
    requires yindex < McuHeight(scan, f.comps[scan[i]]) && Blank(dummies)
    requires |mcu| == McuBlocks(f, scan, i) + yindex * McuWidth(scan, f.comps[scan[i]])
    requires Usable(planes[scan[i]][imcu], f.comps[scan[i]].width) && McuWidth(scan, f.comps[scan[i]]) >= 1
    requires Follows(planes[scan[i]][imcu], f.comps[scan[i]].width, McuWidth(scan, f.comps[scan[i]]), vert + yindex, col, mcu)
    ensures Blank(dummies')
    ensures mcu' == mcu + McuRow(planes[scan[i]][imcu], f.comps[scan[i]].width, McuWidth(scan, f.comps[scan[i]]), vert + yindex, col)
  {
    var c, w, y := scan[i], McuWidth(scan, f.comps[scan[i]]), vert + yindex;
    ghost var strip := planes[c][imcu];
    BlockCountFits(f, scan, i, col);
    RowExists(f, scan, planes, i, imcu, vert, yindex);
    BlocksWithin(f, scan, i, yindex);
    assert ServesComp(kind, f, c, strip, source[c][imcu]) && ValidComp(f, c);
    dummies' := dummies;
    var inside := imcu < f.total - 1 || y < LastCount(f.comps[c].height, f.comps[c].v);
    match kind
    case SinglePass =>
      mcu' := RowFromInput(strip, f.comps[c].width, w, source[c][imcu], inside, BlockCount(f, scan, c, col), y, col, mcu);
    case Buffered =>
      mcu' := RowFromArray(strip, f.comps[c], f.across, w, source[c][imcu], y, col, mcu);
    case Transcode =>
      mcu', dummies' := RowTranscoded(strip, f.comps[c].width, w, source[c][imcu], inside, BlockCount(f, scan, c, col), y, col,
                                      mcu, dummies);
  }

  // The blocks of one component.
  method AppendComponent(kind: Kind, f: Frame, scan: seq<nat>, ghost planes: seq<Plane>, source: seq<Plane>, imcu: nat, vert: nat,
                         col: nat, i: nat, mcu: seq<Block>, dummies: seq<Block>)
    returns (mcu': seq<Block>, dummies': seq<Block>)
    requires AtMcu(kind, f, scan, planes, source, imcu, vert, col) && i < |scan| && Blank(dummies)
    requires mcu == McuTo(f, scan, planes, imcu, vert, col, i)
    ensures mcu' == McuTo(f, scan, planes, imcu, vert, col, i + 1) && Blank(dummies')
  {
    var c, w := scan[i], McuWidth(scan, f.comps[scan[i]]);
    PlanesUsable(f, planes, c, imcu);
    ghost var strip, width := planes[c][imcu], f.comps[c].width;
    var yindex := 0;
    mcu', dummies' := mcu, dummies;
    RowExists(f, scan, planes, i, imcu, vert, 0);
    while yindex < McuHeight(scan, f.comps[c])
      invariant yindex <= McuHeight(scan, f.comps[c]) && Blank(dummies')
      invariant mcu' == mcu + McuRows(strip, width, w, vert, col, yindex)
      invariant Follows(strip, width, w, vert + yindex, col, mcu')
    {
      FollowsNext(strip, width, w, vert + yindex, col, mcu');
      mcu', dummies' := AppendRow(kind, f, scan, planes, source, imcu, vert, col, i, yindex, mcu', dummies');
      yindex := yindex + 1;
    }
  }

  method BuildMcu(kind: Kind, f: Frame, scan: seq<nat>, ghost planes: seq<Plane>, source: seq<Plane>, imcu: nat, vert: nat,
                  col: nat, dummies: seq<Block>) returns (mcu: seq<Block>, dummies': seq<Block>)
    requires AtMcu(kind, f, scan, planes, source, imcu, vert, col) && Blank(dummies)
    ensures mcu == McuAt(f, scan, planes, imcu, vert, col) && Blank(dummies')
  {
    var i := 0;
    mcu, dummies' := [], dummies;
    while i < |scan|
      invariant i <= |scan| && mcu == McuTo(f, scan, planes, imcu, vert, col, i) && Blank(dummies')
    {
      mcu, dummies' := AppendComponent(kind, f, scan, planes, source, imcu, vert, col, i, mcu, dummies');
      i := i + 1;
    }
  }

  // ---- compress_first_pass: filling the virtual arrays ----

  // A block row of the input, with dummy blocks at the right margin.
  method FillRow(strip: Strip, c: Comp, ghost across: nat, ndummy: nat, y: nat) returns (row: seq<Block>)
    requires Usable(strip, c.width) && c.h >= 1 && y < |strip| && |strip[y]| == c.width && c.width + ndummy == across * c.h
    ensures PaddedRow(strip, c, across, y, row)
  {
    row := strip[y];
    var lastDc := strip[y][c.width - 1][0];
    var bi := 0;
    while bi < ndummy
      invariant bi <= ndummy && |row| == c.width + bi
      invariant forall x :: 0 <= x < |row| ==> row[x] == RowBlock(strip[y], c.width, x)
    {
      row := row + [Dummy(lastDc)];
      bi := bi + 1;
    }
    forall col | 0 <= col < across
      ensures PaddedMcu(strip, c, y, col, row)
    {
      RealMcuPadded(strip, c, across, y, col, row);
    }
  }

  lemma RealMcuPadded(strip: Strip, c: Comp, across: nat, y: nat, col: nat, row: seq<Block>)
    requires Usable(strip, c.width) && c.h >= 1 && y < |strip| && col < across && |row| == across * c.h
    requires forall x :: 0 <= x < |row| ==> row[x] == RowBlock(strip[y], c.width, x)
    ensures PaddedMcu(strip, c, y, col, row)
  {
    ScaleLe(col + 1, across, c.h);
    ScaleLe(0, col, c.h);
    TimesSum(col, 1, c.h);
    assert row[col * c.h..col * c.h + c.h] == McuRow(strip, c.width, c.h, y, col);
  }

  // A dummy row below the image: in each MCU, the DC coefficient of the last block of the row above.
  method FillDummyRow(ghost strip: Strip, c: Comp, across: nat, ghost y: nat, last: seq<Block>) returns (row: seq<Block>)
    requires Usable(strip, c.width) && c.h >= 1 && y >= |strip| && PaddedRow(strip, c, across, y - 1, last)
    ensures PaddedRow(strip, c, across, y, row)
  {
    row := [];
    var mcuIndex, base := 0, 0;
    while mcuIndex < across
      invariant mcuIndex <= across && |row| == base == mcuIndex * c.h
      invariant forall col :: 0 <= col < mcuIndex ==> PaddedMcu(strip, c, y, col, row)
    {
      var one := DummyMcu(strip, c, across, y, mcuIndex, base, last);
      McuAppended(strip, c, y, mcuIndex, row, one);
      row := row + one;
      TimesSum(mcuIndex, 1, c.h);
      mcuIndex, base := mcuIndex + 1, base + c.h;
    }
  }

  method DummyMcu(ghost strip: Strip, c: Comp, ghost across: nat, ghost y: nat, ghost col: nat, base: nat, last: seq<Block>)
    returns (one: seq<Block>)
    requires Usable(strip, c.width) && c.h >= 1 && y >= |strip| && PaddedRow(strip, c, across, y - 1, last)
    requires col < across && base == col * c.h
    ensures one == McuRow(strip, c.width, c.h, y, col)
  {
    assert PaddedMcu(strip, c, y - 1, col, last);
    ghost var above := McuRow(strip, c.width, c.h, y - 1, col);
    assert last[base..base + c.h][c.h - 1] == above[c.h - 1];
    var lastDc := last[base + (c.h - 1)][0];
    assert lastDc == McuBlock(strip, c.width, c.h, y, col, 0)[0];
    one := [];
    var bi := 0;
    while bi < c.h
      invariant bi <= c.h && one == McuRow(strip, c.width, c.h, y, col)[..bi]
    {
      OneMoreBlock([], McuRow(strip, c.width, c.h, y, col), bi);
      one := one + [Dummy(lastDc)];
      bi := bi + 1;
    }
  }

  lemma McuAppended(strip: Strip, c: Comp, y: nat, n: nat, row: seq<Block>, one: seq<Block>)
    requires Usable(strip, c.width) && c.h >= 1 && |row| == n * c.h && one == McuRow(strip, c.width, c.h, y, n)
    requires forall col :: 0 <= col < n ==> PaddedMcu(strip, c, y, col, row)
    ensures forall col :: 0 <= col <= n ==> PaddedMcu(strip, c, y, col, row + one)
  {
    forall col | 0 <= col <= n
      ensures PaddedMcu(strip, c, y, col, row + one)
    {
      if col < n {
        assert PaddedMcu(strip, c, y, col, row);
        ScaleLe(0, col, c.h);
        SliceKept(row, one, col * c.h, col * c.h + c.h);
      } else {
        assert (row + one)[n * c.h..n * c.h + c.h] == one;
      }
    }
  }

  lemma SliceKept(a: seq<Block>, b: seq<Block>, lo: nat, hi: nat)
    requires lo <= hi <= |a|
    ensures (a + b)[lo..hi] == a[lo..hi]
  {
  }

  // The strip of one component.
  method FillStrip(f: Frame, ci: nat, imcu: nat, strip: Strip) returns (arr: Strip)
    requires ValidFrame(f) && ci < |f.comps| && imcu < f.total && IsStrip(f, ci, imcu, strip)
    requires Usable(strip, f.comps[ci].width)
    ensures Padded(strip, f.comps[ci], f.across, arr)
  {
    assert ValidComp(f, ci);
    var c := f.comps[ci];
    LastCountIs(c.width, c.h, f.across);
    LastCountIs(c.height, c.v, f.total);
    TimesSum(f.across, -1, c.h);
    var blockRows := if imcu < f.total - 1 then c.v else if c.height % c.v == 0 then c.v else c.height % c.v;
    var ndummy := if c.width % c.h > 0 then c.h - c.width % c.h else 0;
    arr := [];
    var y := 0;
    while y < blockRows
      invariant y <= blockRows == |strip| && |arr| == y
      invariant forall k :: 0 <= k < y ==> PaddedRow(strip, c, f.across, k, arr[k])
    {
      var row := FillRow(strip, c, f.across, ndummy, y);
      arr := arr + [row];
      y := y + 1;
    }
    if imcu == f.total - 1 {
      while y < c.v
        invariant blockRows <= y <= c.v && |arr| == y
        invariant forall k :: 0 <= k < y ==> PaddedRow(strip, c, f.across, k, arr[k])
      {
        var row := FillDummyRow(strip, c, f.across, y, arr[y - 1]);
        arr := arr + [row];
        y := y + 1;
      }
    }
  }

  // ---- The controllers ----

  class CoefController {
    const kind: Kind
    const f: Frame
    const scan: seq<nat>
    const planes: seq<Plane>        // the real blocks of the image
    var source: seq<Plane>          // the input, or the virtual arrays
    var dummies: seq<Block>         // the dummy blocks of the transcoder
    var imcuRowNum: nat
    var mcuCtr: nat
    var mcuVertOffset: nat
    var mcuRowsPerImcuRow: nat
    var sent: seq<seq<Block>>       // what the entropy coder has taken

    function Position(): Pos
      reads this`imcuRowNum, this`mcuVertOffset, this`mcuCtr
    {
      Pos(imcuRowNum, mcuVertOffset, mcuCtr)
    }

    ghost predicate Fixed()
    {
      IsScan(f, scan) && ArePlanes(f, planes) && McuBlocks(f, scan, |scan|) <= C_MAX_BLOCKS_IN_MCU && f.total >= 1
    }

    ghost predicate Counting()
      requires Fixed()
      reads this`imcuRowNum, this`mcuCtr, this`mcuVertOffset, this`mcuRowsPerImcuRow
    {
      && imcuRowNum <= f.total
      && (imcuRowNum < f.total ==> mcuRowsPerImcuRow == McuRowsIn(f, scan, imcuRowNum)
                                   && mcuVertOffset <= mcuRowsPerImcuRow && mcuCtr <= McusPerRow(f, scan)
                                   && (mcuVertOffset == mcuRowsPerImcuRow ==> mcuCtr == 0))
      && (imcuRowNum == f.total ==> mcuCtr == mcuVertOffset == 0)
    }

    ghost predicate Valid()
      reads this
    {
      && Fixed() && Counting() && Blank(dummies)
      && sent == StreamBefore(f, scan, planes, Position())
      && |source| == |f.comps| && forall c :: 0 <= c < |f.comps| ==> |source[c]| == f.total
    }

    // start_pass_coef.
    constructor (kind: Kind, f: Frame, scan: seq<nat>, planes: seq<Plane>, source: seq<Plane>)
      requires IsScan(f, scan) && ArePlanes(f, planes) && McuBlocks(f, scan, |scan|) <= C_MAX_BLOCKS_IN_MCU && f.total >= 1
      requires |source| == |f.comps| && forall c :: 0 <= c < |f.comps| ==> |source[c]| == f.total
      ensures Valid() && Position() == Pos(0, 0, 0)
      ensures this.kind == kind && this.f == f && this.scan == scan && this.planes == planes && this.source == source
    {
      this.kind, this.f, this.scan, this.planes, this.source := kind, f, scan, planes, source;
      dummies := seq(C_MAX_BLOCKS_IN_MCU, _ => Dummy(0));
      imcuRowNum, mcuCtr, mcuVertOffset, sent := 0, 0, 0, [];
      mcuRowsPerImcuRow := McuRowsIn(f, scan, 0);
    }

    // start_iMCU_row.
    method StartImcuRow()
      requires Fixed()
      modifies this`mcuCtr, this`mcuVertOffset, this`mcuRowsPerImcuRow
      ensures mcuCtr == mcuVertOffset == 0 && mcuRowsPerImcuRow == McuRowsIn(f, scan, imcuRowNum)
    {
      if |scan| > 1 {
        mcuRowsPerImcuRow := 1;
      } else if imcuRowNum < f.total - 1 {
        mcuRowsPerImcuRow := f.comps[scan[0]].v;
      } else {
        assert ValidComp(f, scan[0]);
        mcuRowsPerImcuRow := LastCount(f.comps[scan[0]].height, f.comps[scan[0]].v);
      }
      mcuCtr := 0;
      mcuVertOffset := 0;
    }

    // The next MCU, if the entropy coder takes it.
    method EmitMcu(yoffset: nat, col: nat)
      requires Fixed() && Blank(dummies) && AtMcu(kind, f, scan, planes, source, imcuRowNum, yoffset, col)
      requires sent == StreamBefore(f, scan, planes, Pos(imcuRowNum, yoffset, col))
      modifies this`sent, this`dummies
      ensures Blank(dummies) && sent == StreamBefore(f, scan, planes, Pos(imcuRowNum, yoffset, col + 1))
    {
      var mcu, dummies' := BuildMcu(kind, f, scan, planes, source, imcuRowNum, yoffset, col, dummies);
      sent, dummies := sent + [mcu], dummies';
    }

    // What is left of an MCU row; taken counts the MCUs that the entropy coder has taken in this call.
    method CompressMcuRow(yoffset: nat, grant: nat, taken: nat, ghost start: Pos) returns (ok: bool, taken': nat)
      requires Valid() && imcuRowNum < f.total && Serves(kind, f, planes, source, imcuRowNum)
      requires yoffset == mcuVertOffset < mcuRowsPerImcuRow && taken <= grant
      requires AfterCall(f, scan, start, grant) == AfterCall(f, scan, Position(), grant - taken)
      modifies this`mcuCtr, this`sent, this`dummies
      ensures Blank(dummies) && taken' <= grant
      ensures !ok ==> Valid() && AfterCall(f, scan, start, grant) == Position()
      ensures ok ==> sent == StreamBefore(f, scan, planes, Pos(imcuRowNum, yoffset, McusPerRow(f, scan)))
      ensures ok ==> AfterCall(f, scan, start, grant) == AfterCall(f, scan, Pos(imcuRowNum, yoffset + 1, 0), grant - taken')
    {
      var col := mcuCtr;
      taken' := taken;
      while col < McusPerRow(f, scan)
        invariant Blank(dummies) && col <= McusPerRow(f, scan) && taken' <= grant
        invariant sent == StreamBefore(f, scan, planes, Pos(imcuRowNum, yoffset, col))
        invariant AfterCall(f, scan, start, grant) == AfterCall(f, scan, Pos(imcuRowNum, yoffset, col), grant - taken')
      {
        if taken' == grant {
          mcuCtr := col;
          return false, taken';
        }
        EmitMcu(yoffset, col);
        taken', col := taken' + 1, col + 1;
      }
      ok := true;
    }

    // One iMCU row, or as much of it as the entropy coder takes: grant MCUs, after which it suspends.
    method CompressImcuRow(grant: nat) returns (done: bool)
      requires Valid() && imcuRowNum < f.total && Serves(kind, f, planes, source, imcuRowNum)
      modifies this`imcuRowNum, this`mcuCtr, this`mcuVertOffset, this`mcuRowsPerImcuRow, this`sent, this`dummies
      ensures Valid() && Position() == AfterCall(f, scan, old(Position()), grant)
      ensures imcuRowNum == old(imcuRowNum) + (if done then 1 else 0)
    {
      ghost var start := Position();
      var taken: nat := 0;
      while mcuVertOffset < mcuRowsPerImcuRow
        invariant Valid() && imcuRowNum == start.imcu && taken <= grant
        invariant AfterCall(f, scan, start, grant) == AfterCall(f, scan, Position(), grant - taken)
        decreases mcuRowsPerImcuRow - mcuVertOffset
      {
        var ok;
        ok, taken := CompressMcuRow(mcuVertOffset, grant, taken, start);
        if !ok {
          return false;
        }
        mcuVertOffset, mcuCtr := mcuVertOffset + 1, 0;
      }
      imcuRowNum := imcuRowNum + 1;
      StartImcuRow();
      done := true;
    }

    // compress_first_pass: all components of the frame are stored, and those of the scan are emitted.
    method CompressFirstPass(grant: nat) returns (done: bool)
      requires Valid() && imcuRowNum < f.total && kind == Buffered
      modifies this
      ensures Valid() && Position() == AfterCall(f, scan, old(Position()), grant)
      ensures imcuRowNum == old(imcuRowNum) + (if done then 1 else 0)
      ensures Serves(kind, f, planes, source, old(imcuRowNum))
      ensures forall i :: 0 <= i < f.total && i != old(imcuRowNum) && old(Serves(kind, f, planes, source, i)) ==>
        Serves(kind, f, planes, source, i)
    {
      source := FillImcuRow(f, planes, source, imcuRowNum);
      done := CompressImcuRow(grant);
    }
  }

  // The input blocks of an iMCU row, padded, take their place in the virtual arrays.
  method FillImcuRow(f: Frame, planes: seq<Plane>, source: seq<Plane>, imcu: nat) returns (source': seq<Plane>)
    requires ValidFrame(f) && ArePlanes(f, planes) && imcu < f.total
    requires |source| == |f.comps| && forall c :: 0 <= c < |f.comps| ==> |source[c]| == f.total
    ensures |source'| == |source| && forall c :: 0 <= c < |f.comps| ==> |source'[c]| == f.total
    ensures Serves(Buffered, f, planes, source', imcu)
    ensures forall i :: 0 <= i < f.total && i != imcu && Serves(Buffered, f, planes, source, i) ==>
      Serves(Buffered, f, planes, source', i)
  {
    source' := source;
    var ci := 0;
    while ci < |f.comps|
      invariant ci <= |f.comps| && |source'| == |source| && forall c :: 0 <= c < |f.comps| ==> |source'[c]| == f.total
      invariant forall c :: 0 <= c < ci ==> ServesComp(Buffered, f, c, planes[c][imcu], source'[c][imcu])
      invariant forall c, i :: 0 <= c < |f.comps| && 0 <= i < f.total && i != imcu ==> source'[c][i] == source[c][i]
    {
      PlanesUsable(f, planes, ci, imcu);
      assert IsStrip(f, ci, imcu, planes[ci][imcu]);
      var arr := FillStrip(f, ci, imcu, planes[ci][imcu]);
      source' := source'[ci := source'[ci][imcu := arr]];
      ci := ci + 1;
    }
  }

  // ---- Whole scans ----

  ghost predicate ServesAll(kind: Kind, f: Frame, planes: seq<Plane>, source: seq<Plane>)
    requires ValidFrame(f) && ArePlanes(f, planes)
  {
    forall i :: 0 <= i < f.total ==> Serves(kind, f, planes, source, i)
  }

  ghost predicate Encodable(f: Frame, scan: seq<nat>, planes: seq<Plane>) {
    IsScan(f, scan) && ArePlanes(f, planes) && McuBlocks(f, scan, |scan|) <= C_MAX_BLOCKS_IN_MCU && f.total >= 1
  }

  // A pass over data that are all there: compress_data, a later pass of a compressor with virtual arrays, or the
  // transcoder.  grants says at which MCUs the entropy coder suspends.
  method CompressScan(kind: Kind, f: Frame, scan: seq<nat>, planes: seq<Plane>, source: seq<Plane>, grants: seq<nat>)
    returns (sent: seq<seq<Block>>)
    requires Encodable(f, scan, planes) && |source| == |f.comps| && ServesAll(kind, f, planes, source)
    requires forall c :: 0 <= c < |f.comps| ==> |source[c]| == f.total
    ensures AfterCalls(f, scan, grants).imcu <= f.total
    ensures AfterCalls(f, scan, grants).imcu == f.total ==> AfterCalls(f, scan, grants) == Pos(f.total, 0, 0)
    ensures sent == StreamBefore(f, scan, planes, AfterCalls(f, scan, grants)) && sent <= WholeStream(f, scan, planes)
  {
    var coef := new CoefController(kind, f, scan, planes, source);
    EndPrefixes(grants);
    for i := 0 to |grants|
      invariant fresh(coef) && coef.Valid() && coef.kind == kind && coef.f == f && coef.scan == scan && coef.planes == planes
      invariant coef.source == source && coef.Position() == AfterCalls(f, scan, grants[..i])
    {
      Prefixes(grants, i);
      if coef.imcuRowNum < f.total {
        var done := coef.CompressImcuRow(grants[i]);
      }
    }
    sent := coef.sent;
    StreamExtends(f, scan, planes, coef.Position());
  }

  // The first pass of a compressor with virtual arrays, which are arbitrary before it.
  method CompressFirst(f: Frame, scan: seq<nat>, planes: seq<Plane>, source: seq<Plane>, grants: seq<nat>)
    returns (sent: seq<seq<Block>>, arrays: seq<Plane>)
    requires Encodable(f, scan, planes) && |source| == |f.comps|
    requires forall c :: 0 <= c < |f.comps| ==> |source[c]| == f.total
    ensures AfterCalls(f, scan, grants).imcu <= f.total
    ensures AfterCalls(f, scan, grants).imcu == f.total ==> AfterCalls(f, scan, grants) == Pos(f.total, 0, 0)
    ensures sent == StreamBefore(f, scan, planes, AfterCalls(f, scan, grants))
    ensures |arrays| == |f.comps| && forall c :: 0 <= c < |f.comps| ==> |arrays[c]| == f.total
    ensures AfterCalls(f, scan, grants).imcu == f.total ==> ServesAll(Buffered, f, planes, arrays)
  {
    var coef := new CoefController(Buffered, f, scan, planes, source);
    EndPrefixes(grants);
    for i := 0 to |grants|
      invariant fresh(coef) && coef.Valid() && coef.kind == Buffered && coef.f == f && coef.scan == scan && coef.planes == planes
      invariant coef.Position() == AfterCalls(f, scan, grants[..i])
      invariant forall k :: 0 <= k < coef.imcuRowNum ==> Serves(Buffered, f, planes, coef.source, k)
    {
      Prefixes(grants, i);
      if coef.imcuRowNum < f.total {
        var done := coef.CompressFirstPass(grants[i]);
      }
    }
    sent, arrays := coef.sent, coef.source;
  }

  lemma PlanesServe(kind: Kind, f: Frame, planes: seq<Plane>)
    requires ValidFrame(f) && ArePlanes(f, planes) && kind != Buffered
    ensures ServesAll(kind, f, planes, planes)
  {
    forall i, c | 0 <= i < f.total && 0 <= c < |f.comps|
      ensures ServesComp(kind, f, c, planes[c][i], planes[c][i])
    {
      assert IsStrip(f, c, i, planes[c][i]);
    }
  }

  // Whatever the suspensions, the image size and the sampling factors, and whatever the virtual arrays hold outside
  // the image: all controllers hand the entropy coder the same MCUs, in the same order.  A later pass is made
  // once the first one has seen the whole image.
  method SameStream(f: Frame, scan: seq<nat>, planes: seq<Plane>, empty: seq<Plane>, supplied: seq<Plane>, grants: seq<nat>)
    returns (single: seq<seq<Block>>, first: seq<seq<Block>>, later: seq<seq<Block>>, transcoded: seq<seq<Block>>)
    requires Encodable(f, scan, planes) && |empty| == |supplied| == |f.comps| && ServesAll(Transcode, f, planes, supplied)
    requires forall c :: 0 <= c < |f.comps| ==> |empty[c]| == |supplied[c]| == f.total
    ensures single == first == transcoded <= WholeStream(f, scan, planes)
    ensures AfterCalls(f, scan, grants).imcu == f.total ==> later == single == WholeStream(f, scan, planes)
  {
    PlanesServe(SinglePass, f, planes);
    single := CompressScan(SinglePass, f, scan, planes, planes, grants);
    var arrays;
    first, arrays := CompressFirst(f, scan, planes, empty, grants);
    transcoded := CompressScan(Transcode, f, scan, planes, supplied, grants);
    later := [];
    if AfterCalls(f, scan, grants).imcu == f.total {
      later := CompressScan(Buffered, f, scan, planes, arrays, grants);
    }
  }
}
