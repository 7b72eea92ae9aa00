// The two pointer lists of jdmainct.c over a workspace of M + 2 row groups, for one component: what a
// reader sees through them.
module ContextPointers {
  import opened Numerals

  // M row groups in an iMCU row, of rgroup sample rows each, which makes rows; the component has
  // height rows, in total iMCU rows.
  datatype Shape = Shape(M: nat, rgroup: nat, rows: nat, height: nat, total: nat)

  predicate IsShape(sh: Shape) {
    && sh.M >= 2 && sh.rgroup >= 1 && sh.total >= 1 && sh.rows == sh.rgroup * sh.M
    && (sh.total - 1) * sh.rows < sh.height <= sh.total * sh.rows
  }

  // Two row groups fit an iMCU row, which is all that the pointers need.
  predicate Roomy(sh: Shape) {
    sh.rgroup >= 1 && sh.rows >= 2 * sh.rgroup && sh.height >= 1
  }

  lemma ShapeIsRoomy(sh: Shape)
    requires IsShape(sh)
    ensures Roomy(sh)
    ensures sh.rgroup * (sh.M - 2) == sh.rows - 2 * sh.rgroup && sh.rgroup * (sh.M - 1) == sh.rows - sh.rgroup
    ensures sh.rgroup * (sh.M + 1) == sh.rows + sh.rgroup && sh.rgroup * (sh.M + 2) == sh.rows + 2 * sh.rgroup
    ensures sh.rgroup * (sh.M + 4) == sh.rows + 4 * sh.rgroup
  {
    ScaleLe(2, sh.M, sh.rgroup);
    ScaleLe(0, sh.total - 1, sh.rows);
  }

  // The row of the workspace behind position i of list w, when no pointer is diddled: in the second
  // list the last four row groups are in swapped order.
  function PhysRow(sh: Shape, w: nat, i: nat): (r: nat)
    requires Roomy(sh) && i < sh.rows + 2 * sh.rgroup
    ensures r < sh.rows + 2 * sh.rgroup
  {
    if w == 0 || i < sh.rows - 2 * sh.rgroup then i
    else if i < sh.rows then i + 2 * sh.rgroup
    else i - 2 * sh.rgroup
  }

  lemma PhysInjective(sh: Shape, w: nat, i: nat, j: nat)
    requires Roomy(sh) && i < sh.rows + 2 * sh.rgroup && j < sh.rows + 2 * sh.rgroup
    requires PhysRow(sh, w, i) == PhysRow(sh, w, j)
    ensures i == j
  {
  }

  // The last two row groups of one list are the spare ones of the other.
  lemma PhysSwapped(sh: Shape, w: nat, i: nat)
    requires Roomy(sh) && w <= 1 && i < 2 * sh.rgroup
    ensures PhysRow(sh, 1 - w, sh.rows + i) == PhysRow(sh, w, sh.rows - 2 * sh.rgroup + i)
  {
  }

  // A list holds one row group before position 0, the M + 2 of the workspace, and one more.
  predicate IsList(sh: Shape, x: seq<nat>) {
    Roomy(sh) && |x| == sh.rows + 4 * sh.rgroup
  }

  ghost predicate MainPart(sh: Shape, x: seq<nat>, w: nat) {
    IsList(sh, x) && forall j :: sh.rgroup <= j < sh.rows + 3 * sh.rgroup ==> x[j] == PhysRow(sh, w, j - sh.rgroup)
  }

  // At the top of the image the rows above duplicate the first one.
  ghost predicate TopState(sh: Shape, x: seq<nat>) {
    MainPart(sh, x, 0) && forall i :: 0 <= i < sh.rgroup ==> x[i] == 0
  }

  // The normal state: the lists wrap around at both ends.
  ghost predicate Wrapped(sh: Shape, x: seq<nat>, w: nat) {
    && MainPart(sh, x, w)
    && (forall j :: 0 <= j < sh.rgroup ==> x[j] == PhysRow(sh, w, sh.rows + sh.rgroup + j))
    && (forall j :: sh.rows + 3 * sh.rgroup <= j < sh.rows + 4 * sh.rgroup ==>
          x[j] == PhysRow(sh, w, j - (sh.rows + 3 * sh.rgroup)))
  }

  // List w as it is used for the iMCU row that starts at image row top.
  ghost predicate ListFor(sh: Shape, x: seq<nat>, w: nat, top: nat) {
    if top == 0 then w == 0 && TopState(sh, x) else Wrapped(sh, x, w)
  }

  // The workspace once an iMCU row has been read through list w: that row, and the last two row groups
  // of the one before.  A workspace row is known by the number of the image row that it holds.
  ghost predicate Loaded(sh: Shape, buffer: seq<int>, w: nat, top: nat) {
    && Roomy(sh) && |buffer| == sh.rows + 2 * sh.rgroup
    && (forall i :: 0 <= i < sh.rows ==> buffer[PhysRow(sh, w, i)] == top + i)
    && (top > 0 ==> Kept(sh, buffer, w, top))
  }

  ghost predicate Kept(sh: Shape, buffer: seq<int>, w: nat, top: nat) {
    && Roomy(sh) && |buffer| == sh.rows + 2 * sh.rgroup
    && forall i :: sh.rows <= i < sh.rows + 2 * sh.rgroup ==>
         buffer[PhysRow(sh, w, i)] == top - 2 * sh.rgroup + (i - sh.rows)
  }

  // What is left of an iMCU row when the lists are switched is what the next one needs.
  lemma KeptForNext(sh: Shape, buffer: seq<int>, w: nat, top: nat)
    requires Loaded(sh, buffer, w, top) && w <= 1
    ensures Kept(sh, buffer, 1 - w, top + sh.rows)
  {
    var w' := 1 - w;
    forall i | sh.rows <= i < sh.rows + 2 * sh.rgroup
      ensures buffer[PhysRow(sh, w', i)] == top + sh.rows - 2 * sh.rgroup + (i - sh.rows)
    {
      PhysSwapped(sh, w, i - sh.rows);
      assert buffer[PhysRow(sh, w, i - 2 * sh.rgroup)] == top + (i - 2 * sh.rgroup);
    }
  }

  // ---- What is seen ----

  function View(sh: Shape, buffer: seq<int>, x: seq<nat>, i: int): int
    requires 0 <= sh.rgroup + i < |x| && x[sh.rgroup + i] < |buffer|
  {
    buffer[x[sh.rgroup + i]]
  }

  // The image row r, clamped to the image.
  function Clamped(sh: Shape, r: int): int {
    if r < 0 then 0 else if r < sh.height then r else sh.height - 1
  }

  // Position i shows image row i + d.
  ghost predicate Shows(sh: Shape, buffer: seq<int>, x: seq<nat>, i: int, d: int) {
    0 <= sh.rgroup + i < |x| && x[sh.rgroup + i] < |buffer| && View(sh, buffer, x, i) == Clamped(sh, i + d)
  }

  // A row group at position i, with the sample row above it and the one below.
  ghost predicate GroupAt(sh: Shape, buffer: seq<int>, x: seq<nat>, i: int, d: int) {
    forall j :: i - 1 <= j <= i + sh.rgroup ==> Shows(sh, buffer, x, j, d)
  }

  // What a reader should see of the row group that starts at row first.
  function Window(sh: Shape, first: int): seq<int> {
    seq(sh.rgroup + 2, i requires 0 <= i < sh.rgroup + 2 => Clamped(sh, first - 1 + i))
  }

  // The rows of an iMCU row and the one above it.
  lemma ShowsOwn(sh: Shape, buffer: seq<int>, x: seq<nat>, w: nat, top: nat, i: int)
    requires ListFor(sh, x, w, top) && Loaded(sh, buffer, w, top) && -1 <= i < sh.rows && top + i < sh.height
    ensures Shows(sh, buffer, x, i, top)
  {
    if i >= 0 {
      assert x[sh.rgroup + i] == PhysRow(sh, w, i);
    } else if top == 0 {
      assert x[sh.rgroup - 1] == PhysRow(sh, 0, 0);
    } else {
      assert x[sh.rgroup - 1] == PhysRow(sh, w, sh.rows + sh.rgroup + (sh.rgroup - 1));
    }
  }

  // The last row group of the iMCU row before, with the rows around it.
  lemma ShowsPostponed(sh: Shape, buffer: seq<int>, x: seq<nat>, w: nat, top: nat, i: int)
    requires ListFor(sh, x, w, top) && Loaded(sh, buffer, w, top) && 0 <= i <= 2 * sh.rgroup && 2 * sh.rgroup <= top < sh.height
    ensures Shows(sh, buffer, x, sh.rows + i, top - 2 * sh.rgroup - sh.rows)
  {
    if i < 2 * sh.rgroup {
      assert x[sh.rgroup + (sh.rows + i)] == PhysRow(sh, w, sh.rows + i);
    } else {
      assert x[sh.rows + 3 * sh.rgroup + 0] == PhysRow(sh, w, 0);
    }
  }

  // ---- The bottom of the image ----

  // The last real row, at position left - 1, duplicated over the next two row groups.
  ghost predicate Bottomed(sh: Shape, x: seq<nat>, x': seq<nat>, left: nat) {
    && IsList(sh, x) && |x'| == |x| && 1 <= left <= sh.rows
    && forall j :: 0 <= j < |x| ==>
         x'[j] == if sh.rgroup + left <= j < left + 3 * sh.rgroup then x[sh.rgroup + left - 1] else x[j]
  }

  lemma ShowsBottom(sh: Shape, buffer: seq<int>, x: seq<nat>, x': seq<nat>, w: nat, top: nat, left: nat, i: int)
    requires ListFor(sh, x, w, top) && Loaded(sh, buffer, w, top) && Bottomed(sh, x, x', left)
    requires top + left == sh.height && -1 <= i < left + 2 * sh.rgroup
    ensures Shows(sh, buffer, x', i, top)
  {
    if i < left {
      ShowsOwn(sh, buffer, x, w, top, i);
    } else {
      ShowsOwn(sh, buffer, x, w, top, left - 1);
    }
  }

  // ---- The routines that fill the lists ----

  // make_funny_pointers.  The workspace pointers are the numbers of its rows.
  method MakeFunnyPointers(sh: Shape) returns (xbuf0: seq<nat>, xbuf1: seq<nat>)
    requires IsShape(sh)
    ensures TopState(sh, xbuf0) && MainPart(sh, xbuf1, 1)
  {
    ShapeIsRoomy(sh);
    var rgroup, M := sh.rgroup, sh.M;
    xbuf0 := seq(rgroup * (M + 4), _ => 0);
    xbuf1 := xbuf0;
    var all, fourth, second := rgroup * (M + 2), rgroup * (M - 2), rgroup * M;
    var i := 0;
    while i < all
      invariant 0 <= i <= sh.rows + 2 * rgroup && |xbuf0| == |xbuf1| == sh.rows + 4 * rgroup
      invariant forall j :: rgroup <= j < rgroup + i ==> xbuf0[j] == xbuf1[j] == j - rgroup
    {
      xbuf0 := xbuf0[rgroup + i := i];
      xbuf1 := xbuf1[rgroup + i := i];
      i := i + 1;
    }
    xbuf1 := SwapLastFour(sh, xbuf1, fourth, second);
    i := 0;
    while i < rgroup
      invariant 0 <= i <= rgroup && |xbuf0| == sh.rows + 4 * rgroup
      invariant forall j :: rgroup <= j < sh.rows + 3 * rgroup ==> xbuf0[j] == j - rgroup
      invariant forall j :: 0 <= j < i ==> xbuf0[j] == 0
    {
      xbuf0 := xbuf0[i := xbuf0[rgroup]];
      i := i + 1;
    }
  }

  // The last four row groups start at position fourth, the last two at second.
  method SwapLastFour(sh: Shape, x: seq<nat>, fourth: nat, second: nat) returns (x': seq<nat>)
    requires IsList(sh, x) && second == sh.rows && fourth == sh.rows - 2 * sh.rgroup
    requires forall j :: sh.rgroup <= j < sh.rows + 3 * sh.rgroup ==> x[j] == j - sh.rgroup
    ensures MainPart(sh, x', 1)
  {
    var rgroup, i := sh.rgroup, 0;
    x' := x;
    while i < rgroup * 2
      invariant 0 <= i <= 2 * rgroup && |x'| == |x|
      invariant forall j :: rgroup <= j < rgroup + fourth ==> x'[j] == j - rgroup
      invariant forall j :: rgroup + fourth <= j < rgroup + second ==>
        x'[j] == if j < rgroup + fourth + i then j - rgroup + 2 * rgroup else j - rgroup
      invariant forall j :: rgroup + second <= j < 3 * rgroup + second ==>
        x'[j] == if j < rgroup + second + i then j - rgroup - 2 * rgroup else j - rgroup
    {
      x' := x'[rgroup + (fourth + i) := second + i];
      x' := x'[rgroup + (second + i) := fourth + i];
      i := i + 1;
    }
  }

  // One list's part of set_wraparound_pointers.
  method SetWraparound(sh: Shape, x: seq<nat>, ghost w: nat) returns (x': seq<nat>)
    requires IsShape(sh) && IsList(sh, x)
    ensures IsList(sh, x') && (MainPart(sh, x, w) ==> Wrapped(sh, x', w))
  {
    ShapeIsRoomy(sh);
    var rgroup, M := sh.rgroup, sh.M;
    var last, beyond := rgroup * (M + 1), rgroup * (M + 2);
    x' := x;
    var i := 0;
    while i < rgroup
      invariant 0 <= i <= rgroup && IsList(sh, x') && (MainPart(sh, x, w) ==> MainPart(sh, x', w))
      invariant MainPart(sh, x, w) ==> forall j :: 0 <= j < i ==> x'[j] == PhysRow(sh, w, sh.rows + rgroup + j)
      invariant MainPart(sh, x, w) ==>
        forall j :: sh.rows + 3 * rgroup <= j < sh.rows + 3 * rgroup + i ==> x'[j] == PhysRow(sh, w, j - (sh.rows + 3 * rgroup))
    {
      x' := x'[i := x'[rgroup + (last + i)]];
      x' := x'[rgroup + (beyond + i) := x'[rgroup + i]];
      i := i + 1;
    }
  }

  // set_bottom_pointers for one component, which also counts the nondummy row groups.
  method SetBottomPointers(sh: Shape, x: seq<nat>) returns (x': seq<nat>, avail: nat, ghost left: nat)
    requires IsShape(sh) && IsList(sh, x)
    ensures Bottomed(sh, x, x', left) && (sh.total - 1) * sh.rows + left == sh.height
    ensures avail == RowGroups(left, sh.rgroup)
  {
    ShapeIsRoomy(sh);
    var rowsLeft := sh.height % sh.rows;
    LastRows(sh);
    if rowsLeft == 0 {
      rowsLeft := sh.rows;
    }
    RowGroupsAre(rowsLeft, sh.rgroup);
    avail := (rowsLeft - 1) / sh.rgroup + 1;
    x' := x;
    var i := 0;
    while i < sh.rgroup * 2
      invariant 0 <= i <= 2 * sh.rgroup && |x'| == |x|
      invariant forall j :: 0 <= j < |x| ==>
        x'[j] == if sh.rgroup + rowsLeft <= j < sh.rgroup + rowsLeft + i then x[sh.rgroup + rowsLeft - 1] else x[j]
    {
      x' := x'[sh.rgroup + (rowsLeft + i) := x'[sh.rgroup + (rowsLeft - 1)]];
      i := i + 1;
    }
    left := rowsLeft;
  }

  // The row groups that a number of rows fills, if only in part.
  function RowGroups(rows: int, rgroup: nat): (n: nat)
    requires rgroup > 0
    decreases rows
  {
    if rows <= rgroup then 1 else RowGroups(rows - rgroup, rgroup) + 1
  }

  lemma {:induction false} RowGroupsAre(rows: nat, rgroup: nat)
    requires rgroup > 0 && rows > 0
    ensures RowGroups(rows, rgroup) == (rows - 1) / rgroup + 1
    decreases rows
  {
    if rows <= rgroup {
      DivModIs(rows - 1, 0, rgroup, rows - 1);
    } else {
      RowGroupsAre(rows - rgroup, rgroup);
      var q, r := (rows - rgroup - 1) / rgroup, (rows - rgroup - 1) % rgroup;
      TimesSum(q, 1, rgroup);
      DivModIs(rows - 1, q + 1, rgroup, r);
    }
  }

  // The rows of the last iMCU row.
  lemma LastRows(sh: Shape)
    requires IsShape(sh)
    ensures var r := sh.height % sh.rows;
      sh.rows > 0 && (sh.total - 1) * sh.rows + (if r == 0 then sh.rows else r) == sh.height
  {
    ShapeIsRoomy(sh);
    var q, r := sh.height / sh.rows, sh.height % sh.rows;
    assert sh.height == q * sh.rows + r;
    var last := if r == 0 then q - 1 else q;
    assert sh.height == last * sh.rows + (if r == 0 then sh.rows else r) by {
      assert (q - 1) * sh.rows == q * sh.rows - sh.rows;
    }
    if last < sh.total - 1 {
      ScaleLe(last + 1, sh.total - 1, sh.rows);
    } else if sh.total - 1 < last {
      ScaleLe(sh.total, last, sh.rows);
    }
  }
}
