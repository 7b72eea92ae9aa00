// jcprepct.c: the compressor stores three row groups in a ring and reaches them through a list of five, so
// that the downsampler finds the row groups above and below the one it works on.
module PrepContext {
  import opened Numerals

  // ---- What the downsampler should see ----

  function Clamp(r: int, h: nat): int
    requires h > 0
  {
    if r < 0 then 0 else if r >= h then h - 1 else r
  }

  // The image rows of the row group that begins at row first, and of the two groups beside it.
  function Window(v: nat, h: nat, first: int): seq<int>
    requires h > 0
  {
    seq(3 * v, j requires 0 <= j < 3 * v => Clamp(first - v + j, h))
  }

  // The row groups seen so far are the first ones of the image, in order.
  ghost predicate InOrder(v: nat, h: nat, seen: seq<seq<int>>)
    requires h > 0
  {
    forall k :: 0 <= k < |seen| ==> seen[k] == Window(v, h, k * v)
  }

  // ---- The wrapped list ----

  // Entry i stands for row i - v of the buffer: the groups at both ends are the last and the first.
  function PhysRow(v: nat, i: nat): (p: nat)
    requires i < 5 * v
    ensures p < 3 * v
  {
    if i < v then 2 * v + i else if i < 4 * v then i - v else i - 4 * v
  }

  ghost predicate Wrapped(v: nat, list: seq<nat>) {
    |list| == 5 * v && forall i :: 0 <= i < 5 * v ==> list[i] == PhysRow(v, i)
  }

  // create_context_buffer.
  method CreateContextBuffer(v: nat) returns (list: seq<nat>)
    ensures Wrapped(v, list)
  {
    var fake := new nat[5 * v](_ => 0);
    var i := 0;
    while i < 3 * v
      invariant i <= 3 * v && forall j :: v <= j < v + i ==> fake[j] == j - v
    {
      fake[v + i] := i;
      i := i + 1;
    }
    i := 0;
    while i < v
      invariant i <= v && forall j :: v <= j < 4 * v ==> fake[j] == j - v
      invariant forall j :: 0 <= j < i ==> fake[j] == 2 * v + j
      invariant forall j :: 4 * v <= j < 4 * v + i ==> fake[j] == j - 4 * v
    {
      fake[i] := 2 * v + i;
      fake[4 * v + i] := i;
      i := i + 1;
    }
    list := fake[..];
  }

  // ---- The ring ----

  // The rows before next hold image rows lap, lap + 1, ...; the others still hold those one lap earlier.
  // On the first lap that is nothing, but for the copies of the first row if they have been made.
  ghost predicate Held(v: nat, h: nat, rows: seq<int>, lap: nat, next: nat, top: bool)
    requires h > 0
  {
    && |rows| == 3 * v && next <= 3 * v
    && (forall p :: 0 <= p < next ==> rows[p] == Clamp(lap + p, h))
    && (forall p :: next <= p < 3 * v && (lap > 0 || (top && p >= 2 * v)) ==> rows[p] == Clamp(lap - 3 * v + p, h))
  }

  lemma HeldMore(v: nat, h: nat, rows: seq<int>, lap: nat, next: nat, top: bool, x: int)
    requires h > 0 && Held(v, h, rows, lap, next, top) && next < 3 * v && x == Clamp(lap + next, h)
    ensures Held(v, h, rows[next := x], lap, next + 1, top)
  {
  }

  lemma HeldNextLap(v: nat, h: nat, rows: seq<int>, lap: nat, top: bool)
    requires h > 0 && v > 0 && Held(v, h, rows, lap, 3 * v, top)
    ensures Held(v, h, rows, lap + 3 * v, 0, true)
  {
  }

  lemma HeldTop(v: nat, h: nat, rows: seq<int>, rows': seq<int>, next: nat)
    requires h > 0 && Held(v, h, rows, 0, next, false) && 1 <= next <= 2 * v && |rows'| == |rows|
    requires forall p :: 0 <= p < 2 * v ==> rows'[p] == rows[p]
    requires forall p :: 2 * v <= p < 3 * v ==> rows'[p] == rows[0]
    ensures Held(v, h, rows', 0, next, true)
  {
    assert rows[0] == Clamp(0, h);
  }

  // stop is the end of the row group after the one that begins at first; the row groups go round.
  ghost predicate Counted(v: nat, h: nat, toGo: nat, next: nat, group: nat, stop: nat, lap: nat, first: nat) {
    && ((stop == v && lap > 0) || stop == 2 * v || stop == 3 * v) && next <= stop
    && (stop <= next + v || (lap == 0 && stop == 2 * v)) && first + 2 * v == lap + stop
    && group == (if stop == v then 2 * v else stop - 2 * v)
    && toGo == (if lap + next <= h then h - (lap + next) else 0)
  }

  // The row behind entry group + j of the list is the one that the window has at j.
  lemma RowInWindow(v: nat, h: nat, rows: seq<int>, lap: nat, stop: nat, group: nat, first: nat, toGo: nat, j: nat)
    requires h > 0 && v > 0 && Held(v, h, rows, lap, stop, true) && Counted(v, h, toGo, stop, group, stop, lap, first)
    requires j < 3 * v
    ensures group + j < 5 * v && rows[PhysRow(v, group + j)] == Window(v, h, first)[j]
  {
    var p := PhysRow(v, group + j);
    if p < stop {
      assert lap + p == first - v + j;
    } else {
      assert lap - 3 * v + p == first - v + j;
    }
  }

  // The row before next holds the last row of the image once all rows have been stored.
  lemma LastRowStored(v: nat, h: nat, rows: seq<int>, lap: nat, next: nat)
    requires h > 0 && v > 0 && Held(v, h, rows, lap, next, true) && h <= lap + next && next < 3 * v
    ensures rows[PhysRow(v, v + next - 1)] == h - 1
  {
    if next == 0 {
      assert rows[3 * v - 1] == Clamp(lap - 1, h);
    } else {
      assert rows[next - 1] == Clamp(lap + next - 1, h);
    }
  }

  // ---- The controller ----

  class PrepController {
    const v: nat             // max_v_samp_factor, the rows of a row group
    const height: nat
    const colorBuf: seq<nat> // the list of row pointers, which begins one row group above the buffer
    const rows: array<int>   // for each physical row, the image row that it holds
    var rowsToGo: nat
    var nextBufRow: nat
    var thisRowGroup: nat
    var nextBufStop: nat
    var seen: seq<seq<int>>  // what the downsampler has looked at
    ghost var lap: nat       // the image row stored in physical row 0 this time round
    ghost var first: nat     // the first row of the row group to be downsampled next

    ghost predicate Fixed()
      reads this
    {
      v > 0 && height > 0 && Wrapped(v, colorBuf) && rows.Length == 3 * v
    }

    ghost predicate Valid()
      reads this, rows
    {
      Between() && nextBufRow < nextBufStop
    }

    ghost predicate Between()
      reads this, rows
    {
      && Fixed() && InOrder(v, height, seen) && first == |seen| * v
      && Counted(v, height, rowsToGo, nextBufRow, thisRowGroup, nextBufStop, lap, first)
      && Held(v, height, rows[..], lap, nextBufRow, lap + nextBufRow > 0)
    }

    // jinit_c_prep_controller and start_pass_prep.
    constructor (v: nat, height: nat)
      requires v > 0 && height > 0
      ensures Valid() && fresh(rows) && this.v == v && this.height == height && rowsToGo == height && seen == []
    {
      this.v, this.height := v, height;
      var list := CreateContextBuffer(v);
      colorBuf := list;
      rows := new int[3 * v](_ => -1);
      rowsToGo, nextBufRow, thisRowGroup, nextBufStop := height, 0, 0, 2 * v;
      seen, lap, first := [], 0, 0;
    }

    // Colour conversion of n rows into the buffer: the next rows of the image.
    method StoreRows(n: nat)
      requires Between() && 1 <= n <= rowsToGo && nextBufRow + n <= nextBufStop
      modifies rows
      ensures Held(v, height, rows[..], lap, nextBufRow + n, lap + nextBufRow > 0)
    {
      ghost var top := lap + nextBufRow > 0;
      var source, i := height - rowsToGo, 0;
      while i < n
        invariant i <= n && Held(v, height, rows[..], lap, nextBufRow + i, top)
      {
        HeldMore(v, height, rows[..], lap, nextBufRow + i, top, source + i);
        ghost var was := rows[..];
        rows[colorBuf[v + nextBufRow + i]] := source + i;
        assert rows[..] == was[nextBufRow + i := source + i];
        i := i + 1;
      }
    }

    // Padding at the top of the image: copies of the first row above it.
    method PadTop(ghost n: nat)
      requires Fixed() && lap == 0 && Held(v, height, rows[..], 0, n, false) && 1 <= n <= 2 * v
      modifies rows
      ensures Held(v, height, rows[..], 0, n, true)
    {
      ghost var was := rows[..];
      var row := 1;
      while row <= v
        invariant 1 <= row <= v + 1
        invariant forall p :: 0 <= p < 2 * v ==> rows[p] == was[p]
        invariant forall p :: 3 * v - row < p < 3 * v ==> rows[p] == was[0]
      {
        rows[colorBuf[v - row]] := rows[colorBuf[v]];
        row := row + 1;
      }
      HeldTop(v, height, was, rows[..], n);
    }

    // expand_bottom_edge, from the next row to the stop.
    method PadBottom()
      requires Between() && rowsToGo == 0 && nextBufRow < nextBufStop
      modifies this`nextBufRow, rows
      ensures Between() && nextBufRow == nextBufStop
    {
      LastRowStored(v, height, rows[..], lap, nextBufRow);
      var last := rows[colorBuf[v + nextBufRow - 1]];
      var row := nextBufRow;
      while row < nextBufStop
        invariant nextBufRow <= row <= nextBufStop && Held(v, height, rows[..], lap, row, true)
      {
        HeldMore(v, height, rows[..], lap, row, true, last);
        ghost var was := rows[..];
        rows[colorBuf[v + row]] := last;
        assert rows[..] == was[row := last];
        row := row + 1;
      }
      nextBufRow := nextBufStop;
    }

    // What the downsampler finds through the list.
    method Downsample() returns (window: seq<int>)
      requires Between() && nextBufRow == nextBufStop
      ensures window == Window(v, height, first)
    {
      window := [];
      while |window| < 3 * v
        invariant |window| <= 3 * v && window == Window(v, height, first)[..|window|]
      {
        RowInWindow(v, height, rows[..], lap, nextBufStop, thisRowGroup, first, rowsToGo, |window|);
        window := window + [rows[colorBuf[thisRowGroup + |window|]]];
      }
    }

    // Downsampling one row group, and advancing with wraparound.
    method DownsampleGroup()
      requires Between() && nextBufRow == nextBufStop
      modifies this`nextBufRow, this`thisRowGroup, this`nextBufStop, this`seen, this`lap, this`first
      ensures Valid() && |seen| == |old(seen)| + 1 && old(seen) <= seen
    {
      var window := Downsample();
      TimesSum(|seen|, 1, v);
      seen := seen + [window];
      first := first + v;
      thisRowGroup := thisRowGroup + v;
      if thisRowGroup >= 3 * v {
        thisRowGroup := 0;
      }
      if nextBufRow >= 3 * v {
        HeldNextLap(v, height, rows[..], lap, true);
        nextBufRow, lap := 0, lap + 3 * v;
      }
      nextBufStop := nextBufRow + v;
    }

    // Taking as many rows as are offered and as fit before the stop.
    method ReadRows(offered: nat) returns (n: nat)
      requires Valid() && 1 <= offered <= rowsToGo
      modifies this`rowsToGo, this`nextBufRow, rows
      ensures Between() && 1 <= n <= offered && rowsToGo == old(rowsToGo) - n
    {
      n := if nextBufStop - nextBufRow <= offered then nextBufStop - nextBufRow else offered;
      StoreRows(n);
      if rowsToGo == height {
        PadTop(n);
      }
      nextBufRow := nextBufRow + n;
      rowsToGo := rowsToGo - n;
    }

    // pre_process_context, with inAvail rows of the image on offer and room for some row groups.
    method PreProcessContext(inAvail: nat, outAvail: nat, outCtr: nat) returns (inCtr: nat, outCtr': nat)
      requires Valid() && inAvail <= rowsToGo
      modifies this, rows
      ensures Valid() && old(seen) <= seen && |seen| - |old(seen)| == outCtr' - outCtr
      ensures inCtr <= inAvail && rowsToGo == old(rowsToGo) - inCtr
      ensures outCtr <= outCtr' && (outCtr' <= outAvail || outCtr' == outCtr)
      ensures outCtr' >= outAvail || (inCtr == inAvail && rowsToGo > 0)
    {
      inCtr, outCtr' := 0, outCtr;
      while outCtr' < outAvail
        invariant Valid() && old(seen) <= seen && |seen| - |old(seen)| == outCtr' - outCtr
        invariant inCtr <= inAvail && rowsToGo == old(rowsToGo) - inCtr
        invariant outCtr <= outCtr' && (outCtr' <= outAvail || outCtr' == outCtr)
        decreases (inAvail - inCtr) + (outAvail - outCtr')
      {
        if inCtr < inAvail {
          var n := ReadRows(inAvail - inCtr);
          inCtr := inCtr + n;
        } else {
          if rowsToGo != 0 {
            break;
          }
          PadBottom();
        }
        if nextBufRow == nextBufStop {
          DownsampleGroup();
          outCtr' := outCtr' + 1;
        }
      }
    }
  }

  // ---- Whole images ----

  // One call: the rows that the application offers, and the row groups that there is room for.
  datatype Call = Call(rows: nat, room: nat)

  predicate AllActive(calls: seq<Call>) {
    forall i :: 0 <= i < |calls| ==> calls[i].rows > 0 && calls[i].room > 0
  }

  // However the rows are split across calls, each row group is downsampled once, in order, between the right
  // neighbours; and every call that can do something takes a row or fills a row group.
  method DownsampleImage(v: nat, height: nat, calls: seq<Call>) returns (seen: seq<seq<int>>, left: nat)
    requires v > 0 && height > 0
    ensures InOrder(v, height, seen) && left <= height
    ensures AllActive(calls) ==> |seen| + (height - left) >= |calls|
    ensures left > 0 ==> height - left <= (|seen| + 2) * v
  {
    var prep := new PrepController(v, height);
    var i := 0;
    while i < |calls|
      invariant fresh(prep) && fresh(prep.rows) && prep.Valid() && prep.v == v && prep.height == height
      invariant i <= |calls| && prep.rowsToGo <= height
      invariant AllActive(calls) ==> |prep.seen| + (height - prep.rowsToGo) >= i
    {
      var offered := if calls[i].rows <= prep.rowsToGo then calls[i].rows else prep.rowsToGo;
      var inCtr, outCtr := prep.PreProcessContext(offered, calls[i].room, 0);
      i := i + 1;
    }
    TimesSum(|prep.seen|, 2, v);
    seen, left := prep.seen, prep.rowsToGo;
  }
}
