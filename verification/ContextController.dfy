// process_data_context_main of jdmainct.c: whatever the postprocessor swallows at each call, it sees
// every row group of the image once, in order, between the right neighbours.
module ContextController {
  import opened Numerals
  import opened ContextPointers

  datatype ContextState = PrepareForImcu | ProcessImcu | PostponedRow

  // The decoder writes the iMCU row that starts at image row top through list x.
  method DecompressData(sh: Shape, buffer: seq<int>, x: seq<nat>, ghost w: nat, top: nat) returns (buffer': seq<int>)
    requires MainPart(sh, x, w) && |buffer| == sh.rows + 2 * sh.rgroup && (top > 0 ==> Kept(sh, buffer, w, top))
    ensures Loaded(sh, buffer', w, top)
  {
    buffer' := buffer;
    var i := 0;
    while i < sh.rows
      invariant 0 <= i <= sh.rows && |buffer'| == |buffer|
      invariant forall j :: 0 <= j < i ==> buffer'[PhysRow(sh, w, j)] == top + j
      invariant top > 0 ==> Kept(sh, buffer', w, top)
    {
      forall j | 0 <= j < sh.rows + 2 * sh.rgroup && j != i
        ensures PhysRow(sh, w, j) != PhysRow(sh, w, i)
      {
        if PhysRow(sh, w, j) == PhysRow(sh, w, i) {
          PhysInjective(sh, w, j, i);
        }
      }
      buffer' := buffer'[x[sh.rgroup + i] := top + i];
      i := i + 1;
    }
  }

  // The first n row groups as they should be seen.
  ghost predicate Presented(sh: Shape, presented: seq<seq<int>>) {
    forall g :: 0 <= g < |presented| ==> presented[g] == Window(sh, g * sh.rgroup)
  }

  // The row groups q of list x, from ctr on, are to be presented as rows q * rgroup + d.
  ghost predicate Ready(sh: Shape, buffer: seq<int>, x: seq<nat>, ctr: nat, avail: nat, d: int) {
    forall q :: ctr <= q < avail ==> GroupShown(sh, buffer, x, q, d)
  }

  ghost predicate GroupShown(sh: Shape, buffer: seq<int>, x: seq<nat>, q: nat, d: int) {
    GroupAt(sh, buffer, x, q * sh.rgroup, d)
  }

  method PresentGroup(sh: Shape, buffer: seq<int>, x: seq<nat>, presented: seq<seq<int>>, ctr: nat, ghost avail: nat,
                      ghost d: int)
    returns (presented': seq<seq<int>>)
    requires Presented(sh, presented) && ctr < avail && Ready(sh, buffer, x, ctr, avail, d)
    requires |presented| * sh.rgroup == ctr * sh.rgroup + d
    ensures Presented(sh, presented') && presented <= presented' && |presented'| == |presented| + 1
    ensures |presented'| * sh.rgroup == (ctr + 1) * sh.rgroup + d && Ready(sh, buffer, x, ctr + 1, avail, d)
  {
    assert GroupShown(sh, buffer, x, ctr, d);
    var start := ctr * sh.rgroup;
    var rows := LookAt(sh, buffer, x, start, d);
    OneGroupMore(|presented|, ctr, sh.rgroup);
    presented' := presented + [rows];
  }

  // The postprocessor looks at up to take row groups of list x, with one row of context on either side.
  method PostProcessData(sh: Shape, buffer: seq<int>, x: seq<nat>, presented: seq<seq<int>>, ctr: nat, avail: nat, take: nat,
                         ghost d: int)
    returns (ctr': nat, presented': seq<seq<int>>)
    requires Presented(sh, presented) && ctr <= avail && Ready(sh, buffer, x, ctr, avail, d)
    requires |presented| * sh.rgroup == ctr * sh.rgroup + d
    ensures ctr' == (if ctr + take <= avail then ctr + take else avail)
    ensures Presented(sh, presented') && presented <= presented' && |presented'| == |presented| + (ctr' - ctr)
    ensures |presented'| * sh.rgroup == ctr' * sh.rgroup + d && Ready(sh, buffer, x, ctr', avail, d)
  {
    ctr', presented' := ctr, presented;
    var taken := 0;
    while ctr' < avail && taken < take
      invariant ctr <= ctr' <= avail && taken == ctr' - ctr <= take
      invariant Presented(sh, presented') && presented <= presented' && |presented'| == |presented| + taken
      invariant |presented'| * sh.rgroup == ctr' * sh.rgroup + d && Ready(sh, buffer, x, ctr', avail, d)
    {
      presented' := PresentGroup(sh, buffer, x, presented', ctr', avail, d);
      ctr', taken := ctr' + 1, taken + 1;
    }
  }

  lemma OneGroupMore(n: nat, q: nat, rgroup: nat)
    ensures (n + 1) * rgroup == n * rgroup + rgroup && (q + 1) * rgroup == q * rgroup + rgroup
  {
  }

  method LookAt(sh: Shape, buffer: seq<int>, x: seq<nat>, start: nat, ghost d: int) returns (rows: seq<int>)
    requires GroupAt(sh, buffer, x, start, d)
    ensures rows == Window(sh, start + d)
  {
    rows := [];
    while |rows| < sh.rgroup + 2
      invariant |rows| <= sh.rgroup + 2 && rows == Window(sh, start + d)[..|rows|]
    {
      assert Shows(sh, buffer, x, start - 1 + |rows|, d);
      rows := rows + [View(sh, buffer, x, start - 1 + |rows|)];
    }
  }

  // ---- What is ready to be presented ----

  lemma GroupStart(q: nat, n: nat, rgroup: nat)
    requires q < n
    ensures q * rgroup + rgroup <= n * rgroup
  {
    ScaleLe(q + 1, n, rgroup);
  }

  // All but the last row group of an iMCU row that is not the last one.
  lemma InnerReady(sh: Shape, buffer: seq<int>, x: seq<nat>, w: nat, top: nat)
    requires IsShape(sh) && ListFor(sh, x, w, top) && Loaded(sh, buffer, w, top) && top + sh.rows < sh.height
    ensures Ready(sh, buffer, x, 0, sh.M - 1, top)
  {
    ShapeIsRoomy(sh);
    forall q | 0 <= q < sh.M - 1
      ensures GroupShown(sh, buffer, x, q, top)
    {
      GroupStart(q, sh.M - 1, sh.rgroup);
      ScaleLe(0, q, sh.rgroup);
      InnerGroup(sh, buffer, x, w, top, q * sh.rgroup);
    }
  }

  lemma InnerGroup(sh: Shape, buffer: seq<int>, x: seq<nat>, w: nat, top: nat, start: nat)
    requires ListFor(sh, x, w, top) && Loaded(sh, buffer, w, top) && top + sh.rows < sh.height && start + 2 * sh.rgroup <= sh.rows
    ensures GroupAt(sh, buffer, x, start, top)
  {
    forall j | start - 1 <= j <= start + sh.rgroup
      ensures Shows(sh, buffer, x, j, top)
    {
      ShowsOwn(sh, buffer, x, w, top, j);
    }
  }

  // Every row group of the last iMCU row that is not a dummy.
  lemma BottomReady(sh: Shape, buffer: seq<int>, x: seq<nat>, x': seq<nat>, w: nat, top: nat, left: nat, avail: nat)
    requires IsShape(sh) && ListFor(sh, x, w, top) && Loaded(sh, buffer, w, top) && Bottomed(sh, x, x', left)
    requires top + left == sh.height && avail == RowGroups(left, sh.rgroup)
    ensures Ready(sh, buffer, x', 0, avail, top)
  {
    ShapeIsRoomy(sh);
    forall q | 0 <= q < avail
      ensures GroupShown(sh, buffer, x', q, top)
    {
      LastGroups(q, left, sh.rgroup);
      ScaleLe(0, q, sh.rgroup);
      BottomGroup(sh, buffer, x, x', w, top, left, q * sh.rgroup);
    }
  }

  lemma BottomGroup(sh: Shape, buffer: seq<int>, x: seq<nat>, x': seq<nat>, w: nat, top: nat, left: nat, start: nat)
    requires ListFor(sh, x, w, top) && Loaded(sh, buffer, w, top) && Bottomed(sh, x, x', left)
    requires top + left == sh.height && start <= left - 1
    ensures GroupAt(sh, buffer, x', start, top)
  {
    forall j | start - 1 <= j <= start + sh.rgroup
      ensures Shows(sh, buffer, x', j, top)
    {
      ShowsBottom(sh, buffer, x, x', w, top, left, j);
    }
  }

  lemma LastGroups(q: nat, left: nat, rgroup: nat)
    requires rgroup >= 1 && left >= 1 && q < RowGroups(left, rgroup)
    ensures q * rgroup <= left - 1
  {
    RowGroupsAre(left, rgroup);
    var k := (left - 1) / rgroup;
    assert left - 1 == k * rgroup + (left - 1) % rgroup;
    ScaleLe(q, k, rgroup);
  }

  // The postponed row group, at index M + 1 of the list of the next iMCU row.
  lemma PostponedReady(sh: Shape, buffer: seq<int>, x: seq<nat>, w: nat, top: nat)
    requires IsShape(sh) && ListFor(sh, x, w, top) && Loaded(sh, buffer, w, top) && sh.rows <= top < sh.height
    ensures Ready(sh, buffer, x, sh.M + 1, sh.M + 2, top - 2 * sh.rgroup - sh.rows)
  {
    ShapeIsRoomy(sh);
    var d := top - 2 * sh.rgroup - sh.rows;
    forall j | sh.rows + sh.rgroup - 1 <= j <= sh.rows + 2 * sh.rgroup
      ensures Shows(sh, buffer, x, j, d)
    {
      ShowsPostponed(sh, buffer, x, w, top, j - sh.rows);
    }
    assert (sh.M + 1) * sh.rgroup == sh.rows + sh.rgroup;
    assert GroupShown(sh, buffer, x, sh.M + 1, d);
  }

  // ---- The controller ----

  class MainController {
    const sh: Shape
    var buffer: seq<int>             // the workspace
    var xbuffer: (seq<nat>, seq<nat>)
    var bufferFull: bool
    var rowgroupCtr: nat
    var whichptr: nat
    var contextState: ContextState
    var rowgroupsAvail: nat
    var imcuRowCtr: nat
    var presented: seq<seq<int>>     // what the postprocessor has looked at
    ghost var plain: seq<nat>        // the list in use, before its bottom was diddled
    ghost var top: nat               // the first image row of the iMCU row received last

    function List(w: nat): seq<nat>
      reads this`xbuffer
    {
      if w == 0 then xbuffer.0 else xbuffer.1
    }

    ghost predicate Valid()
      reads this
    {
      && Common()
      && match contextState
         case PrepareForImcu => if imcuRowCtr == 0 then AtStart() else Prepared()
         case ProcessImcu => Processing()
         case PostponedRow => if bufferFull then Postponing() else AtEnd() || Waiting()
    }

    ghost predicate Common()
      reads this`whichptr, this`buffer, this`imcuRowCtr, this`presented, this`top, this`xbuffer
    {
      && IsShape(sh) && whichptr <= 1 && |buffer| == sh.rows + 2 * sh.rgroup && imcuRowCtr <= sh.total
      && Presented(sh, presented) && TopIs(sh, imcuRowCtr, top)
      && IsList(sh, xbuffer.0) && IsList(sh, xbuffer.1)
    }

    ghost predicate AtStart()
      reads this`bufferFull, this`whichptr, this`presented, this`xbuffer
    {
      && !bufferFull && whichptr == 0 && presented == []
      && TopState(sh, xbuffer.0) && MainPart(sh, xbuffer.1, 1)
    }

    // An iMCU row is in the workspace; plain is the current list, but for what is diddled at the bottom.
    ghost predicate Received()
      reads this`imcuRowCtr, this`whichptr, this`bufferFull, this`buffer, this`top, this`plain, this`xbuffer
    {
      && imcuRowCtr > 0 && whichptr <= 1 && bufferFull && Loaded(sh, buffer, whichptr, top)
      && ListFor(sh, plain, whichptr, top)
      && (if imcuRowCtr == 1 then MainPart(sh, xbuffer.1, 1) else Wrapped(sh, List(1 - whichptr), 1 - whichptr))
    }

    // Everything before the current iMCU row has been presented.
    ghost predicate Prepared()
      reads this`imcuRowCtr, this`whichptr, this`bufferFull, this`buffer, this`top, this`plain, this`xbuffer, this`presented
    {
      Received() && plain == List(whichptr) && |presented| * sh.rgroup == top
    }

    // So have the first rowgroupCtr row groups of it.
    ghost predicate Processing()
      reads this`imcuRowCtr, this`whichptr, this`bufferFull, this`buffer, this`top, this`plain, this`xbuffer, this`presented,
        this`rowgroupCtr, this`rowgroupsAvail
    {
      && Received() && rowgroupCtr < rowgroupsAvail && |presented| * sh.rgroup == rowgroupCtr * sh.rgroup + top
      && Ready(sh, buffer, List(whichptr), rowgroupCtr, rowgroupsAvail, top)
      && (if imcuRowCtr < sh.total then List(whichptr) == plain && rowgroupsAvail == sh.M - 1
          else top < sh.height && sh.rgroup > 0 && rowgroupsAvail == RowGroups(sh.height - top, sh.rgroup))
    }

    // The last row group of the iMCU row before is due, seen through the current list.
    ghost predicate Postponing()
      reads this`imcuRowCtr, this`whichptr, this`bufferFull, this`buffer, this`top, this`plain, this`xbuffer, this`presented,
        this`rowgroupCtr, this`rowgroupsAvail
    {
      && Received() && plain == List(whichptr) && imcuRowCtr > 1
      && rowgroupsAvail == sh.M + 2 && rowgroupCtr == sh.M + 1 && |presented| * sh.rgroup == top - sh.rgroup
    }

    // The lists have been switched; the next iMCU row has not come yet.
    ghost predicate Waiting()
      reads this`imcuRowCtr, this`whichptr, this`bufferFull, this`buffer, this`top, this`xbuffer, this`presented,
        this`rowgroupCtr, this`rowgroupsAvail
    {
      && 0 < imcuRowCtr < sh.total && !bufferFull && rowgroupsAvail == sh.M + 2 && rowgroupCtr == sh.M + 1
      && Kept(sh, buffer, whichptr, top + sh.rows)
      && Wrapped(sh, xbuffer.0, 0) && Wrapped(sh, xbuffer.1, 1)
      && |presented| * sh.rgroup == top + sh.rows - sh.rgroup
    }

    // All row groups of the image have been presented.
    ghost predicate AtEnd()
      reads this
    {
      && imcuRowCtr == sh.total && contextState == PostponedRow && !bufferFull
      && sh.rgroup > 0 && |presented| == RowGroups(sh.height, sh.rgroup)
    }

    // start_pass_main, for a pass that needs context rows.
    constructor (sh: Shape)
      requires IsShape(sh)
      ensures Valid() && presented == [] && this.sh == sh && !AtEnd()
    {
      this.sh := sh;
      var xbuf0, xbuf1 := MakeFunnyPointers(sh);
      ShapeIsRoomy(sh);
      buffer := seq(sh.rows + 2 * sh.rgroup, _ => 0);
      xbuffer, plain := (xbuf0, xbuf1), xbuf0;
      whichptr, contextState, imcuRowCtr := 0, PrepareForImcu, 0;
      bufferFull, rowgroupCtr, rowgroupsAvail, presented, top := false, 0, 0, [], 0;
    }

    // Reading the next iMCU row through the list in use.
    method ReadImcuRow()
      requires Valid() && !AtEnd() && !bufferFull
      modifies this
      ensures Valid() && bufferFull && contextState == old(contextState) && presented == old(presented)
    {
      ShapeIsRoomy(sh);
      ghost var was := top;
      var start := NextRow(sh, imcuRowCtr, top);
      plain := List(whichptr);
      top := start;
      buffer := DecompressData(sh, buffer, List(whichptr), whichptr, start);
      bufferFull := true;
      imcuRowCtr := imcuRowCtr + 1;
    }

    // Calling the postprocessor for the postponed row group, and preparing for what follows it.
    method FeedPostponed(take: nat) returns (done: bool)
      requires Common() && Postponing() && contextState == PostponedRow
      modifies this`rowgroupCtr, this`presented, this`contextState
      ensures Common() && old(presented) <= presented && (done <==> take > 0)
      ensures if done then contextState == PrepareForImcu && Prepared() && |presented| > |old(presented)|
        else contextState == PostponedRow && Postponing()
    {
      ShapeIsRoomy(sh);
      TopFacts(sh, imcuRowCtr);
      PostponedReady(sh, buffer, List(whichptr), whichptr, top);
      PostponedRows(sh, rowgroupCtr);
      var ctr, out := PostProcessData(sh, buffer, List(whichptr), presented, rowgroupCtr, rowgroupsAvail, take,
                                      top - 2 * sh.rgroup - sh.rows);
      PostponedRows(sh, ctr);
      rowgroupCtr := ctr;
      presented := out;
      done := rowgroupCtr >= rowgroupsAvail;
      if done {
        contextState := PrepareForImcu;
      }
    }

    // Preparing the row groups of an iMCU row: at the bottom of the image the last row is duplicated.
    method Prepare()
      requires Common() && Prepared() && contextState == PrepareForImcu
      modifies this`rowgroupCtr, this`rowgroupsAvail, this`xbuffer, this`contextState
      ensures Common() && Processing() && contextState == ProcessImcu
    {
      rowgroupCtr := 0;
      PrepareInner();
      if imcuRowCtr == sh.total {
        PrepareBottom();
      }
      contextState := ProcessImcu;
    }

    method PrepareInner()
      requires Common() && Prepared() && rowgroupCtr == 0
      modifies this`rowgroupsAvail
      ensures Common() && Prepared() && (imcuRowCtr < sh.total ==> Processing())
    {
      TopFacts(sh, imcuRowCtr);
      rowgroupsAvail := sh.M - 1;
      if imcuRowCtr < sh.total {
        InnerReady(sh, buffer, List(whichptr), whichptr, top);
      }
    }

    method PrepareBottom()
      requires Common() && Prepared() && imcuRowCtr == sh.total && rowgroupCtr == 0
      modifies this`rowgroupsAvail, this`xbuffer
      ensures Common() && Processing()
    {
      TopFacts(sh, imcuRowCtr);
      ShapeIsRoomy(sh);
      var x;
      ghost var left;
      x, rowgroupsAvail, left := SetBottomPointers(sh, List(whichptr));
      BottomReady(sh, buffer, List(whichptr), x, whichptr, top, left, rowgroupsAvail);
      xbuffer := if whichptr == 0 then (x, xbuffer.1) else (xbuffer.0, x);
    }

    // Calling the postprocessor for the row groups of an iMCU row, and switching to the other list when
    // all but the postponed row group has been swallowed.
    method FeedImcu(take: nat)
      requires Common() && Processing() && contextState == ProcessImcu
      modifies this
      ensures Valid() && old(presented) <= presented && (take > 0 ==> |presented| > |old(presented)|)
    {
      SwallowRows(take);
      if rowgroupCtr >= rowgroupsAvail {
        SwitchLists();
      }
    }

    method SwallowRows(take: nat)
      requires Common() && Processing()
      modifies this`rowgroupCtr, this`presented
      ensures Common() && old(presented) <= presented && (take > 0 ==> |presented| > |old(presented)|)
      ensures rowgroupCtr < rowgroupsAvail ==> Processing()
      ensures rowgroupCtr >= rowgroupsAvail ==> rowgroupCtr == rowgroupsAvail && |presented| * sh.rgroup == rowgroupCtr * sh.rgroup + top
    {
      var ctr, out := PostProcessData(sh, buffer, List(whichptr), presented, rowgroupCtr, rowgroupsAvail, take, top);
      assert |out| * sh.rgroup == ctr * sh.rgroup + top;
      rowgroupCtr := ctr;
      presented := out;
    }

    method SetWraparoundPointers()
      requires Common()
      modifies this`xbuffer
      ensures IsList(sh, xbuffer.0) && (MainPart(sh, old(xbuffer.0), 0) ==> Wrapped(sh, xbuffer.0, 0))
      ensures IsList(sh, xbuffer.1) && (MainPart(sh, old(xbuffer.1), 1) ==> Wrapped(sh, xbuffer.1, 1))
    {
      var x0 := SetWraparound(sh, xbuffer.0, 0);
      var x1 := SetWraparound(sh, xbuffer.1, 1);
      xbuffer := (x0, x1);
    }

    method SwitchLists()
      requires Common() && Received() && |presented| * sh.rgroup == rowgroupCtr * sh.rgroup + top
      requires if imcuRowCtr < sh.total then List(whichptr) == plain && rowgroupCtr == sh.M - 1
        else top < sh.height && sh.rgroup > 0 && rowgroupCtr == RowGroups(sh.height - top, sh.rgroup)
      modifies this`rowgroupCtr, this`rowgroupsAvail, this`xbuffer, this`contextState, this`whichptr, this`bufferFull
      ensures Common() && contextState == PostponedRow && !bufferFull && (AtEnd() || Waiting())
    {
      ShapeIsRoomy(sh);
      TopFacts(sh, imcuRowCtr);
      KeptForNext(sh, buffer, whichptr, top);
      LastCount(sh, |presented|, top, rowgroupCtr, imcuRowCtr);
      if imcuRowCtr == 1 {
        SetWraparoundPointers();
      }
      whichptr := 1 - whichptr;
      bufferFull := false;
      rowgroupCtr := sh.M + 1;
      rowgroupsAvail := sh.M + 2;
      contextState := PostponedRow;
    }

    // A call of the application, which stops when it has its image.
    method CallOnce(c: Call) returns (ended: bool)
      requires Valid() && !AtEnd()
      modifies this
      ensures Valid() && old(presented) <= presented && (ended <==> AtEnd())
      ensures c.dataReady && c.take1 > 0 && c.take2 > 0 ==> |presented| > |old(presented)|
    {
      ProcessDataContextMain(c.dataReady, c.take1, c.outputFull, c.take2);
      ended := imcuRowCtr == sh.total && contextState == PostponedRow && !bufferFull;
    }

    // There are never more row groups than the image has.
    lemma NotTooMany()
      requires Valid()
      ensures sh.rgroup > 0 && sh.height > 0 && |presented| <= |WholeImage(sh)|
    {
      ShapeIsRoomy(sh);
      if imcuRowCtr > 0 && !AtEnd() {
        TopFacts(sh, imcuRowCtr);
        assert |presented| * sh.rgroup <= sh.height - 1 by {
          if contextState == ProcessImcu {
            ProcessedRows(sh, top, rowgroupCtr, rowgroupsAvail, imcuRowCtr);
          }
        }
        RowsToGroups(|presented|, sh.height - 1, sh.rgroup);
      }
    }

    // process_data_context_main.  The decoder may have no data; the postprocessor swallows up to take1 and
    // take2 row groups at its two calls, and may have filled the output buffer exactly after the first.
    method ProcessDataContextMain(dataReady: bool, take1: nat, outputFull: bool, take2: nat)
      requires Valid() && !AtEnd()
      modifies this
      ensures Valid() && old(presented) <= presented
      ensures dataReady && take1 > 0 && take2 > 0 ==> |presented| > |old(presented)|
    {
      if !bufferFull {
        if !dataReady {
          return;
        }
        ReadImcuRow();
      }
      if contextState == PostponedRow {
        var done := FeedPostponed(take1);
        if !done || outputFull {
          return;
        }
      }
      if contextState == PrepareForImcu {
        Prepare();
      }
      FeedImcu(take2);
    }
  }

  // What a reader should see of the image.
  function WholeImage(sh: Shape): seq<seq<int>>
    requires sh.rgroup > 0 && sh.height > 0
  {
    seq(RowGroups(sh.height, sh.rgroup), g requires 0 <= g => Window(sh, g * sh.rgroup))
  }

  lemma RowsToGroups(n: nat, rows: nat, rgroup: nat)
    requires rgroup > 0 && n * rgroup <= rows
    ensures n <= RowGroups(rows + 1, rgroup)
  {
    RowGroupsAre(rows + 1, rgroup);
    var k := rows / rgroup;
    assert rows == k * rgroup + rows % rgroup;
    if k < n {
      ScaleLe(k + 1, n, rgroup);
    }
  }

  lemma ProcessedRows(sh: Shape, top: nat, ctr: nat, avail: nat, received: nat)
    requires IsShape(sh) && 1 <= received <= sh.total && ctr < avail && top < sh.height && sh.rgroup > 0
    requires if received < sh.total then avail == sh.M - 1 && top + sh.rows < sh.height else avail == RowGroups(sh.height - top, sh.rgroup)
    ensures ctr * sh.rgroup + top <= sh.height - 1
  {
    ShapeIsRoomy(sh);
    if received < sh.total {
      GroupStart(ctr, sh.M, sh.rgroup);
    } else {
      LastGroups(ctr, sh.height - top, sh.rgroup);
    }
  }

  // Where the postponed row group lies, in sample rows.
  lemma PostponedRows(sh: Shape, ctr: nat)
    requires IsShape(sh) && sh.M + 1 <= ctr <= sh.M + 2
    ensures ctr * sh.rgroup == sh.rows + (if ctr == sh.M + 1 then sh.rgroup else 2 * sh.rgroup)
  {
  }

  // What has been presented when an iMCU row is done but for its postponed row group.
  lemma LastCount(sh: Shape, n: nat, top: nat, ctr: nat, received: nat)
    requires IsShape(sh) && 1 <= received <= sh.total && TopIs(sh, received, top) && n * sh.rgroup == ctr * sh.rgroup + top
    requires if received < sh.total then ctr == sh.M - 1 else top < sh.height && ctr == RowGroups(sh.height - top, sh.rgroup)
    ensures received < sh.total ==> n * sh.rgroup == top + sh.rows - sh.rgroup
    ensures received == sh.total ==> n == RowGroups(sh.height, sh.rgroup)
  {
    if received == sh.total {
      BottomCount(sh, n, top, ctr);
    } else {
      TimesSum(sh.M, -1, sh.rgroup);
    }
  }

  lemma BottomCount(sh: Shape, n: nat, top: nat, ctr: nat)
    requires IsShape(sh) && TopIs(sh, sh.total, top) && n * sh.rgroup == ctr * sh.rgroup + top
    requires sh.total >= 1 && top < sh.height && sh.rgroup > 0 && ctr == RowGroups(sh.height - top, sh.rgroup)
    ensures n == RowGroups(sh.height, sh.rgroup)
  {
    ShapeIsRoomy(sh);
    var k := TopInGroups(sh, sh.total, top);
    RowGroupsAdd(sh.height - top, k, sh.rgroup);
    TimesSum(ctr, k, sh.rgroup);
    SameCount(n, ctr + k, sh.rgroup);
  }

  lemma TopInGroups(sh: Shape, received: nat, top: nat) returns (k: nat)
    requires IsShape(sh) && received >= 1 && TopIs(sh, received, top)
    ensures top == k * sh.rgroup
  {
    ScaleLe(0, received - 1, sh.M);
    k := (received - 1) * sh.M;
    MulAssoc(received - 1, sh.M, sh.rgroup);
  }

  lemma {:induction false} RowGroupsAdd(rows: nat, k: nat, rgroup: nat)
    requires rgroup > 0 && rows > 0
    ensures RowGroups(rows + k * rgroup, rgroup) == RowGroups(rows, rgroup) + k
  {
    if k > 0 {
      RowGroupsAdd(rows, k - 1, rgroup);
      TimesSum(k - 1, 1, rgroup);
      ScaleLe(0, k - 1, rgroup);
    }
  }

  lemma SameCount(n: nat, m: nat, p: nat)
    requires p > 0 && n * p == m * p
    ensures n == m
  {
    if n < m {
      ScaleLt(n, m, p);
    } else if m < n {
      ScaleLt(m, n, p);
    }
  }

  // The first row of the n-th iMCU row.
  ghost predicate TopIs(sh: Shape, n: nat, top: nat) {
    n > 0 ==> top == (n - 1) * sh.rows
  }

  // The image row at which the iMCU row after the first n begins.
  method NextRow(sh: Shape, n: nat, ghost top: nat) returns (start: nat)
    requires IsShape(sh) && n < sh.total && TopIs(sh, n, top)
    ensures TopIs(sh, n + 1, start) && start < sh.height && start == (if n == 0 then 0 else top + sh.rows)
    ensures n + 1 < sh.total ==> start + sh.rows < sh.height
  {
    TopFacts(sh, n + 1);
    start := n * sh.rows;
  }

  lemma TopFacts(sh: Shape, n: nat)
    requires IsShape(sh) && 1 <= n <= sh.total
    ensures 0 <= (n - 1) * sh.rows < sh.height && ((n - 1) * sh.rows == 0 <==> n == 1)
    ensures n > 1 ==> (n - 1) * sh.rows >= sh.rows && (n - 1) * sh.rows == (n - 2) * sh.rows + sh.rows
    ensures n < sh.total ==> (n - 1) * sh.rows + sh.rows < sh.height
  {
    ShapeIsRoomy(sh);
    ScaleLe(0, n - 1, sh.rows);
    ScaleLe(n - 1, sh.total - 1, sh.rows);
    if n > 1 {
      ScaleLe(1, n - 1, sh.rows);
    }
    if n < sh.total {
      ScaleLe(n, sh.total - 1, sh.rows);
    }
  }

  // One call of the controller: whether the decoder has data, and what the postprocessor swallows.
  datatype Call = Call(dataReady: bool, take1: nat, outputFull: bool, take2: nat)

  predicate AllActive(calls: seq<Call>) {
    forall i :: 0 <= i < |calls| ==> calls[i].dataReady && calls[i].take1 > 0 && calls[i].take2 > 0
  }

  lemma PrefixOfImage(sh: Shape, presented: seq<seq<int>>)
    requires sh.rgroup > 0 && sh.height > 0 && Presented(sh, presented) && |presented| <= |WholeImage(sh)|
    ensures presented <= WholeImage(sh)
  {
  }

  // Whatever happens at each call, the row groups come in order, each with the right rows around it; and
  // if every call can do something, all of them come.
  method PresentImage(sh: Shape, calls: seq<Call>) returns (presented: seq<seq<int>>)
    requires IsShape(sh)
    ensures sh.rgroup > 0 && sh.height > 0 && presented <= WholeImage(sh)
    ensures AllActive(calls) && |calls| >= |WholeImage(sh)| ==> presented == WholeImage(sh)
  {
    ShapeIsRoomy(sh);
    var main := new MainController(sh);
    var i, ended := 0, false;
    while i < |calls| && !ended
      invariant fresh(main) && main.Valid() && main.sh == sh && i <= |calls|
      invariant ended <==> main.AtEnd()
      invariant AllActive(calls) && !ended ==> |main.presented| >= i
    {
      ended := main.CallOnce(calls[i]);
      i := i + 1;
    }
    main.NotTooMany();
    presented := main.presented;
    PrefixOfImage(sh, presented);
  }
}
