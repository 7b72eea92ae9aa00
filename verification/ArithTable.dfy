// jaricom.c: the probability estimation state machine shared by the arithmetic encoder and decoder
// (Table D.3 of ITU-T T.81, plus the fixed 0.5 entry of T.851).
module ArithTable {
  import opened Numerals

  // One statistics bin: the sense of the more probable symbol in bit 7, a table index below it.
  type Bin = byte

  const FIXED_BIN: Bin := 113

  datatype RawRow = V(index: nat, qe: nat, nextLps: nat, nextMps: nat, switchMps: nat)

  // What the coders need of a row: a subinterval below one half of the smallest interval, and
  // successors that are rows again.
  type Row = row: RawRow |
    0 < row.qe < 0x8000 && row.nextLps <= 113 && row.nextMps <= 113 && row.switchMps <= 1
    witness V(0, 1, 0, 0, 0)

  function RowsFrom0(index: nat): (row: Row)
    requires 0 <= index <= 13
  {
    match index
    case 0 => V(0, 0x5a1d, 1, 1, 1)
    case 1 => V(1, 0x2586, 14, 2, 0)
    case 2 => V(2, 0x1114, 16, 3, 0)
    case 3 => V(3, 0x080b, 18, 4, 0)
    case 4 => V(4, 0x03d8, 20, 5, 0)
    case 5 => V(5, 0x01da, 23, 6, 0)
    case 6 => V(6, 0x00e5, 25, 7, 0)
    case 7 => V(7, 0x006f, 28, 8, 0)
    case 8 => V(8, 0x0036, 30, 9, 0)
    case 9 => V(9, 0x001a, 33, 10, 0)
    case 10 => V(10, 0x000d, 35, 11, 0)
    case 11 => V(11, 0x0006, 9, 12, 0)
    case 12 => V(12, 0x0003, 10, 13, 0)
    case _ => V(13, 0x0001, 12, 13, 0)
  }

  function RowsFrom14(index: nat): (row: Row)
    requires 14 <= index <= 35
  {
    match index
    case 14 => V(14, 0x5a7f, 15, 15, 1)
    case 15 => V(15, 0x3f25, 36, 16, 0)
    case 16 => V(16, 0x2cf2, 38, 17, 0)
    case 17 => V(17, 0x207c, 39, 18, 0)
    case 18 => V(18, 0x17b9, 40, 19, 0)
    case 19 => V(19, 0x1182, 42, 20, 0)
    case 20 => V(20, 0x0cef, 43, 21, 0)
    case 21 => V(21, 0x09a1, 45, 22, 0)
    case 22 => V(22, 0x072f, 46, 23, 0)
    case 23 => V(23, 0x055c, 48, 24, 0)
    case 24 => V(24, 0x0406, 49, 25, 0)
    case 25 => V(25, 0x0303, 51, 26, 0)
    case 26 => V(26, 0x0240, 52, 27, 0)
    case 27 => V(27, 0x01b1, 54, 28, 0)
    case 28 => V(28, 0x0144, 56, 29, 0)
    case 29 => V(29, 0x00f5, 57, 30, 0)
    case 30 => V(30, 0x00b7, 59, 31, 0)
    case 31 => V(31, 0x008a, 60, 32, 0)
    case 32 => V(32, 0x0068, 62, 33, 0)
    case 33 => V(33, 0x004e, 63, 34, 0)
    case 34 => V(34, 0x003b, 32, 35, 0)
    case _ => V(35, 0x002c, 33, 9, 0)
  }

  function RowsFrom36(index: nat): (row: Row)
    requires 36 <= index <= 49
  {
    match index
    case 36 => V(36, 0x5ae1, 37, 37, 1)
    case 37 => V(37, 0x484c, 64, 38, 0)
    case 38 => V(38, 0x3a0d, 65, 39, 0)
    case 39 => V(39, 0x2ef1, 67, 40, 0)
    case 40 => V(40, 0x261f, 68, 41, 0)
    case 41 => V(41, 0x1f33, 69, 42, 0)
    case 42 => V(42, 0x19a8, 70, 43, 0)
    case 43 => V(43, 0x1518, 72, 44, 0)
    case 44 => V(44, 0x1177, 73, 45, 0)
    case 45 => V(45, 0x0e74, 74, 46, 0)
    case 46 => V(46, 0x0bfb, 75, 47, 0)
    case 47 => V(47, 0x09f8, 77, 48, 0)
    case 48 => V(48, 0x0861, 78, 49, 0)
    case _ => V(49, 0x0706, 79, 50, 0)
  }

  function RowsFrom50(index: nat): (row: Row)
    requires 50 <= index <= 63
  {
    match index
    case 50 => V(50, 0x05cd, 48, 51, 0)
    case 51 => V(51, 0x04de, 50, 52, 0)
    case 52 => V(52, 0x040f, 50, 53, 0)
    case 53 => V(53, 0x0363, 51, 54, 0)
    case 54 => V(54, 0x02d4, 52, 55, 0)
    case 55 => V(55, 0x025c, 53, 56, 0)
    case 56 => V(56, 0x01f8, 54, 57, 0)
    case 57 => V(57, 0x01a4, 55, 58, 0)
    case 58 => V(58, 0x0160, 56, 59, 0)
    case 59 => V(59, 0x0125, 57, 60, 0)
    case 60 => V(60, 0x00f6, 58, 61, 0)
    case 61 => V(61, 0x00cb, 59, 62, 0)
    case 62 => V(62, 0x00ab, 61, 63, 0)
    case _ => V(63, 0x008f, 61, 32, 0)
  }

  function RowsFrom64(index: nat): (row: Row)
    requires 64 <= index <= 79
  {
    match index
    case 64 => V(64, 0x5b12, 65, 65, 1)
    case 65 => V(65, 0x4d04, 80, 66, 0)
    case 66 => V(66, 0x412c, 81, 67, 0)
    case 67 => V(67, 0x37d8, 82, 68, 0)
    case 68 => V(68, 0x2fe8, 83, 69, 0)
    case 69 => V(69, 0x293c, 84, 70, 0)
    case 70 => V(70, 0x2379, 86, 71, 0)
    case 71 => V(71, 0x1edf, 87, 72, 0)
    case 72 => V(72, 0x1aa9, 87, 73, 0)
    case 73 => V(73, 0x174e, 72, 74, 0)
    case 74 => V(74, 0x1424, 72, 75, 0)
    case 75 => V(75, 0x119c, 74, 76, 0)
    case 76 => V(76, 0x0f6b, 74, 77, 0)
    case 77 => V(77, 0x0d51, 75, 78, 0)
    case 78 => V(78, 0x0bb6, 77, 79, 0)
    case _ => V(79, 0x0a40, 77, 48, 0)
  }

  function RowsFrom80(index: nat): (row: Row)
    requires 80 <= index <= 94
  {
    match index
    case 80 => V(80, 0x5832, 80, 81, 1)
    case 81 => V(81, 0x4d1c, 88, 82, 0)
    case 82 => V(82, 0x438e, 89, 83, 0)
    case 83 => V(83, 0x3bdd, 90, 84, 0)
    case 84 => V(84, 0x34ee, 91, 85, 0)
    case 85 => V(85, 0x2eae, 92, 86, 0)
    case 86 => V(86, 0x299a, 93, 87, 0)
    case 87 => V(87, 0x2516, 86, 71, 0)
    case 88 => V(88, 0x5570, 88, 89, 1)
    case 89 => V(89, 0x4ca9, 95, 90, 0)
    case 90 => V(90, 0x44d9, 96, 91, 0)
    case 91 => V(91, 0x3e22, 97, 92, 0)
    case 92 => V(92, 0x3824, 99, 93, 0)
    case 93 => V(93, 0x32b4, 99, 94, 0)
    case _ => V(94, 0x2e17, 93, 86, 0)
  }

  function RowsFrom95(index: nat): (row: Row)
    requires 95 <= index <= 113
  {
    match index
    case 95 => V(95, 0x56a8, 95, 96, 1)
    case 96 => V(96, 0x4f46, 101, 97, 0)
    case 97 => V(97, 0x47e5, 102, 98, 0)
    case 98 => V(98, 0x41cf, 103, 99, 0)
    case 99 => V(99, 0x3c3d, 104, 100, 0)
    case 100 => V(100, 0x375e, 99, 93, 0)
    case 101 => V(101, 0x5231, 105, 102, 0)
    case 102 => V(102, 0x4c0f, 106, 103, 0)
    case 103 => V(103, 0x4639, 107, 104, 0)
    case 104 => V(104, 0x415e, 103, 99, 0)
    case 105 => V(105, 0x5627, 105, 106, 1)
    case 106 => V(106, 0x50e7, 108, 107, 0)
    case 107 => V(107, 0x4b85, 109, 103, 0)
    case 108 => V(108, 0x5597, 110, 109, 0)
    case 109 => V(109, 0x504f, 111, 107, 0)
    case 110 => V(110, 0x5a10, 110, 111, 1)
    case 111 => V(111, 0x5522, 112, 109, 0)
    case 112 => V(112, 0x59eb, 112, 111, 1)
    case _ => V(113, 0x5a1d, 113, 113, 0)
  }

  function AriTab(index: nat): (row: Row)
    requires index <= 113
  {
    if index < 14 then RowsFrom0(index)
    else if index < 36 then RowsFrom14(index)
    else if index < 50 then RowsFrom36(index)
    else if index < 64 then RowsFrom50(index)
    else if index < 80 then RowsFrom64(index)
    else if index < 95 then RowsFrom80(index)
    else RowsFrom95(index)
  }

  predicate ValidBin(sv: Bin) {
    sv <= 113 || 0x80 <= sv <= 0x80 + 113
  }

  // The more probable symbol, bit 7 of the bin.
  function Mps(sv: Bin): (bit: nat)
    ensures bit <= 1
  {
    sv / 0x80
  }

  function MakeBin(mps: nat, index: nat): (sv: Bin)
    requires mps <= 1 && index <= 113
    ensures ValidBin(sv) && Mps(sv) == mps && sv % 0x80 == index
  {
    if mps == 0 then index else 0x80 + index
  }

  function Qe(sv: Bin): (qe: nat)
    requires ValidBin(sv)
    ensures 0 < qe < 0x8000
  {
    AriTab(sv % 0x80).qe
  }

  // Successor of a bin; the switch bit of the row inverts the sense after the less probable symbol.
  function NextBin(sv: Bin, lps: bool): (sv': Bin)
    requires ValidBin(sv)
    ensures ValidBin(sv')
  {
    var row := AriTab(sv % 0x80);
    if !lps then MakeBin(Mps(sv), row.nextMps)
    else if row.switchMps == 0 then MakeBin(Mps(sv), row.nextLps)
    else MakeBin(1 - Mps(sv), row.nextLps)
  }

  // ---- The estimates move the right way ----

  // The rows at which a less probable symbol exchanges the senses.
  predicate Switches(index: nat) {
    || index == 0 || index == 14 || index == 36 || index == 64 || index == 80
    || index == 88 || index == 95 || index == 105 || index == 110 || index == 112
  }

  // Where a more probable symbol does not leave the row: the end of the table, and the fixed bin.
  predicate Stationary(index: nat) {
    index == 13 || index == FIXED_BIN
  }

  ghost predicate RowMoves(i: nat)
    requires i <= 113
  {
    var row := AriTab(i);
    && (if Stationary(i) then row.nextMps == i else AriTab(row.nextMps).qe < row.qe)
    && (row.switchMps == 1 <==> Switches(i))
    && (i != 113 ==> row.nextMps != 113 && row.nextLps != 113)
    && (if i == 113 then row.nextLps == i
        else if Switches(i) then AriTab(row.nextLps).qe <= row.qe
        else AriTab(row.nextLps).qe > row.qe)
  }

  lemma Moves0(i: nat)
    requires 0 <= i < 8
    ensures RowMoves(i)
  {
  }

  lemma Moves8(i: nat)
    requires 8 <= i < 14
    ensures RowMoves(i)
  {
  }

  lemma Moves14(i: nat)
    requires 14 <= i < 22
    ensures RowMoves(i)
  {
  }

  lemma Moves22(i: nat)
    requires 22 <= i < 29
    ensures RowMoves(i)
  {
  }

  lemma Moves29(i: nat)
    requires 29 <= i < 36
    ensures RowMoves(i)
  {
  }

  lemma Moves36(i: nat)
    requires 36 <= i < 44
    ensures RowMoves(i)
  {
  }

  lemma Moves44(i: nat)
    requires 44 <= i < 52
    ensures RowMoves(i)
  {
  }

  lemma Moves52(i: nat)
    requires 52 <= i < 60
    ensures RowMoves(i)
  {
  }

  lemma Moves60(i: nat)
    requires 60 <= i < 70
    ensures RowMoves(i)
  {
  }

  lemma Moves70(i: nat)
    requires 70 <= i < 80
    ensures RowMoves(i)
  {
  }

  lemma Moves80(i: nat)
    requires 80 <= i < 88
    ensures RowMoves(i)
  {
  }

  lemma Moves88(i: nat)
    requires 88 <= i < 95
    ensures RowMoves(i)
  {
  }

  lemma Moves95(i: nat)
    requires 95 <= i < 102
    ensures RowMoves(i)
  {
  }

  lemma Moves102(i: nat)
    requires 102 <= i < 108
    ensures RowMoves(i)
  {
  }

  lemma Moves108(i: nat)
    requires 108 <= i < 114
    ensures RowMoves(i)
  {
  }

  lemma RowsMove(i: nat)
    requires i <= 113
    ensures RowMoves(i)
  {
    if i < 8 {
      Moves0(i);
    } else if i < 14 {
      Moves8(i);
    } else if i < 22 {
      Moves14(i);
    } else if i < 29 {
      Moves22(i);
    } else if i < 36 {
      Moves29(i);
    } else if i < 44 {
      Moves36(i);
    } else if i < 52 {
      Moves44(i);
    } else if i < 60 {
      Moves52(i);
    } else if i < 70 {
      Moves60(i);
    } else if i < 80 {
      Moves70(i);
    } else if i < 88 {
      Moves80(i);
    } else if i < 95 {
      Moves88(i);
    } else if i < 102 {
      Moves95(i);
    } else if i < 108 {
      Moves102(i);
    } else {
      Moves108(i);
    }
  }

  // A more probable symbol never exchanges the senses, and makes the less probable one less
  // probable still, as far as the table goes.
  lemma MoreProbable(sv: Bin)
    requires ValidBin(sv)
    ensures Mps(NextBin(sv, false)) == Mps(sv)
    ensures if Stationary(sv % 0x80) then NextBin(sv, false) == sv else Qe(NextBin(sv, false)) < Qe(sv)
    ensures sv % 0x80 == 13 ==> Qe(sv) == 1
    ensures NextBin(sv, false) % 0x80 == 113 ==> sv % 0x80 == 113
  {
    RowsMove(sv % 0x80);
  }

  // A less probable symbol makes it more probable, until that would make it the more probable one:
  // at the marked rows the senses are exchanged instead.
  lemma LessProbable(sv: Bin)
    requires ValidBin(sv)
    ensures Mps(NextBin(sv, true)) == (if Switches(sv % 0x80) then 1 - Mps(sv) else Mps(sv))
    ensures sv % 0x80 == 113 ==> NextBin(sv, true) == sv
    ensures Switches(sv % 0x80) ==> Qe(NextBin(sv, true)) <= Qe(sv)
    ensures sv % 0x80 != 113 && !Switches(sv % 0x80) ==> Qe(NextBin(sv, true)) > Qe(sv)
  {
    RowsMove(sv % 0x80);
  }

  // The bin after n more probable symbols in a row.
  function AfterRun(sv: Bin, n: nat): (sv': Bin)
    requires ValidBin(sv)
    ensures ValidBin(sv')
    decreases n
  {
    if n == 0 then sv else AfterRun(NextBin(sv, false), n - 1)
  }

  // A source that has one symbol only is learnt: every bin but the fixed one comes to the smallest
  // estimate there is, and stays there.
  lemma {:induction false} RunIsLearnt(sv: Bin, n: nat)
    requires ValidBin(sv) && sv % 0x80 != 113 && n + 1 >= Qe(sv)
    ensures AfterRun(sv, n) == MakeBin(Mps(sv), 13)
    decreases n
  {
    MoreProbable(sv);
    if n > 0 {
      RunIsLearnt(NextBin(sv, false), n - 1);
    }
  }
}
