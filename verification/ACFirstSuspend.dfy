// Forced suspensions inside decode_mcu_AC_first leave no trace: the coefficients that were output are
// output again by the next call.
module ACFirstSuspend {
  import opened Numerals
  import opened CanonicalCode
  import opened HuffmanDecode
  import opened ACScan
  import opened RunLength
  import opened ACFirst

  // Reading s from position k on writes coefficient n.
  predicate Writes(htbl: HuffTable, k: nat, se: nat, s: seq<bit>, n: nat)
    requires k <= se ==> Readable(htbl)
    decreases se + 1 - k
  {
    k <= se && Decode(htbl, s).Got? && WritesAfter(htbl, k, se, Decode(htbl, s).sym, s[Decode(htbl, s).used..], n)
  }

  predicate WritesAfter(htbl: HuffTable, k: nat, se: nat, sym: nat, s: seq<bit>, n: nat)
    requires Readable(htbl) && k <= se
    decreases se + 1 - k, 0
  {
    var r, size := sym / 16, sym % 16;
    if size != 0 then |s| >= size && (n == Clamp(k + r) || Writes(htbl, k + r + 1, se, s[size..], n))
    else r == 15 && Writes(htbl, k + 16, se, s, n)
  }

  // The blocks z and y differ only where reading s writes.
  predicate Overwritten(htbl: HuffTable, k: nat, se: nat, s: seq<bit>, z: Block, y: Block)
    requires k <= se ==> Readable(htbl)
  {
    forall n :: 0 <= n < 64 ==> y[n] == z[n] || Writes(htbl, k, se, s, n)
  }

  predicate OverwrittenAfter(htbl: HuffTable, k: nat, se: nat, sym: nat, s: seq<bit>, z: Block, y: Block)
    requires Readable(htbl) && k <= se
  {
    forall n :: 0 <= n < 64 ==> y[n] == z[n] || WritesAfter(htbl, k, se, sym, s, n)
  }

  // Then what is read is the same.
  lemma {:induction false} ReadsSame(htbl: HuffTable, k: nat, se: nat, p: nat, s: seq<bit>, z: Block, y: Block)
    requires (k <= se ==> Readable(htbl)) && Overwritten(htbl, k, se, s, z, y)
    ensures ReadRuns(htbl, y, k, se, se, p, s) == ReadRuns(htbl, z, k, se, se, p, s)
    decreases se + 1 - k, 1
  {
    if k <= se && Decode(htbl, s).Got? {
      var d := Decode(htbl, s);
      AfterSame(htbl, k, se, p, d.sym, s[d.used..], z, y);
    } else {
      assert y == z;
    }
  }

  lemma {:induction false} AfterSame(htbl: HuffTable, k: nat, se: nat, p: nat, sym: nat, s: seq<bit>, z: Block, y: Block)
    requires Readable(htbl) && k <= se && OverwrittenAfter(htbl, k, se, sym, s, z, y)
    ensures AfterSymbol(htbl, y, k, se, se, p, sym, s) == AfterSymbol(htbl, z, k, se, se, p, sym, s)
    decreases se + 1 - k, 0
  {
    var r, size := sym / 16, sym % 16;
    if size != 0 && |s| >= size {
      var v := Extend(BitsValue(s[..size]), size) * p;
      ReadsSame(htbl, k + r + 1, se, p, s[size..], Put(z, k, r, se, v), Put(y, k, r, se, v));
    } else if size == 0 && r == 15 {
      ReadsSame(htbl, k + 16, se, p, s, z, y);
    } else {
      assert y == z;
    }
  }

  // Nothing else is written.
  lemma {:induction false} ReadsFrame(htbl: HuffTable, k: nat, se: nat, p: nat, s: seq<bit>, z: Block)
    requires k <= se ==> Readable(htbl)
    ensures Overwritten(htbl, k, se, s, z, ReadRuns(htbl, z, k, se, se, p, s).z)
    decreases se + 1 - k, 1
  {
    if k <= se && Decode(htbl, s).Got? {
      var d := Decode(htbl, s);
      AfterFrame(htbl, k, se, p, d.sym, s[d.used..], z);
    }
  }

  lemma {:induction false} AfterFrame(htbl: HuffTable, k: nat, se: nat, p: nat, sym: nat, s: seq<bit>, z: Block)
    requires Readable(htbl) && k <= se
    ensures OverwrittenAfter(htbl, k, se, sym, s, z, AfterSymbol(htbl, z, k, se, se, p, sym, s).z)
    decreases se + 1 - k, 0
  {
    var r, size := sym / 16, sym % 16;
    if size != 0 && |s| >= size {
      var v := Extend(BitsValue(s[..size]), size) * p;
      ReadsFrame(htbl, k + r + 1, se, p, s[size..], Put(z, k, r, se, v));
    } else if size == 0 && r == 15 {
      ReadsFrame(htbl, k + 16, se, p, s, z);
    }
  }

  lemma {:induction false} WritesMore(htbl: HuffTable, k: nat, se: nat, s: seq<bit>, t: seq<bit>, n: nat)
    requires (k <= se ==> Readable(htbl)) && Writes(htbl, k, se, s, n)
    ensures Writes(htbl, k, se, s + t, n)
    decreases se + 1 - k, 1
  {
    var d := Decode(htbl, s);
    DecodeMonotone(htbl, s, t, 1);
    CutBefore(s, t, d.used);
    WritesAfterMore(htbl, k, se, d.sym, s[d.used..], t, n);
  }

  lemma {:induction false} WritesAfterMore(htbl: HuffTable, k: nat, se: nat, sym: nat, s: seq<bit>, t: seq<bit>, n: nat)
    requires Readable(htbl) && k <= se && WritesAfter(htbl, k, se, sym, s, n)
    ensures WritesAfter(htbl, k, se, sym, s + t, n)
    decreases se + 1 - k, 0
  {
    var r, size := sym / 16, sym % 16;
    if size != 0 {
      CutBefore(s, t, size);
      if n != Clamp(k + r) {
        WritesMore(htbl, k + r + 1, se, s[size..], t, n);
      }
    } else {
      WritesMore(htbl, k + 16, se, s, t, n);
    }
  }

  lemma OverwrittenMore(htbl: HuffTable, k: nat, se: nat, s: seq<bit>, t: seq<bit>, z: Block, y: Block)
    requires (k <= se ==> Readable(htbl)) && Overwritten(htbl, k, se, s, z, y)
    ensures Overwritten(htbl, k, se, s + t, z, y)
  {
    forall n | 0 <= n < 64 && Writes(htbl, k, se, s, n)
      ensures Writes(htbl, k, se, s + t, n)
    {
      WritesMore(htbl, k, se, s, t, n);
    }
  }

  // One more call that has taken the bits w of s before it was suspended.
  lemma FirstOneMore(sc: Scan, htbl: HuffTable, z: Block, y: Block, w: seq<bit>, s: seq<bit>, y': Block)
    requires IsScan(sc) && Readable(htbl) && w <= s && Overwritten(htbl, sc.ss, sc.se, s, z, y)
    requires FirstMcu(sc, htbl, y, 0, w) == Suspended(y')
    ensures Overwritten(htbl, sc.ss, sc.se, s, z, y')
  {
    ReadsFrame(htbl, sc.ss, sc.se, sc.p, w, y);
    assert s == w + s[|w|..];
    OverwrittenMore(htbl, sc.ss, sc.se, w, s[|w|..], y, y');
  }

  // Whatever such calls have left behind, the call that completes delivers what one call would have.
  lemma FirstResumes(sc: Scan, htbl: HuffTable, z: Block, y: Block, s: seq<bit>, t: seq<bit>)
    requires IsScan(sc) && Readable(htbl) && Overwritten(htbl, sc.ss, sc.se, s, z, y)
    ensures FirstMcu(sc, htbl, y, 0, s + t) == FirstMcu(sc, htbl, z, 0, s + t)
  {
    OverwrittenMore(htbl, sc.ss, sc.se, s, t, z, y);
    ReadsSame(htbl, sc.ss, sc.se, sc.p, s + t, z, y);
  }
}
