// What the Huffman coders of jchuff.c emit: coded symbols and raw bits.  A statistics pass counts the
// symbols of the same stream that an output pass turns into bits.
module TokenStream {
  import opened CanonicalCode
  import opened DerivedTables
  import opened HuffmanDecode

  datatype Token = Symbol(tab: nat, sym: nat) | Raw(bits: seq<bit>)

  // A table as the encoder and the decoder know it.
  datatype Code = Code(htbl: HuffTable, ehufco: seq<nat>, ehufsi: seq<nat>)

  // What the types and jpeg_make_c_derived_tbl guarantee of every table.
  predicate CodeFits(code: Code) {
    |code.ehufco| == |code.ehufsi| == 256 && forall s :: 0 <= s < 256 ==> code.ehufsi[s] <= 16
  }

  ghost predicate Sound(code: Code) {
    Readable(code.htbl) && EncodesWith(code.htbl, code.ehufco, code.ehufsi)
  }

  // A symbol of size 0 has no code, which emit_bits reports as an error.
  predicate HasCode(codes: seq<Code>, t: Token) {
    t.Symbol? ==>
      && t.tab < |codes| && t.sym < |codes[t.tab].ehufsi| == |codes[t.tab].ehufco|
      && codes[t.tab].ehufsi[t.sym] != 0
  }

  predicate Emittable(codes: seq<Code>, ts: seq<Token>) {
    forall i :: 0 <= i < |ts| ==> HasCode(codes, ts[i])
  }

  function TokenBits(codes: seq<Code>, t: Token): seq<bit>
    requires HasCode(codes, t)
  {
    match t
    case Symbol(tab, sym) => SymbolBits(codes[tab].ehufco, codes[tab].ehufsi, sym)
    case Raw(bits) => bits
  }

  function Flatten(codes: seq<Code>, ts: seq<Token>): seq<bit>
    requires Emittable(codes, ts)
  {
    if ts == [] then [] else TokenBits(codes, ts[0]) + Flatten(codes, ts[1..])
  }

  lemma {:induction false} FlattenAppend(codes: seq<Code>, ts: seq<Token>, us: seq<Token>)
    requires Emittable(codes, ts) && Emittable(codes, us)
    ensures Emittable(codes, ts + us) && Flatten(codes, ts + us) == Flatten(codes, ts) + Flatten(codes, us)
  {
    if ts == [] {
      assert ts + us == us;
    } else {
      assert (ts + us)[1..] == ts[1..] + us;
      FlattenAppend(codes, ts[1..], us);
    }
  }

  lemma EmittableParts(codes: seq<Code>, ts: seq<Token>, us: seq<Token>)
    requires Emittable(codes, ts + us)
    ensures Emittable(codes, ts) && Emittable(codes, us)
    ensures Flatten(codes, ts + us) == Flatten(codes, ts) + Flatten(codes, us)
  {
    forall i | 0 <= i < |ts|
      ensures HasCode(codes, ts[i])
    {
      assert ts[i] == (ts + us)[i];
    }
    forall i | 0 <= i < |us|
      ensures HasCode(codes, us[i])
    {
      assert us[i] == (ts + us)[|ts| + i];
    }
    FlattenAppend(codes, ts, us);
  }

  lemma FlattenSnoc(codes: seq<Code>, ts: seq<Token>, t: Token)
    ensures Emittable(codes, ts + [t]) <==> Emittable(codes, ts) && HasCode(codes, t)
    ensures Emittable(codes, ts + [t]) ==> Flatten(codes, ts + [t]) == Flatten(codes, ts) + TokenBits(codes, t)
  {
    if Emittable(codes, ts + [t]) {
      EmittableParts(codes, ts, [t]);
      assert [t][1..] == [];
      assert [t][0] == t;
    }
  }

  lemma FlattenRaw(codes: seq<Code>, bits: seq<bit>)
    ensures Flatten(codes, [Raw(bits)]) == bits
  {
    assert [Raw(bits)][1..] == [];
  }

  // The decoder of the same table reads the symbol back, whatever follows.
  lemma SymbolReadBack(codes: seq<Code>, t: Token, rest: seq<bit>)
    requires HasCode(codes, t) && t.Symbol? && Sound(codes[t.tab])
    ensures var s := TokenBits(codes, t) + rest;
      var d := Decode(codes[t.tab].htbl, s);
      d.Got? && d.sym == t.sym && s[d.used..] == rest
  {
    SymbolRoundTrip(codes[t.tab].htbl, codes[t.tab].ehufco, codes[t.tab].ehufsi, t.sym, rest);
  }

  // A symbol of the table is emitted.
  predicate Occurs(ts: seq<Token>, tab: nat) {
    exists i :: 0 <= i < |ts| && ts[i].Symbol? && ts[i].tab == tab
  }

  lemma OccursIn(ts: seq<Token>, more: seq<Token>, tab: nat)
    requires Occurs(ts, tab) || Occurs(more, tab)
    ensures Occurs(ts + more, tab)
  {
    if Occurs(ts, tab) {
      var i :| 0 <= i < |ts| && ts[i].Symbol? && ts[i].tab == tab;
      assert (ts + more)[i] == ts[i];
    } else {
      var i :| 0 <= i < |more| && more[i].Symbol? && more[i].tab == tab;
      assert (ts + more)[|ts| + i] == more[i];
    }
  }

  // ---- Statistics ----

  // How often a symbol is emitted.
  function CountSymbol(ts: seq<Token>, tab: nat, sym: nat): nat {
    if ts == [] then 0
    else CountSymbol(ts[..|ts| - 1], tab, sym) + (if ts[|ts| - 1] == Symbol(tab, sym) then 1 else 0)
  }

  lemma CountSnoc(ts: seq<Token>, t: Token, tab: nat, sym: nat)
    ensures CountSymbol(ts + [t], tab, sym) == CountSymbol(ts, tab, sym) + (if t == Symbol(tab, sym) then 1 else 0)
  {
    assert (ts + [t])[..|ts|] == ts;
  }

  lemma {:induction false} CountAppend(ts: seq<Token>, us: seq<Token>, tab: nat, sym: nat)
    ensures CountSymbol(ts + us, tab, sym) == CountSymbol(ts, tab, sym) + CountSymbol(us, tab, sym)
  {
    if us == [] {
      assert ts + us == ts;
    } else {
      var init, last := us[..|us| - 1], us[|us| - 1];
      assert us == init + [last] && ts + us == (ts + init) + [last];
      CountSnoc(ts + init, last, tab, sym);
      CountAppend(ts, init, tab, sym);
    }
  }

  lemma {:induction false} Uncounted(ts: seq<Token>, tab: nat, sym: nat)
    requires forall i :: 0 <= i < |ts| ==> ts[i] != Symbol(tab, sym)
    ensures CountSymbol(ts, tab, sym) == 0
  {
    if ts != [] {
      Uncounted(ts[..|ts| - 1], tab, sym);
    }
  }

  lemma {:induction false} CountPositive(ts: seq<Token>, tab: nat, sym: nat, i: nat)
    requires i < |ts| && ts[i] == Symbol(tab, sym)
    ensures CountSymbol(ts, tab, sym) > 0
  {
    if i < |ts| - 1 {
      CountPositive(ts[..|ts| - 1], tab, sym, i);
    }
  }
}
