// What the progressive AC coders of jchuff.c and jdhuff.c share: scans, the point transform, runs of
// blocks that end together, and bit fetches that may fail.  Blocks are indexed in zigzag order.
module ACScan {
  import opened Numerals
  import opened CanonicalCode
  import opened BitWriter
  import opened TokenStream

  type Block = z: seq<int> | |z| == 64 witness seq(64, _ => 0)

  // An AC scan: its table, its band, 1 << Al, and whether it is the first one of its band (Ah is 0).
  datatype Scan = Scan(tab: nat, ss: nat, se: nat, p: nat, first: bool)

  predicate IsScan(sc: Scan) {
    1 <= sc.ss <= sc.se <= 63 && sc.p > 0
  }

  // The point transform of a coefficient, and what a decoder holds that knows so much of it.
  function Abs(c: int): nat {
    if c < 0 then -c else c
  }

  function Mag(c: int, p: nat): nat
    requires p > 0
  {
    Abs(c) / p
  }

  function Trunc(c: int, p: nat): int
    requires p > 0
  {
    if c < 0 then -(Mag(c, p) * p) else Mag(c, p) * p
  }

  function SignBit(c: int): bit {
    if c < 0 then 0 else 1
  }

  // ---- What the encoder emits ----

  // The tokens of one block; whether an end of band is due after them; the correction bits that go with it.
  datatype Coded = Coded(tokens: seq<Token>, pending: bool, br: seq<bit>)

  function Before(ts: seq<Token>, rest: Coded): Coded {
    Coded(ts + rest.tokens, rest.pending, rest.br)
  }

  // One less than the number of bits of e.
  function Log2(e: nat): nat
    requires e > 0
  {
    if e < 2 then 0 else 1 + Log2(e / 2)
  }

  lemma {:induction false} Log2Bounds(e: nat)
    requires e > 0
    ensures Pow2(Log2(e)) <= e < 2 * Pow2(Log2(e))
  {
    if e >= 2 {
      Log2Bounds(e / 2);
    }
  }

  // A run fits the 15 run length categories: emit_eobrun never meets its safety check.
  lemma RunCategory(e: nat)
    requires 0 < e <= 0x7FFF
    ensures Log2(e) <= 14
  {
    Log2Bounds(e);
    if Log2(e) >= 15 {
      Pow2Monotone(15, Log2(e));
    }
  }

  // emit_eobrun: the run, and the correction bits that were put off.
  function EobTokens(tab: nat, run: nat, buf: seq<bit>): seq<Token> {
    if run == 0 then []
    else [Symbol(tab, Log2(run) * 16), Raw(LowBits(run, Log2(run))), Raw(buf)]
  }

  const MAX_CORR_BITS := 1000

  // The run of blocks that have ended but whose end is not yet emitted.
  datatype Run = Run(eobrun: nat, buf: seq<bit>)

  predicate MustEmit(run: Run) {
    run.eobrun == 0x7FFF || |run.buf| > MAX_CORR_BITS - 64 + 1
  }

  // Between blocks, a run that need not be emitted yet.
  predicate RunOk(run: Run) {
    !MustEmit(run) && run.eobrun < 0x7FFF && (run.eobrun == 0 ==> run.buf == [])
  }

  // The run after a block.
  function NextRun(run: Run, coded: Coded): Run {
    var before := if coded.tokens == [] then run else Run(0, []);
    if !coded.pending then before else
      var after := Run(before.eobrun + 1, before.buf + coded.br);
      if MustEmit(after) then Run(0, []) else after
  }

  // What is emitted for a block.
  function BlockTokens(tab: nat, run: Run, coded: Coded): seq<Token> {
    var head := if coded.tokens == [] then [] else EobTokens(tab, run.eobrun, run.buf) + coded.tokens;
    var before := if coded.tokens == [] then run else Run(0, []);
    var after := Run(before.eobrun + 1, before.buf + coded.br);
    if coded.pending && MustEmit(after) then head + EobTokens(tab, after.eobrun, after.buf) else head
  }

  // A restart before a block, if there is to be one: the interval ends with the run that is pending.
  predicate Restarts(tab: nat, r: nat, parts: seq<seq<Token>>, ts: seq<Token>, run: Run, togo: nat,
                     parts': seq<seq<Token>>, ts': seq<Token>, run': Run)
  {
    if r > 0 && togo == 0
    then parts' == parts + [ts + EobTokens(tab, run.eobrun, run.buf)] && ts' == [] && run' == Run(0, [])
    else parts' == parts && ts' == ts && run' == run
  }

  // ---- What the decoder fetches ----

  // Every bit fetch may be forced to suspend.  f counts the fetches that will succeed; below zero
  // none is forced to fail.
  const NEVER := -1

  predicate Fails(f: int, s: seq<bit>, n: nat) {
    f == 0 || |s| < n
  }

  function Next(f: int): int {
    if f > 0 then f - 1 else f
  }

  // natural_order has entries beyond the last position that repeat it.
  function Clamp(k: nat): nat {
    if k > 63 then 63 else k
  }

  function Signed(b: bit, p: nat): int {
    if b == 1 then p as int else -(p as int)
  }

  datatype Outcome = Done(z: Block, s: seq<bit>, eobrun: nat) | Suspended(z: Block)
}
