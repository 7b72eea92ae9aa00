// Finding the next restart marker, and going on after damage: next_marker, read_restart_marker and
// jpeg_resync_to_restart of jdmarker.c, and process_restart of jdhuff.c.
module RestartReader {
  import opened Numerals
  import opened ByteStuffing
  import opened BitReader
  import opened RestartStream

  const SOF0: byte := 0xC0

  // ---- Where a decoder goes on ----

  // After a restart: a marker that was left unread, and the input after it.  Lost if the input ends first.
  datatype Position = At(unread: byte, input: seq<byte>) | Lost

  // The actions of jpeg_resync_to_restart: discard the marker, scan to the next one, or leave it unread.
  datatype Action = Discard | Scan | Leave

  function ActionFor(marker: byte, desired: nat): Action {
    if marker < SOF0 then Scan
    else if marker < RST0 || marker > RST7 then Leave
    else if marker == Rst(desired + 1) || marker == Rst(desired + 2) then Leave
    else if marker == Rst(desired + 7) || marker == Rst(desired + 6) then Scan
    else Discard
  }

  function Resynced(marker: byte, input: seq<byte>, desired: nat): Position
    decreases |input|
  {
    match ActionFor(marker, desired)
    case Discard => At(0, input)
    case Leave => At(marker, input)
    case Scan =>
      var seg := Parse(input);
      if seg.marker == 0 then Lost else Resynced(seg.marker, seg.after, desired)
  }

  function AfterMarker(marker: byte, input: seq<byte>, desired: nat): Position {
    if marker == Rst(desired) then At(0, input) else Resynced(marker, input, desired)
  }

  // Where the next segment starts, for a decoder that stands anywhere before the marker that ends this one.
  function NextSegment(unread: byte, input: seq<byte>, desired: nat): Position {
    var end := Ending(unread, input);
    if end.0 == 0 then Lost else AfterMarker(end.0, end.1, desired)
  }

  // The state of the input there.
  ghost predicate Started(pos: Position, warned: bool, now: Source) {
    pos.At? &&
    var end := Ending(pos.unread, pos.input);
    && now.rest == Remaining([], pos.input, pos.unread) && now.marker == end.0 && now.after == end.1
    && now.warned == (warned && pos.unread != 0)
  }

  // Where the next segment starts, from any state of the input.
  function GoalOf(s: Source, desired: nat): Position {
    if s.marker == 0 then Lost else AfterMarker(s.marker, s.after, desired)
  }

  // The input has been moved there, or it has been moved on a little, but more is needed.
  ghost predicate Restarted(s: Source, desired: nat, now: Source) {
    Started(GoalOf(s, desired), s.warned, now) && now.future == s.future
  }

  ghost predicate Seeking(s: Source, desired: nat, now: Source) {
    && GoalOf(now, desired) == GoalOf(s, desired) && now.warned == s.warned && now.future == s.future
    && (now.future == [] ==> GoalOf(now, desired) == Lost)
  }

  lemma StartedGoal(pos: Position, warned: bool, now: Source, num: nat)
    requires Started(pos, warned, now)
    ensures GoalOf(now, num) == NextSegment(pos.unread, pos.input, num)
  {
  }

  // ---- Between two calls of an entropy decoder ----

  // What it knows: the input, what it saves of its own, the MCUs left in the restart interval, and the
  // number of the next restart marker, which the marker reader keeps.
  datatype Standing<S> = Standing(source: Source, own: S, togo: nat, num: nat)

  // The counter is unsigned; without restart intervals it runs below zero, to no effect.
  function Countdown(togo: nat): nat {
    if togo == 0 then 0xFFFF_FFFF else togo - 1
  }

  predicate Due<S>(restartInterval: nat, st: Standing<S>) {
    restartInterval > 0 && st.togo == 0
  }

  // A restart, if there is to be one.
  ghost predicate Proceeds<S>(restartInterval: nat, reset: S, st: Standing<S>, st': Standing<S>) {
    if Due(restartInterval, st) then
      && Restarted(st.source, st.num, st'.source)
      && st' == Standing(st'.source, reset, restartInterval, NextNum(st.num))
    else st' == st
  }

  // A restart that has not come to its end for lack of input.
  ghost predicate Stalled<S>(restartInterval: nat, st: Standing<S>, st': Standing<S>) {
    Due(restartInterval, st) && Seeking(st.source, st.num, st'.source) && st' == st.(source := st'.source)
  }

  // ---- The state of the reader ----

  ghost function Place(reader: Reader): Position
    reads reader
  {
    At(reader.unreadMarker, reader.input + reader.future)
  }

  // Where the reader will go on after the next restart.
  ghost function Goal(reader: Reader, desired: nat): Position
    reads reader
  {
    NextSegment(reader.unreadMarker, reader.input + reader.future, desired)
  }

  ghost function ResyncGoal(reader: Reader, desired: nat): Position
    reads reader
  {
    Resynced(reader.unreadMarker, reader.input + reader.future, desired)
  }

  // ---- next_marker ----

  predicate SameEnd(x: seq<byte>, y: seq<byte>) {
    Parse(x).marker == Parse(y).marker && Parse(x).after == Parse(y).after
  }

  // Skipping any bytes other than 0xFF.
  method SkipData(input: seq<byte>, ghost future: seq<byte>) returns (rest: seq<byte>)
    ensures |rest| <= |input| && SameEnd(input + future, rest + future) && SameEnd(input, rest)
    ensures rest != [] ==> rest[0] == 0xFF
  {
    rest := input;
    while rest != [] && rest[0] != 0xFF
      invariant |rest| <= |input| && SameEnd(input + future, rest + future) && SameEnd(input, rest)
      decreases |rest|
    {
      DropHead(rest, future);
      rest := rest[1..];
    }
  }

  // The byte after any number of 0xFF bytes.
  method PastFills(input: seq<byte>, ghost future: seq<byte>) returns (ok: bool, c: byte, rest: seq<byte>)
    requires input != [] && input[0] == 0xFF
    ensures !ok ==> Parse(input).marker == 0
    ensures ok ==> |rest| < |input| && c != 0xFF
    ensures ok && c == 0 ==> SameEnd(input + future, rest + future) && SameEnd(input, rest)
    ensures ok && c != 0 ==> Parse(input + future).marker == c && Parse(input + future).after == rest + future
  {
    DropHead(input, future);
    rest, c := input[1..], 0xFF;
    while c == 0xFF
      invariant |rest| < |input|
      invariant c == 0xFF ==> Parse(input) == ParseAfterFF(rest) && Parse(input + future) == ParseAfterFF(rest + future)
      invariant c == 0 ==> SameEnd(input + future, rest + future) && SameEnd(input, rest)
      invariant c != 0xFF && c != 0 ==> Parse(input + future).marker == c && Parse(input + future).after == rest + future
      decreases c == 0xFF, |rest|
    {
      if rest == [] {
        return false, c, rest;
      }
      DropHead(rest, future);
      c, rest := rest[0], rest[1..];
    }
    ok := true;
  }

  // next_marker.  A call that has to suspend keeps its place, or loses only data that it was to skip.
  method NextMarker(reader: Reader) returns (ok: bool)
    modifies reader`input, reader`unreadMarker
    ensures !ok ==> reader.unreadMarker == old(reader.unreadMarker) && Parse(reader.input).marker == 0
    ensures !ok ==> SameEnd(old(reader.input + reader.future), reader.input + reader.future)
    ensures ok ==> reader.unreadMarker == Parse(old(reader.input + reader.future)).marker != 0
    ensures ok ==> reader.input + reader.future == Parse(old(reader.input + reader.future)).after
  {
    ghost var all, future := reader.input + reader.future, reader.future;
    while true
      invariant SameEnd(all, reader.input + future) && reader.unreadMarker == old(reader.unreadMarker)
      decreases |reader.input|
    {
      var rest := SkipData(reader.input, future);
      reader.input := rest;
      if rest == [] {
        return false;
      }
      var c;
      ok, c, rest := PastFills(reader.input, future);
      if !ok {
        return false;
      }
      reader.input := rest;
      if c != 0 {
        reader.unreadMarker := c;
        return true;
      }
    }
  }

  // ---- read_restart_marker ----

  lemma SameTarget(unread: byte, x: seq<byte>, y: seq<byte>, desired: nat)
    requires SameEnd(x, y)
    ensures unread == 0 ==> NextSegment(0, x, desired) == NextSegment(0, y, desired)
    ensures ActionFor(unread, desired).Scan? ==> Resynced(unread, x, desired) == Resynced(unread, y, desired)
  {
  }

  lemma StillLooking(unread: byte, x: seq<byte>, desired: nat)
    requires unread != 0 && ActionFor(unread, desired).Scan?
    ensures NextSegment(unread, x, desired) == Resynced(unread, x, desired)
    ensures Parse(x).marker == 0 ==> Resynced(unread, x, desired) == Lost
  {
  }

  // jpeg_resync_to_restart, for the marker in unread_marker.
  method ResyncToRestart(reader: Reader, desired: nat) returns (ok: bool)
    requires reader.unreadMarker != 0
    modifies reader`input, reader`unreadMarker
    ensures ok ==> Place(reader) == old(ResyncGoal(reader, desired))
    ensures !ok ==> ResyncGoal(reader, desired) == old(ResyncGoal(reader, desired))
    ensures !ok ==> Parse(reader.input).marker == 0 && reader.unreadMarker != 0 && ActionFor(reader.unreadMarker, desired).Scan?
  {
    ghost var goal := ResyncGoal(reader, desired);
    while true
      invariant ResyncGoal(reader, desired) == goal && reader.unreadMarker != 0
      decreases |reader.input + reader.future|
    {
      match ActionFor(reader.unreadMarker, desired) {
        case Discard =>
          reader.unreadMarker := 0;
          return true;
        case Leave =>
          return true;
        case Scan =>
          ghost var unread, x := reader.unreadMarker, reader.input + reader.future;
          ok := NextMarker(reader);
          if !ok {
            SameTarget(unread, x, reader.input + reader.future, desired);
            return;
          }
      }
    }
  }

  // read_restart_marker.  Suspended, it changes nothing about where it will end up.
  method ReadRestartMarker(reader: Reader, desired: nat) returns (ok: bool)
    modifies reader`input, reader`unreadMarker
    ensures ok ==> Place(reader) == old(Goal(reader, desired))
    ensures !ok ==> Goal(reader, desired) == old(Goal(reader, desired)) && Parse(reader.input).marker == 0
    ensures !ok && reader.future == [] ==> Goal(reader, desired) == Lost
  {
    if reader.unreadMarker == 0 {
      ok := NextMarker(reader);
      if !ok {
        SameTarget(0, old(reader.input + reader.future), reader.input + reader.future, desired);
        assert reader.future == [] ==> reader.input + reader.future == reader.input;
        return;
      }
    }
    assert Goal(reader, desired) == old(Goal(reader, desired));
    if reader.unreadMarker == Rst(desired) {
      reader.unreadMarker := 0;
      ok := true;
    } else {
      ok := ResyncToRestart(reader, desired);
      if !ok {
        StillLooking(reader.unreadMarker, reader.input + reader.future, desired);
        assert reader.future == [] ==> reader.input + reader.future == reader.input;
      }
    }
  }

  // The part of process_restart that concerns the input: bits that are left over are thrown away, and the
  // flag about a premature end is reset unless the decoder still stands before a marker.
  method RestartInput(reader: Reader, desired: nat) returns (ok: bool)
    requires reader.Valid()
    modifies reader
    ensures reader.Valid()
    ensures ok ==> Restarted(old(reader.State()), desired, reader.State())
    ensures !ok ==> Seeking(old(reader.State()), desired, reader.State())
  {
    GoalIs(reader, desired);
    reader.bitsLeft, reader.held := 0, [];
    NoneHeld(reader.getBuffer);
    ok := ReadRestartMarker(reader, desired);
    GoalIs(reader, desired);
    if ok && reader.unreadMarker == 0 {
      reader.insufficientData := false;
    }
  }

  lemma GoalIs(reader: Reader, desired: nat)
    ensures GoalOf(reader.State(), desired) == Goal(reader, desired)
  {
  }

  lemma NoneHeld(getBuffer: nat)
    requires getBuffer < 0x1_0000_0000
    ensures Holds(getBuffer, [])
  {
  }
}
