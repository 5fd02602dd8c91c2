/** The playback thread: prebuffering, the start wait and the writes to the
    host's sink, epoch by epoch (an epoch is what lies between two flushes). */
module Player {
  import opened Numbers
  import Position

  type Packet = seq<byte>
  type Pcm = seq<int>

  datatype Command = Frame(ts: u32, packet: Packet) | Silence(ts: u32) | Flush | Stop

  /** Decoded audio, or the silence that conceals a loss, at its timestamp. */
  datatype Chunk = Chunk(ts: u32, pcm: Pcm)

  /** What reaches the sink. `Wait(ts)` is the hold before an epoch's first
      write, until the play time of the frame at `ts`. */
  datatype SinkEvent = Wait(ts: u32) | Write(pcm: Pcm) | Flushed

  function Concat(chunks: seq<Chunk>): Pcm {
    if chunks == [] then []
    else Concat(chunks[..|chunks| - 1]) + chunks[|chunks| - 1].pcm
  }

  function Writes(chunks: seq<Chunk>): seq<SinkEvent> {
    seq(|chunks|, i requires 0 <= i < |chunks| => Write(chunks[i].pcm))
  }

  /** All an epoch does to the sink: nothing below the threshold; then one wait,
      one write of everything withheld, and every later chunk as it comes. */
  function EpochLog(threshold: nat, chunks: seq<Chunk>): seq<SinkEvent>
    requires threshold > 0
  {
    if |chunks| < threshold then []
    else [Wait(chunks[0].ts), Write(Concat(chunks[..threshold]))] + Writes(chunks[threshold..])
  }

  function Withheld(threshold: nat, chunks: seq<Chunk>): Pcm {
    if |chunks| < threshold then Concat(chunks) else []
  }

  class Sink {
    var log: seq<SinkEvent>

    constructor ()
      ensures log == []
    {
      log := [];
    }

    method Emit(event: SinkEvent)
      modifies this
      ensures log == old(log) + [event]
    {
      log := log + [event];
    }
  }

  class Prebuffer {
    const thresholdPackets: nat
    var packets: nat
    var buffer: Pcm
    var released: bool

    /** The chunks pushed since the last reset. */
    ghost var fed: seq<Chunk>

    ghost predicate Repr()
      reads this
    {
      && released == (|fed| >= Max(1, thresholdPackets))
      && (!released ==> packets == |fed|)
      && buffer == Withheld(Max(1, thresholdPackets), fed)
    }

    constructor (thresholdPackets: nat)
      ensures Repr() && fed == [] && this.thresholdPackets == thresholdPackets
    {
      this.thresholdPackets := thresholdPackets;
      packets, buffer, released, fed := 0, [], false, [];
    }

    method Push(ghost ts: u32, pcm: Pcm) returns (out: Option<Pcm>)
      requires Repr()
      modifies this
      ensures Repr() && fed == old(fed) + [Chunk(ts, pcm)]
      ensures out == if old(released) then Some(pcm)
                     else if released then Some(Concat(fed))
                     else None
    {
      fed := fed + [Chunk(ts, pcm)];
      assert fed[..|fed| - 1] == old(fed);
      if released {
        return Some(pcm);
      }
      buffer := buffer + pcm;
      packets := packets + 1;
      if packets >= thresholdPackets {
        released := true;
        out := Some(buffer);
        buffer := [];
      } else {
        out := None;
      }
    }

    method Reset()
      modifies this
      ensures Repr() && fed == []
    {
      packets, buffer, released, fed := 0, [], false, [];
    }
  }

  class Playout {
    const prebuffer: Prebuffer
    var started: bool
    var firstTs: Option<u32>

    ghost predicate Repr()
      reads this, prebuffer
    {
      && prebuffer.Repr()
      && started == prebuffer.released
      && firstTs == if prebuffer.fed == [] then None else Some(prebuffer.fed[0].ts)
    }

    constructor (thresholdPackets: nat)
      ensures Repr() && fresh(prebuffer)
      ensures prebuffer.fed == [] && prebuffer.thresholdPackets == thresholdPackets
    {
      prebuffer := new Prebuffer(thresholdPackets);
      started, firstTs := false, None;
    }

    /** Feeding a chunk makes the sink's log grow by exactly what the epoch's
        log grows by. */
    method Feed(ts: u32, pcm: Pcm, sink: Sink)
      requires Repr()
      modifies this, prebuffer, sink
      ensures Repr() && prebuffer.fed == old(prebuffer.fed) + [Chunk(ts, pcm)]
      ensures var t := Max(1, prebuffer.thresholdPackets);
              && EpochLog(t, old(prebuffer.fed)) <= EpochLog(t, prebuffer.fed)
              && sink.log == old(sink.log) + EpochLog(t, prebuffer.fed)[|EpochLog(t, old(prebuffer.fed))|..]
    {
      ghost var t := Max(1, prebuffer.thresholdPackets);
      ghost var before := prebuffer.fed;
      EpochGrows(t, before, Chunk(ts, pcm));
      if !started && firstTs == None {
        firstTs := Some(ts);
      }
      var out := prebuffer.Push(ts, pcm);
      if out == None {
        return;
      }
      if !started {
        started := true;
        sink.Emit(Wait(firstTs.value));
      }
      sink.Emit(Write(out.value));
    }

    method Reset()
      requires Repr()
      modifies this, prebuffer
      ensures Repr() && prebuffer.fed == []
    {
      prebuffer.Reset();
      started, firstTs := false, None;
    }
  }

  lemma EpochGrowsReleased(t: nat, chunks: seq<Chunk>, c: Chunk)
    requires 0 < t <= |chunks|
    ensures EpochLog(t, chunks + [c]) == EpochLog(t, chunks) + [Write(c.pcm)]
  {
    hide Concat;
    var all := chunks + [c];
    assert all[..t] == chunks[..t] && all[0] == chunks[0];
    var first := [Wait(chunks[0].ts), Write(Concat(chunks[..t]))];
    assert Writes(all[t..]) == Writes(chunks[t..]) + [Write(c.pcm)];
    assert first + (Writes(chunks[t..]) + [Write(c.pcm)]) == (first + Writes(chunks[t..])) + [Write(c.pcm)];
  }

  /** How an epoch's log grows by one chunk. */
  lemma EpochGrows(t: nat, chunks: seq<Chunk>, c: Chunk)
    requires t > 0
    ensures EpochLog(t, chunks + [c]) == EpochLog(t, chunks)
            + if |chunks| >= t then [Write(c.pcm)]
              else if |chunks| + 1 == t then [Wait((chunks + [c])[0].ts), Write(Concat(chunks + [c]))]
              else []
  {
    hide Concat;
    if |chunks| >= t {
      EpochGrowsReleased(t, chunks, c);
    } else if |chunks| + 1 == t {
      assert (chunks + [c])[..t] == chunks + [c];
      assert Writes((chunks + [c])[t..]) == [];
    }
  }

  // ----- The command loop -----

  /** The commands the thread acts on: up to the first `Stop`, or to the first
      receive that finds the stop flag set. */
  function Heard(commands: seq<Command>, stopAt: nat): seq<Command>
  {
    if commands == [] || stopAt == 0 || commands[0].Stop? then []
    else [commands[0]] + Heard(commands[1..], stopAt - 1)
  }

  function ChunkOf(c: Command, decode: Packet -> Option<Pcm>, silence: Pcm): Option<Chunk> {
    match c
    case Frame(ts, packet) => (match decode(packet) case Some(pcm) => Some(Chunk(ts, pcm)) case None => None)
    case Silence(ts) => Some(Chunk(ts, silence))
    case _ => None
  }

  /** Append to the last of several lists. */
  function Grow<T>(lists: seq<seq<T>>, x: T): (r: seq<seq<T>>)
    requires |lists| > 0
    ensures |r| == |lists|
  {
    lists[..|lists| - 1] + [lists[|lists| - 1] + [x]]
  }

  lemma GrowIsLocal<T>(a: seq<seq<T>>, b: seq<seq<T>>, x: T)
    requires |b| > 0
    ensures Grow(a + b, x) == a + Grow(b, x)
  {
    assert (a + b)[..|a + b| - 1] == a + b[..|b| - 1];
  }

  /** The chunks of each epoch: flushes split the commands, and packets that do
      not decode contribute nothing, not even silence. */
  function Epochs(commands: seq<Command>, decode: Packet -> Option<Pcm>, silence: Pcm): (r: seq<seq<Chunk>>)
    ensures |r| > 0
  {
    if commands == [] then [[]]
    else
      var done := Epochs(commands[..|commands| - 1], decode, silence);
      var c := commands[|commands| - 1];
      if c.Flush? then done + [[]]
      else match ChunkOf(c, decode, silence)
        case Some(chunk) => Grow(done, chunk)
        case None => done
  }

  /** The whole log: each closed epoch's own log and its flush, then the open
      epoch's log. */
  function LogOf(threshold: nat, epochs: seq<seq<Chunk>>): seq<SinkEvent>
    requires threshold > 0 && |epochs| > 0
  {
    if |epochs| == 1 then EpochLog(threshold, epochs[0])
    else LogOf(threshold, epochs[..|epochs| - 1]) + [Flushed] + EpochLog(threshold, epochs[|epochs| - 1])
  }

  lemma LogGrows(t: nat, epochs: seq<seq<Chunk>>, last: seq<Chunk>)
    requires t > 0 && |epochs| > 0 && EpochLog(t, epochs[|epochs| - 1]) <= EpochLog(t, last)
    ensures LogOf(t, epochs[..|epochs| - 1] + [last])
         == LogOf(t, epochs) + EpochLog(t, last)[|EpochLog(t, epochs[|epochs| - 1])|..]
  {
    hide EpochLog;
    var n := |epochs| - 1;
    var grown := epochs[..n] + [last];
    var was, now := EpochLog(t, epochs[n]), EpochLog(t, last);
    assert now == was + now[|was|..];
    if n > 0 {
      assert grown[..n] == epochs[..n];
      var head := LogOf(t, epochs[..n]) + [Flushed];
      assert head + (was + now[|was|..]) == (head + was) + now[|was|..];
    }
  }

  /** What one command adds to the log, given the open epoch so far. */
  function Effect(t: nat, fed: seq<Chunk>, c: Command, decode: Packet -> Option<Pcm>, silence: Pcm): seq<SinkEvent>
    requires t > 0
  {
    if c.Flush? then [Flushed]
    else match ChunkOf(c, decode, silence)
      case Some(chunk) =>
        EpochGrows(t, fed, chunk);
        EpochLog(t, fed + [chunk])[|EpochLog(t, fed)|..]
      case None => []
  }

  function Fed(fed: seq<Chunk>, c: Command, decode: Packet -> Option<Pcm>, silence: Pcm): seq<Chunk> {
    if c.Flush? then []
    else match ChunkOf(c, decode, silence)
      case Some(chunk) => fed + [chunk]
      case None => fed
  }

  lemma CommandEffect(t: nat, commands: seq<Command>, i: nat, decode: Packet -> Option<Pcm>, silence: Pcm)
    requires t > 0 && i < |commands|
    ensures var was, now := Epochs(commands[..i], decode, silence), Epochs(commands[..i + 1], decode, silence);
            var fed := was[|was| - 1];
            && now[|now| - 1] == Fed(fed, commands[i], decode, silence)
            && LogOf(t, now) == LogOf(t, was) + Effect(t, fed, commands[i], decode, silence)
  {
    hide EpochLog;
    assert commands[..i + 1][..i] == commands[..i];
    var was := Epochs(commands[..i], decode, silence);
    var fed, c := was[|was| - 1], commands[i];
    if c.Flush? {
      assert (was + [[]])[..|was|] == was;
      EmptyEpoch(t);
    } else if ChunkOf(c, decode, silence).Some? {
      var chunk := ChunkOf(c, decode, silence).value;
      EpochGrows(t, fed, chunk);
      LogGrows(t, was, fed + [chunk]);
    }
  }

  lemma EmptyEpoch(t: nat)
    requires t > 0
    ensures EpochLog(t, []) == []
  {
  }

  lemma {:induction false} HeardPrefix(commands: seq<Command>, stopAt: nat)
    ensures Heard(commands, stopAt) <= commands
    ensures var n := |Heard(commands, stopAt)|;
            n == |commands| || n == stopAt || commands[n].Stop?
    ensures |Heard(commands, stopAt)| <= stopAt
    ensures forall i :: 0 <= i < |Heard(commands, stopAt)| ==> !Heard(commands, stopAt)[i].Stop?
  {
    if commands != [] && stopAt != 0 && !commands[0].Stop? {
      HeardPrefix(commands[1..], stopAt - 1);
    }
  }

  /** The commands whose audio is played: all but flushes and undecodable packets. */
  predicate IsPlayed(c: Command, decode: Packet -> Option<Pcm>) {
    c.Silence? || (c.Frame? && decode(c.packet).Some?)
  }

  /** The position reports after some commands. `tracks` says, command by command,
      which track the session had last stated by then. */
  function Reported(
      r: Position.Reporter, commands: seq<Command>, tracks: seq<Option<Position.Track>>,
      decode: Packet -> Option<Pcm>, rate: u32): Position.Reporter
    requires |tracks| >= |commands|
  {
    if commands == [] then r
    else
      var n := |commands| - 1;
      var before := Reported(r, commands[..n], tracks, decode, rate);
      if IsPlayed(commands[n], decode) then Position.Advance(before, tracks[n], commands[n].ts, rate) else before
  }

  /** One turn of the command loop. */
  method Obey(
      c: Command, playout: Playout, sink: Sink, position: Position.Position, track: Option<Position.Track>,
      decode: Packet -> Option<Pcm>, silence: Pcm)
    requires playout.Repr() && !c.Stop?
    modifies playout, playout.prebuffer, sink, position
    ensures playout.Repr()
    ensures playout.prebuffer.fed == Fed(old(playout.prebuffer.fed), c, decode, silence)
    ensures sink.log == old(sink.log)
         + Effect(Max(1, playout.prebuffer.thresholdPackets), old(playout.prebuffer.fed), c, decode, silence)
    ensures var before := Position.Reporter(old(position.reported), old(position.events));
            Position.Reporter(position.reported, position.events)
            == if IsPlayed(c, decode) then Position.Advance(before, track, c.ts, position.rate) else before
  {
    hide EpochLog, Concat, Position.Advance;
    match c {
      case Frame(ts, packet) =>
        var pcm := decode(packet);
        if pcm.Some? {
          playout.Feed(ts, pcm.value, sink);
          position.Played(ts, track);
        }
      case Silence(ts) =>
        playout.Feed(ts, silence, sink);
        position.Played(ts, track);
      case Flush =>
        playout.Reset();
        sink.Emit(Flushed);
    }
  }

  /** The playback loop writes exactly the log its commands describe, and reports
      exactly the positions they play. */
  method RunPlayback(
      thresholdPackets: nat, commands: seq<Command>, stopAt: nat, tracks: seq<Option<Position.Track>>, rate: u32,
      decode: Packet -> Option<Pcm>, silence: Pcm)
    returns (log: seq<SinkEvent>, reports: seq<Position.Report>)
    requires |tracks| == |commands|
    ensures var heard := Heard(commands, stopAt);
            && log == LogOf(Max(1, thresholdPackets), Epochs(heard, decode, silence))
            && |heard| <= |tracks|
            && reports == Reported(Position.Reporter(None, []), heard, tracks, decode, rate).log
  {
    hide EpochLog, Position.Advance, LogOf, IsPlayed, Fed, Effect, ChunkOf, Epochs, Reported, Heard;
    var sink := new Sink();
    var playout := new Playout(thresholdPackets);
    var position := new Position.Position(rate);
    ghost var t := Max(1, thresholdPackets);
    ghost var heard := Heard(commands, stopAt);
    ghost var unreported := Position.Reporter(None, []);
    HeardPrefix(commands, stopAt);
    NoEpochYet(t, decode, silence);
    NoneReportedYet(unreported, tracks, decode, rate);
    var i := 0;
    while i < |commands| && i != stopAt && commands[i] != Stop
      invariant 0 <= i <= |heard| && playout.prebuffer.thresholdPackets == thresholdPackets && position.rate == rate
      invariant playout.Repr() && fresh(playout) && fresh(playout.prebuffer) && fresh(sink) && fresh(position)
      invariant var epochs := Epochs(heard[..i], decode, silence);
                && playout.prebuffer.fed == epochs[|epochs| - 1]
                && sink.log == LogOf(t, epochs)
      invariant Position.Reporter(position.reported, position.events)
             == Reported(unreported, heard[..i], tracks, decode, rate)
      decreases |commands| - i
    {
      CommandEffect(t, heard, i, decode, silence);
      ReportedNext(unreported, heard, i, tracks, decode, rate);
      Obey(commands[i], playout, sink, position, tracks[i], decode, silence);
      i := i + 1;
    }
    assert heard[..i] == heard;
    log, reports := sink.log, position.events;
  }

  lemma NoEpochYet(t: nat, decode: Packet -> Option<Pcm>, silence: Pcm)
    requires t > 0
    ensures Epochs([], decode, silence) == [[]] && LogOf(t, [[]]) == []
  {
  }

  lemma NoneReportedYet(
      r: Position.Reporter, tracks: seq<Option<Position.Track>>, decode: Packet -> Option<Pcm>, rate: u32)
    ensures Reported(r, [], tracks, decode, rate) == r
  {
  }

  lemma ReportedNext(
      r: Position.Reporter, commands: seq<Command>, i: nat, tracks: seq<Option<Position.Track>>,
      decode: Packet -> Option<Pcm>, rate: u32)
    requires i < |commands| <= |tracks|
    ensures var before := Reported(r, commands[..i], tracks, decode, rate);
            Reported(r, commands[..i + 1], tracks, decode, rate)
            == if IsPlayed(commands[i], decode) then Position.Advance(before, tracks[i], commands[i].ts, rate)
               else before
  {
    hide Position.Advance, IsPlayed;
    assert commands[..i + 1][..i] == commands[..i];
  }

  // ----- Conservation of audio, epoch by epoch -----

  function PcmWritten(log: seq<SinkEvent>): Pcm {
    if log == [] then []
    else
      var e := log[|log| - 1];
      PcmWritten(log[..|log| - 1]) + if e.Write? then e.pcm else []
  }

  /** The log between flushes, seen from the sink's side. */
  function Segments(log: seq<SinkEvent>): (r: seq<seq<SinkEvent>>)
    ensures |r| > 0
  {
    if log == [] then [[]]
    else
      var done := Segments(log[..|log| - 1]);
      var e := log[|log| - 1];
      if e == Flushed then done + [[]]
      else Grow(done, e)
  }

  lemma {:induction false} PcmWrittenConcat(a: seq<SinkEvent>, b: seq<SinkEvent>)
    ensures PcmWritten(a + b) == PcmWritten(a) + PcmWritten(b)
  {
    if b == [] {
      assert a + b == a;
    } else {
      assert (a + b)[..|a + b| - 1] == a + b[..|b| - 1];
      PcmWrittenConcat(a, b[..|b| - 1]);
    }
  }

  lemma {:induction false} WritesCarryAll(chunks: seq<Chunk>)
    ensures PcmWritten(Writes(chunks)) == Concat(chunks)
  {
    if chunks != [] {
      var init := chunks[..|chunks| - 1];
      WritesCarryAll(init);
      assert Writes(chunks)[..|chunks| - 1] == Writes(init);
    }
  }

  lemma {:induction false} ConcatConcat(a: seq<Chunk>, b: seq<Chunk>)
    ensures Concat(a + b) == Concat(a) + Concat(b)
  {
    if b == [] {
      assert a + b == a;
    } else {
      assert (a + b)[..|a + b| - 1] == a + b[..|b| - 1];
      ConcatConcat(a, b[..|b| - 1]);
    }
  }

  /** What an epoch's share of the log must be: all its audio is written or
      withheld, in order; nothing before the threshold is reached; and then
      first of all, and only once, the wait for the epoch's first timestamp. */
  ghost predicate Conserves(log: seq<SinkEvent>, t: nat, chunks: seq<Chunk>) {
    && PcmWritten(log) + Withheld(t, chunks) == Concat(chunks)
    && (|chunks| < t ==> log == [])
    && (|chunks| >= t ==> |log| > 1 && |chunks| > 0 && log[0] == Wait(chunks[0].ts))
    && (forall i :: 0 < i < |log| ==> log[i].Write?)
  }

  lemma FirstWritePcm(ts: u32, head: Pcm)
    ensures PcmWritten([Wait(ts), Write(head)]) == head
  {
    assert [Wait(ts), Write(head)][..1] == [Wait(ts)];
    assert PcmWritten([Wait(ts)]) == [];
  }

  lemma EpochPcm(t: nat, chunks: seq<Chunk>)
    requires 0 < t <= |chunks|
    ensures PcmWritten(EpochLog(t, chunks)) == Concat(chunks)
  {
    hide PcmWritten, Concat, Writes;
    var head := Concat(chunks[..t]);
    FirstWritePcm(chunks[0].ts, head);
    PcmWrittenConcat([Wait(chunks[0].ts), Write(head)], Writes(chunks[t..]));
    WritesCarryAll(chunks[t..]);
    ConcatConcat(chunks[..t], chunks[t..]);
    assert chunks[..t] + chunks[t..] == chunks;
  }

  lemma EpochConserves(t: nat, chunks: seq<Chunk>)
    requires t > 0
    ensures Conserves(EpochLog(t, chunks), t, chunks)
  {
    if |chunks| >= t {
      EpochPcm(t, chunks);
      hide PcmWritten, Concat;
      assert Concat(chunks) + [] == Concat(chunks);
    }
  }

  ghost predicate Flushless(log: seq<SinkEvent>) {
    forall i :: 0 <= i < |log| ==> log[i] != Flushed
  }

  lemma SegmentsNext(log: seq<SinkEvent>, e: SinkEvent)
    ensures Segments(log + [e]) == if e == Flushed then Segments(log) + [[]] else Grow(Segments(log), e)
  {
    assert (log + [e])[..|log|] == log;
  }

  lemma {:induction false} SegmentsAfterFlush(head: seq<SinkEvent>, more: seq<SinkEvent>)
    requires Flushless(more)
    ensures Segments(head + [Flushed] + more) == Segments(head) + [more]
  {
    hide Segments;
    var log := head + [Flushed] + more;
    if more == [] {
      assert log == head + [Flushed];
      SegmentsNext(head, Flushed);
    } else {
      var init, e := more[..|more| - 1], more[|more| - 1];
      SegmentsAfterFlush(head, init);
      assert log == (head + [Flushed] + init) + [e];
      SegmentsNext(head + [Flushed] + init, e);
      GrowIsLocal(Segments(head), [init], e);
      assert init + [e] == more;
      assert Grow([init], e) == [more];
    }
  }

  lemma {:induction false} OneSegment(log: seq<SinkEvent>)
    requires Flushless(log)
    ensures Segments(log) == [log]
  {
    if log != [] {
      OneSegment(log[..|log| - 1]);
      assert log[..|log| - 1] + [log[|log| - 1]] == log;
      assert Grow([log[..|log| - 1]], log[|log| - 1]) == [log];
    }
  }

  function EpochLogs(t: nat, epochs: seq<seq<Chunk>>): seq<seq<SinkEvent>>
    requires t > 0
  {
    seq(|epochs|, j requires 0 <= j < |epochs| => EpochLog(t, epochs[j]))
  }

  lemma EpochLogsLast(t: nat, epochs: seq<seq<Chunk>>)
    requires t > 0 && |epochs| > 0
    ensures var n := |epochs| - 1;
            && EpochLogs(t, epochs) == EpochLogs(t, epochs[..n]) + [EpochLog(t, epochs[n])]
            && |EpochLogs(t, epochs[..n])| == n
  {
    hide EpochLog;
  }

  lemma EpochIsFlushless(t: nat, chunks: seq<Chunk>)
    requires t > 0
    ensures Flushless(EpochLog(t, chunks))
  {
    hide Concat;
  }

  /** The sink sees the epochs apart: the j-th stretch between flushes is exactly
      the j-th epoch's log. */
  lemma {:induction false} SegmentsAreEpochs(t: nat, epochs: seq<seq<Chunk>>)
    requires t > 0 && |epochs| > 0
    ensures Segments(LogOf(t, epochs)) == EpochLogs(t, epochs)
  {
    var n := |epochs| - 1;
    var last := EpochLog(t, epochs[n]);
    EpochIsFlushless(t, epochs[n]);
    EpochLogsLast(t, epochs);
    hide EpochLog, EpochLogs, Segments, Flushless;
    if n == 0 {
      OneSegment(last);
      assert EpochLogs(t, epochs[..0]) + [last] == [last];
    } else {
      SegmentsAreEpochs(t, epochs[..n]);
      SegmentsAfterFlush(LogOf(t, epochs[..n]), last);
    }
  }

  /** For every command sequence, the log of the playback loop conserves each
      flush epoch's audio, and no epoch's audio is written in another epoch. */
  lemma PlaybackConserves(
      threshold: nat, commands: seq<Command>, stopAt: nat,
      decode: Packet -> Option<Pcm>, silence: Pcm, j: nat)
    requires j < |Epochs(Heard(commands, stopAt), decode, silence)|
    ensures var epochs := Epochs(Heard(commands, stopAt), decode, silence);
            var segments := Segments(LogOf(Max(1, threshold), epochs));
            |segments| == |epochs| && Conserves(segments[j], Max(1, threshold), epochs[j])
  {
    var epochs := Epochs(Heard(commands, stopAt), decode, silence);
    SegmentsAreEpochs(Max(1, threshold), epochs);
    EpochConserves(Max(1, threshold), epochs[j]);
  }

  // ----- What the sink gets, said of the commands -----

  /** The commands between flushes. */
  function SplitAtFlush(commands: seq<Command>): (r: seq<seq<Command>>)
    ensures |r| > 0
  {
    if commands == [] then [[]]
    else
      var done := SplitAtFlush(commands[..|commands| - 1]);
      var c := commands[|commands| - 1];
      if c.Flush? then done + [[]] else Grow(done, c)
  }

  function PlayedCount(commands: seq<Command>, decode: Packet -> Option<Pcm>): nat {
    if commands == [] then 0
    else
      var n := |commands| - 1;
      PlayedCount(commands[..n], decode) + if IsPlayed(commands[n], decode) then 1 else 0
  }

  function PcmOf(commands: seq<Command>, decode: Packet -> Option<Pcm>, silence: Pcm): Pcm {
    if commands == [] then []
    else
      var n := |commands| - 1;
      PcmOf(commands[..n], decode, silence)
      + if commands[n].Silence? then silence
        else if commands[n].Frame? && decode(commands[n].packet).Some? then decode(commands[n].packet).value
        else []
  }

  ghost predicate IsFirstPlayed(commands: seq<Command>, decode: Packet -> Option<Pcm>, i: int) {
    && 0 <= i < |commands| && IsPlayed(commands[i], decode)
    && forall h :: 0 <= h < i ==> !IsPlayed(commands[h], decode)
  }

  /** An epoch's chunks are its commands' audio, from the first played one on. */
  ghost predicate ChunksMatch(
      chunks: seq<Chunk>, commands: seq<Command>, decode: Packet -> Option<Pcm>, silence: Pcm)
  {
    && |chunks| == PlayedCount(commands, decode)
    && Concat(chunks) == PcmOf(commands, decode, silence)
    && (chunks != [] ==> exists i :: IsFirstPlayed(commands, decode, i))
    && forall i :: IsFirstPlayed(commands, decode, i) ==> StartsAt(chunks, commands, i)
  }

  predicate StartsAt(chunks: seq<Chunk>, commands: seq<Command>, i: int) {
    && 0 <= i < |commands| && (commands[i].Frame? || commands[i].Silence?)
    && chunks != [] && chunks[0].ts == commands[i].ts
  }

  lemma FirstPlayedNext(commands: seq<Command>, c: Command, decode: Packet -> Option<Pcm>, i: int)
    ensures IsFirstPlayed(commands + [c], decode, i)
        <==> (IsFirstPlayed(commands, decode, i)
              || (i == |commands| && IsPlayed(c, decode) && PlayedCount(commands, decode) == 0))
  {
    var all := commands + [c];
    NonePlayed(commands, decode);
    forall h | 0 <= h < |commands| ensures all[h] == commands[h] {
    }
    assert all[|commands|] == c;
    if IsFirstPlayed(all, decode, i) && i == |commands| {
      forall h | 0 <= h < |commands| ensures !IsPlayed(commands[h], decode) {
        assert !IsPlayed(all[h], decode);
      }
    }
  }

  lemma {:induction false} NonePlayed(commands: seq<Command>, decode: Packet -> Option<Pcm>)
    ensures PlayedCount(commands, decode) == 0
        <==> forall h :: 0 <= h < |commands| ==> !IsPlayed(commands[h], decode)
  {
    if commands != [] {
      NonePlayed(commands[..|commands| - 1], decode);
    }
  }

  function Fresh(c: Command, decode: Packet -> Option<Pcm>, silence: Pcm): seq<Chunk> {
    match ChunkOf(c, decode, silence)
    case Some(chunk) => [chunk]
    case None => []
  }

  lemma PcmNext(chunks: seq<Chunk>, commands: seq<Command>, c: Command, decode: Packet -> Option<Pcm>, silence: Pcm)
    requires |chunks| == PlayedCount(commands, decode) && Concat(chunks) == PcmOf(commands, decode, silence)
    ensures var more := Fresh(c, decode, silence);
            && |chunks + more| == PlayedCount(commands + [c], decode)
            && Concat(chunks + more) == PcmOf(commands + [c], decode, silence)
  {
    var more := Fresh(c, decode, silence);
    assert (commands + [c])[..|commands|] == commands;
    if more != [] {
      assert (chunks + more)[..|chunks|] == chunks;
    } else {
      assert chunks + more == chunks;
    }
  }

  lemma FreshTs(c: Command, decode: Packet -> Option<Pcm>, silence: Pcm)
    ensures Fresh(c, decode, silence) != [] <==> IsPlayed(c, decode)
    ensures IsPlayed(c, decode) ==> (c.Frame? || c.Silence?) && Fresh(c, decode, silence)[0].ts == c.ts
  {
  }

  lemma ChunksMatchNext(
      chunks: seq<Chunk>, commands: seq<Command>, c: Command, decode: Packet -> Option<Pcm>, silence: Pcm)
    requires ChunksMatch(chunks, commands, decode, silence)
    ensures ChunksMatch(chunks + Fresh(c, decode, silence), commands + [c], decode, silence)
  {
    var more, all := Fresh(c, decode, silence), commands + [c];
    PcmNext(chunks, commands, c, decode, silence);
    FreshTs(c, decode, silence);
    hide Concat, PcmOf, Fresh, PlayedCount, IsPlayed;
    forall i ensures IsFirstPlayed(all, decode, i)
                 <==> (IsFirstPlayed(commands, decode, i)
                       || (i == |commands| && IsPlayed(c, decode) && PlayedCount(commands, decode) == 0))
    {
      FirstPlayedNext(commands, c, decode, i);
    }
    hide IsFirstPlayed;
    forall i | IsFirstPlayed(all, decode, i) ensures StartsAt(chunks + more, all, i) {
      if IsFirstPlayed(commands, decode, i) {
        assert StartsAt(chunks, commands, i);
        assert all[i] == commands[i];
      }
    }
    if chunks != [] {
      var i :| IsFirstPlayed(commands, decode, i);
      assert IsFirstPlayed(all, decode, i);
    } else if more != [] {
      assert IsFirstPlayed(all, decode, |commands|);
    }
  }

  lemma NoChunksMatch(decode: Packet -> Option<Pcm>, silence: Pcm)
    ensures ChunksMatch([], [], decode, silence)
  {
  }

  ghost predicate EpochsMatch(
      epochs: seq<seq<Chunk>>, split: seq<seq<Command>>, decode: Packet -> Option<Pcm>, silence: Pcm)
  {
    |epochs| == |split| && forall j :: 0 <= j < |split| ==> ChunksMatch(epochs[j], split[j], decode, silence)
  }

  lemma {:induction false} EpochsMatchCommands(commands: seq<Command>, decode: Packet -> Option<Pcm>, silence: Pcm)
    ensures EpochsMatch(Epochs(commands, decode, silence), SplitAtFlush(commands), decode, silence)
  {
    hide ChunksMatch, ChunkOf;
    if commands == [] {
      NoChunksMatch(decode, silence);
    } else {
      var init, c := commands[..|commands| - 1], commands[|commands| - 1];
      EpochsMatchCommands(init, decode, silence);
      var was, split := Epochs(init, decode, silence), SplitAtFlush(init);
      var n := |was| - 1;
      if c.Flush? {
        NoChunksMatch(decode, silence);
      } else {
        ChunksMatchNext(was[n], split[n], c, decode, silence);
        if ChunkOf(c, decode, silence).None? {
          assert was[n] + [] == was[n] && was[..n] + [was[n]] == was;
        }
      }
    }
  }

  /** For every command sequence, in terms of the commands alone: between two
      flushes the sink gets nothing while fewer than the threshold are played; from
      then on one wait, for the timestamp of the first played command, then all
      their audio in order, the withheld part in one write and the rest write by
      write. */
  lemma SinkHearsTheCommands(
      threshold: nat, commands: seq<Command>, stopAt: nat,
      decode: Packet -> Option<Pcm>, silence: Pcm, j: nat)
    requires j < |SplitAtFlush(Heard(commands, stopAt))|
    ensures var t, heard := Max(1, threshold), Heard(commands, stopAt);
            var segments := Segments(LogOf(t, Epochs(heard, decode, silence)));
            var stretch := SplitAtFlush(heard)[j];
            var count := PlayedCount(stretch, decode);
            && |segments| == |SplitAtFlush(heard)|
            && if count < t then segments[j] == []
               else && |segments[j]| == 2 + (count - t)
                    && PcmWritten(segments[j]) == PcmOf(stretch, decode, silence)
                    && (exists i :: IsFirstPlayed(stretch, decode, i))
                    && (forall i :: IsFirstPlayed(stretch, decode, i) ==> segments[j][0] == Wait(stretch[i].ts))
                    && forall w :: 1 <= w < |segments[j]| ==> segments[j][w].Write?
  {
    hide Heard, Segments, LogOf, Epochs, SplitAtFlush, PlayedCount, PcmOf, IsFirstPlayed, PcmWritten, Concat;
    var t, heard := Max(1, threshold), Heard(commands, stopAt);
    var epochs := Epochs(heard, decode, silence);
    EpochsMatchCommands(heard, decode, silence);
    SegmentsAreEpochs(t, epochs);
    EpochConserves(t, epochs[j]);
    assert ChunksMatch(epochs[j], SplitAtFlush(heard)[j], decode, silence);
    if |epochs[j]| >= t {
      EpochPcm(t, epochs[j]);
    }
  }

  /** A flush starts over: what follows it is an epoch list of its own. */
  lemma {:induction false} EpochsSplitAtFlush(
      before: seq<Command>, after: seq<Command>, decode: Packet -> Option<Pcm>, silence: Pcm)
    ensures Epochs(before + [Flush] + after, decode, silence)
         == Epochs(before, decode, silence) + Epochs(after, decode, silence)
  {
    hide ChunkOf, Grow;
    var all := before + [Flush] + after;
    if after == [] {
      assert all[..|before|] == before && all == before + [Flush];
    } else {
      var init := after[..|after| - 1];
      EpochsSplitAtFlush(before, init, decode, silence);
      assert all[..|all| - 1] == before + [Flush] + init;
      var c := ChunkOf(after[|after| - 1], decode, silence);
      if c.Some? {
        GrowIsLocal(Epochs(before, decode, silence), Epochs(init, decode, silence), c.value);
      }
    }
  }

  // ----- Prebuffer size and start instant -----

  /** The prebuffer threshold: about 200 ms of audio, at least one packet. */
  function PrebufferPackets(framesPerPacket: u32, sampleRate: u32): (packets: nat)
    ensures packets >= 1
    ensures packets > 1 ==> packets * Max(1, framesPerPacket) * 5 <= sampleRate
    ensures (packets + 1) * Max(1, framesPerPacket) > sampleRate / 5
  {
    var frames := Max(1, framesPerPacket);
    var target := sampleRate / 5;
    var packets := Max(target / frames, 1);
    DivBounds(target, frames, packets);
    packets
  }

  lemma DivBounds(a: nat, b: nat, n: nat)
    requires b > 0 && n >= a / b
    ensures a / b * b <= a < (n + 1) * b
  {
    var q := a / b;
    assert a == q * b + a % b;
    assert (n + 1) * b == (q + 1) * b + (n - q) * b && (n - q) * b >= 0;
  }

  const MAX_WAIT: nat := 2_000_000_000

  /** How long the first write of an epoch is held: until the play time, if the
      model knows one and it lies ahead, but never longer than two seconds. */
  function StartDelay(target: Option<u64>, now: u64): (delay: nat)
    ensures target.Some? && now <= target.value <= now + 2_000_000_000 ==> now + delay == target.value
    ensures target.Some? && target.value > now + 2_000_000_000 ==> delay == 2_000_000_000
    ensures delay > 0 <==> target.Some? && target.value > now
  {
    match target
    case None => 0
    case Some(t) => if t > now then Min(t - now, MAX_WAIT) else 0
  }
}
