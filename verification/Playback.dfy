/** What the player makes of the audio task's own commands, for every list of
    inputs: the audio it conserves and the positions it reports. */
module Playback {
  import opened Numbers
  import Jitter = JitterModel
  import Runs = JitterRuns
  import opened AudioTask
  import Player
  import Position

  type Decoder = Player.Packet -> Option<Player.Pcm>

  // ----- Conservation from the inputs to the sink -----

  /** The inputs between two flushes, and the buffer they find. */
  datatype Segment = Segment(start: Jitter.Buffer, inputs: seq<Input>)

  function SegmentsOf(start: Jitter.Buffer, inputs: seq<Input>): (segments: seq<Segment>)
    requires Jitter.Valid(start)
    ensures |segments| > 0
    ensures forall j :: 0 <= j < |segments| ==> Jitter.Valid(segments[j].start) && FlushFree(segments[j].inputs)
  {
    if inputs == [] then [Segment(start, [])]
    else
      var done := SegmentsOf(start, inputs[..|inputs| - 1]);
      var open, last := done[|done| - 1], inputs[|inputs| - 1];
      if last.Flush? then done + [Segment(Jitter.Reset(last.start), [])]
      else done[..|done| - 1] + [Segment(open.start, open.inputs + [last])]
  }

  /** The audio some deliveries stand for: what decodes, and silence for what is
      lost; a packet that does not decode leaves nothing. */
  function AudioOf(out: seq<Jitter.Delivery>, decode: Decoder, silence: Player.Pcm): Player.Pcm {
    if out == [] then []
    else
      var last := out[|out| - 1];
      AudioOf(out[..|out| - 1], decode, silence)
      + match last
        case Packet(_, frame) => if decode(frame).Some? then decode(frame).value else []
        case Lost(_) => silence
  }

  /** Commands for deliveries, however they are stamped. */
  ghost predicate Carry(commands: seq<Player.Command>, out: seq<Jitter.Delivery>) {
    && |commands| == |out|
    && forall i :: 0 <= i < |out| ==>
         match out[i]
         case Packet(_, frame) => commands[i].Frame? && commands[i].packet == frame
         case Lost(_) => commands[i].Silence?
  }

  lemma {:induction false} CarriedAudio(
      commands: seq<Player.Command>, out: seq<Jitter.Delivery>, decode: Decoder, silence: Player.Pcm)
    requires Carry(commands, out)
    ensures var epochs := Player.Epochs(commands, decode, silence);
            |epochs| == 1 && Player.Concat(epochs[0]) == AudioOf(out, decode, silence)
  {
    if out != [] {
      var n := |out| - 1;
      CarriedAudio(commands[..n], out[..n], decode, silence);
      var was := Player.Epochs(commands[..n], decode, silence);
      var chunk := Player.ChunkOf(commands[n], decode, silence);
      if chunk.Some? {
        assert (was[0] + [chunk.value])[..|was[0]|] == was[0];
      } else {
        assert AudioOf(out[..n], decode, silence) + [] == AudioOf(out[..n], decode, silence);
      }
    }
  }

  lemma SegmentCarries(framesPerPacket: u32, decrypt: Frame -> Frame, segment: Segment)
    requires Jitter.Valid(segment.start) && FlushFree(segment.inputs)
    ensures Carry(TaskOf(segment.start, framesPerPacket, decrypt, segment.inputs).commands,
                  Runs.RunOf(segment.start, Jitter.MAX_LEAD, OpsOf(decrypt, segment.inputs)).out)
  {
    hide TaskOf, Runs.RunOf, OpsOf, FirstAudio, DeriveTs;
    var k := FirstAudio(segment.inputs);
    var out := Runs.RunOf(segment.start, Jitter.MAX_LEAD, OpsOf(decrypt, segment.inputs)).out;
    CommandAt(segment.start, framesPerPacket, decrypt, segment.inputs, k, 0);
    forall i | 0 <= i < |out|
      ensures var c := TaskOf(segment.start, framesPerPacket, decrypt, segment.inputs).commands[i];
              match out[i]
              case Packet(_, frame) => c.Frame? && c.packet == frame
              case Lost(_) => c.Silence?
    {
      CommandAt(segment.start, framesPerPacket, decrypt, segment.inputs, k, i);
    }
  }

  function EpochOf(
      framesPerPacket: u32, decrypt: Frame -> Frame, segment: Segment, decode: Decoder, silence: Player.Pcm)
    : seq<seq<Player.Chunk>>
    requires Jitter.Valid(segment.start)
  {
    Player.Epochs(TaskOf(segment.start, framesPerPacket, decrypt, segment.inputs).commands, decode, silence)
  }

  lemma SegmentIsOneEpoch(
      framesPerPacket: u32, decrypt: Frame -> Frame, segment: Segment, decode: Decoder, silence: Player.Pcm)
    requires Jitter.Valid(segment.start) && FlushFree(segment.inputs)
    ensures var out := Runs.RunOf(segment.start, Jitter.MAX_LEAD, OpsOf(decrypt, segment.inputs)).out;
            var epochs := EpochOf(framesPerPacket, decrypt, segment, decode, silence);
            |epochs| == 1 && Player.Concat(epochs[0]) == AudioOf(out, decode, silence)
  {
    hide TaskOf, Runs.RunOf, OpsOf;
    SegmentCarries(framesPerPacket, decrypt, segment);
    CarriedAudio(TaskOf(segment.start, framesPerPacket, decrypt, segment.inputs).commands,
                 Runs.RunOf(segment.start, Jitter.MAX_LEAD, OpsOf(decrypt, segment.inputs)).out, decode, silence);
  }

  /** After a flush the player's epochs go on with the next segment's. */
  lemma EpochsSplit(
      start: Jitter.Buffer, framesPerPacket: u32, decrypt: Frame -> Frame, before: seq<Input>, to: Option<u16>,
      after: seq<Input>, decode: Decoder, silence: Player.Pcm)
    requires Jitter.Valid(start)
    ensures EpochOf(framesPerPacket, decrypt, Segment(start, before + [Flush(to)] + after), decode, silence)
         == EpochOf(framesPerPacket, decrypt, Segment(start, before), decode, silence)
          + EpochOf(framesPerPacket, decrypt, Segment(Jitter.Reset(to), after), decode, silence)
  {
    hide TaskOf, Player.Epochs;
    FlushStartsOver(start, framesPerPacket, decrypt, before, to, after);
    Player.EpochsSplitAtFlush(TaskOf(start, framesPerPacket, decrypt, before).commands,
                              TaskOf(Jitter.Reset(to), framesPerPacket, decrypt, after).commands, decode, silence);
  }

  lemma {:induction false} OneSegment(start: Jitter.Buffer, inputs: seq<Input>)
    requires Jitter.Valid(start) && FlushFree(inputs)
    ensures SegmentsOf(start, inputs) == [Segment(start, inputs)]
  {
    if inputs != [] {
      var init := inputs[..|inputs| - 1];
      OneSegment(start, init);
      assert init + [inputs[|inputs| - 1]] == inputs;
    }
  }

  lemma {:induction false} SegmentsSplit(start: Jitter.Buffer, before: seq<Input>, to: Option<u16>, after: seq<Input>)
    requires Jitter.Valid(start) && FlushFree(after)
    ensures SegmentsOf(start, before + [Flush(to)] + after)
         == SegmentsOf(start, before) + [Segment(Jitter.Reset(to), after)]
  {
    var all := before + [Flush(to)] + after;
    if after == [] {
      assert all[..|before|] == before && all == before + [Flush(to)];
    } else {
      var init, last := after[..|after| - 1], after[|after| - 1];
      SegmentsSplit(start, before, to, init);
      assert all[..|all| - 1] == before + [Flush(to)] + init;
      assert init + [last] == after;
    }
  }

  ghost function LastFlush(inputs: seq<Input>): (i: nat)
    requires !FlushFree(inputs)
    ensures i < |inputs| && inputs[i].Flush? && FlushFree(inputs[i + 1..])
  {
    var n := |inputs| - 1;
    if inputs[n].Flush? then n
    else
      assert !FlushFree(inputs[..n]) by {
        var i :| 0 <= i < |inputs| && inputs[i].Flush?;
        assert inputs[..n][i].Flush?;
      }
      var i := LastFlush(inputs[..n]);
      assert forall j :: i < j < n ==> inputs[j] == inputs[..n][i + 1..][j - i - 1];
      i
  }

  /** The player's epochs are the audio task's segments, one for one. */
  lemma {:induction false} EpochsAreSegments(
      start: Jitter.Buffer, framesPerPacket: u32, decrypt: Frame -> Frame, inputs: seq<Input>,
      decode: Decoder, silence: Player.Pcm, j: nat)
    requires Jitter.Valid(start) && j < |SegmentsOf(start, inputs)|
    ensures var epochs := EpochOf(framesPerPacket, decrypt, Segment(start, inputs), decode, silence);
            var segment := SegmentsOf(start, inputs)[j];
            && |epochs| == |SegmentsOf(start, inputs)|
            && EpochOf(framesPerPacket, decrypt, segment, decode, silence) == [epochs[j]]
    decreases |inputs|
  {
    hide EpochOf, Runs.RunOf, SegmentsOf;
    if FlushFree(inputs) {
      OneSegment(start, inputs);
      SegmentIsOneEpoch(framesPerPacket, decrypt, Segment(start, inputs), decode, silence);
    } else {
      var i := LastFlush(inputs);
      var before, to, after := inputs[..i], inputs[i].start, inputs[i + 1..];
      assert inputs == before + [Flush(to)] + after;
      SegmentsSplit(start, before, to, after);
      SegmentIsOneEpoch(framesPerPacket, decrypt, Segment(Jitter.Reset(to), after), decode, silence);
      EpochsSplit(start, framesPerPacket, decrypt, before, to, after, decode, silence);
      EpochsAreSegments(start, framesPerPacket, decrypt, before, decode, silence,
                        if j < |SegmentsOf(start, before)| then j else 0);
    }
  }

  /** For every list of inputs, flushes, losses and undecodable packets included: in
      each stretch between flushes the sink gets, or the prebuffer withholds, exactly
      the audio of what the jitter buffer delivered there, in order, and nothing of
      any other stretch. */
  lemma AudioIsConserved(
      framesPerPacket: u32, decrypt: Frame -> Frame, inputs: seq<Input>,
      threshold: nat, decode: Decoder, silence: Player.Pcm, j: nat)
    requires j < |SegmentsOf(Jitter.Idle, inputs)|
    ensures var t := Max(1, threshold);
            var commands := TaskOf(Jitter.Idle, framesPerPacket, decrypt, inputs).commands;
            var epochs := Player.Epochs(commands, decode, silence);
            var heard := Player.Segments(Player.LogOf(t, epochs));
            var segment := SegmentsOf(Jitter.Idle, inputs)[j];
            var out := Runs.RunOf(segment.start, Jitter.MAX_LEAD, OpsOf(decrypt, segment.inputs)).out;
            && |heard| == |epochs| == |SegmentsOf(Jitter.Idle, inputs)|
            && Player.Conserves(heard[j], t, epochs[j])
            && Player.PcmWritten(heard[j]) + Player.Withheld(t, epochs[j]) == AudioOf(out, decode, silence)
  {
    hide TaskOf, Runs.RunOf, OpsOf, Player.Epochs, Player.LogOf, Player.Segments;
    var t := Max(1, threshold);
    var epochs := EpochOf(framesPerPacket, decrypt, Segment(Jitter.Idle, inputs), decode, silence);
    EpochsAreSegments(Jitter.Idle, framesPerPacket, decrypt, inputs, decode, silence, j);
    SegmentIsOneEpoch(framesPerPacket, decrypt, SegmentsOf(Jitter.Idle, inputs)[j], decode, silence);
    Player.SegmentsAreEpochs(t, epochs);
    Player.EpochConserves(t, epochs[j]);
  }

  // ----- Position reports of the stream -----

  /** How far into a track that began at timestamp `origin` the i-th command is. */
  function OffsetAt(base: int, framesPerPacket: u32, n: int, origin: int, i: int): nat {
    Max(0, base + (n + i) * framesPerPacket - origin)
  }

  /** The offsets of the commands played from `lo` up to `hi`. */
  function OffsetsOf(commands: seq<Player.Command>, lo: nat, hi: nat, decode: Decoder, offset: int -> nat): seq<nat>
    requires lo <= hi <= |commands|
  {
    if lo == hi then []
    else
      OffsetsOf(commands, lo, hi - 1, decode, offset)
      + if Player.IsPlayed(commands[hi - 1], decode) then [offset(hi - 1)] else []
  }

  /** The commands from `lo` up to `hi` play this track, each at its offset. */
  ghost predicate Plays(
      commands: seq<Player.Command>, tracks: seq<Option<Position.Track>>, lo: nat, hi: nat,
      track: Position.Track, offset: int -> nat)
  {
    && lo <= hi <= |commands| <= |tracks|
    && (forall i :: lo <= i < hi ==>
          && (commands[i].Frame? || commands[i].Silence?)
          && tracks[i] == Some(track)
          && commands[i].ts == Wrap32(track.start + offset(i))
          && offset(i) <= Wrap32(track.end - track.start))
    && (forall i, j :: lo <= i <= j < hi ==> offset(i) <= offset(j))
  }

  lemma PlaysLess(
      commands: seq<Player.Command>, tracks: seq<Option<Position.Track>>, lo: nat, hi: nat,
      track: Position.Track, offset: int -> nat)
    requires Plays(commands, tracks, lo, hi, track, offset) && lo < hi
    ensures Plays(commands, tracks, lo, hi - 1, track, offset)
    ensures commands[hi - 1].Frame? || commands[hi - 1].Silence?
    ensures tracks[hi - 1] == Some(track) && commands[hi - 1].ts == Wrap32(track.start + offset(hi - 1))
  {
  }

  lemma {:induction false} ReportsAreOfWalk(
      r: Position.Reporter, commands: seq<Player.Command>, tracks: seq<Option<Position.Track>>, lo: nat, hi: nat,
      track: Position.Track, offset: int -> nat, decode: Decoder, rate: u32)
    requires Plays(commands, tracks, lo, hi, track, offset)
    ensures Player.Reported(r, commands[..hi], tracks, decode, rate)
         == Position.ReportsAt(Player.Reported(r, commands[..lo], tracks, decode, rate), track,
                               OffsetsOf(commands, lo, hi, decode, offset), rate)
    decreases hi - lo
  {
    hide Player.Reported, Position.ReportsAt, Position.Advance, Player.IsPlayed, Wrap32;
    if lo < hi {
      PlaysLess(commands, tracks, lo, hi, track, offset);
      ReportsAreOfWalk(r, commands, tracks, lo, hi - 1, track, offset, decode, rate);
      Player.ReportedNext(r, commands, hi - 1, tracks, decode, rate);
      var offsets := OffsetsOf(commands, lo, hi - 1, decode, offset);
      if Player.IsPlayed(commands[hi - 1], decode) {
        Position.ReportsAtNext(Player.Reported(r, commands[..lo], tracks, decode, rate), track, offsets,
                               offset(hi - 1), rate);
      } else {
        assert offsets + [] == offsets;
      }
    } else {
      NoneReported(Player.Reported(r, commands[..lo], tracks, decode, rate), track, rate);
    }
  }

  lemma NoneReported(r: Position.Reporter, track: Position.Track, rate: u32)
    ensures Position.ReportsAt(r, track, [], rate) == r
  {
  }

  lemma {:induction false} OffsetsWalk(
      commands: seq<Player.Command>, tracks: seq<Option<Position.Track>>, lo: nat, hi: nat,
      track: Position.Track, offset: int -> nat, decode: Decoder)
    requires Plays(commands, tracks, lo, hi, track, offset)
    ensures Position.Walk(track, OffsetsOf(commands, lo, hi, decode, offset))
    ensures forall x :: x in OffsetsOf(commands, lo, hi, decode, offset) ==> lo < hi && x <= offset(hi - 1)
    decreases hi - lo
  {
    if lo < hi {
      PlaysLess(commands, tracks, lo, hi, track, offset);
      OffsetsWalk(commands, tracks, lo, hi - 1, track, offset, decode);
      var offsets := OffsetsOf(commands, lo, hi - 1, decode, offset);
      assert forall i :: 0 <= i < |offsets| ==> offsets[i] in offsets;
      assert lo < hi - 1 ==> offset(hi - 2) <= offset(hi - 1);
    }
  }

  /** The i-th command lies in a track that began at `origin`. */
  predicate InTrack(base: int, framesPerPacket: u32, n: int, origin: int, track: Position.Track, i: int) {
    && track.start == Wrap32(origin)
    && 0 <= base + (n + i) * framesPerPacket - origin <= Wrap32(track.end - track.start)
  }

  lemma StampAtOffset(base: int, framesPerPacket: u32, n: int, origin: int, i: int, track: Position.Track)
    requires InTrack(base, framesPerPacket, n, origin, track, i)
    ensures var offset := OffsetAt(base, framesPerPacket, n, origin, i);
            && SenderTs(base, framesPerPacket, n + i) == Wrap32(track.start + offset)
            && offset <= Wrap32(track.end - track.start)
  {
    PlaceInTrack(base + (n + i) * framesPerPacket, origin, track);
    hide Wrap32;
  }

  lemma PlaceInTrack(x: int, origin: int, track: Position.Track)
    requires track.start == Wrap32(origin) && 0 <= x - origin <= Wrap32(track.end - track.start)
    ensures Wrap32(x) == Wrap32(track.start + (x - origin))
  {
    Wrap32Add(origin, x - origin);
    assert Wrap32(x - origin) == x - origin;
  }

  lemma OffsetsGrow(base: int, framesPerPacket: u32, n: int, origin: int, i: int, j: int)
    requires i <= j
    ensures OffsetAt(base, framesPerPacket, n, origin, i) <= OffsetAt(base, framesPerPacket, n, origin, j)
  {
    MulMono(n + i, n + j, framesPerPacket);
  }

  /** Wherever the audio task stamps its commands with the sender's timestamps, and
      those lie in a track the session has stated, the player reports each second of
      the track its audio reaches exactly once, in order, up to the one second the
      reporter may already have reported. */
  lemma ReportsFollowTheAudio(
      start: Jitter.Buffer, n: int, a: int, base: int, framesPerPacket: u32, decrypt: Frame -> Frame,
      inputs: seq<Input>, k: nat, lo: nat, hi: nat, tracks: seq<Option<Position.Track>>,
      track: Position.Track, origin: int, decode: Decoder, rate: u32, r: Position.Reporter)
    requires StartsAt(start, inputs, n) && AnchoredAt(inputs, k, base, framesPerPacket, a) && rate > 0
    requires |TaskOf(start, framesPerPacket, decrypt, inputs[..k]).commands| <= lo <= hi
    requires hi <= |TaskOf(start, framesPerPacket, decrypt, inputs).commands| <= |tracks|
    requires forall i :: lo <= i < hi ==>
               && StampIsExact(framesPerPacket, a, n + i) && tracks[i] == Some(track)
               && InTrack(base, framesPerPacket, n, origin, track, i)
    ensures var commands := TaskOf(start, framesPerPacket, decrypt, inputs).commands;
            var offsets := OffsetsOf(commands, lo, hi, decode, i => OffsetAt(base, framesPerPacket, n, origin, i));
            var r0 := Player.Reported(r, commands[..lo], tracks, decode, rate);
            var r1 := Player.Reported(r, commands[..hi], tracks, decode, rate);
            && r0.log <= r1.log
            && Position.ReportsWell(r0.reported, r1.reported, r1.log[|r0.log|..], track, offsets, rate)
  {
    hide TaskOf, StampIsExact, SenderTs, Player.Reported, Position.ReportsAt, Position.ReportsWell, Position.Walk;
    hide InTrack, AnchoredAt, Wrap32, OffsetAt;
    var commands := TaskOf(start, framesPerPacket, decrypt, inputs).commands;
    var offset := i => OffsetAt(base, framesPerPacket, n, origin, i);
    forall i | lo <= i < hi
      ensures && (commands[i].Frame? || commands[i].Silence?) && tracks[i] == Some(track)
              && commands[i].ts == Wrap32(track.start + offset(i)) && offset(i) <= Wrap32(track.end - track.start)
    {
      TimelineExact(start, n, a, base, framesPerPacket, decrypt, inputs, k, i);
      StampAtOffset(base, framesPerPacket, n, origin, i, track);
    }
    forall i, j | lo <= i <= j < hi ensures offset(i) <= offset(j) {
      OffsetsGrow(base, framesPerPacket, n, origin, i, j);
    }
    assert Plays(commands, tracks, lo, hi, track, offset);
    ReportsAreOfWalk(r, commands, tracks, lo, hi, track, offset, decode, rate);
    OffsetsWalk(commands, tracks, lo, hi, track, offset, decode);
    Position.EachSecondOnce(Player.Reported(r, commands[..lo], tracks, decode, rate), track,
                            OffsetsOf(commands, lo, hi, decode, offset), rate);
  }
}
