/** From the network to the sink: the audio task and the playback thread
    together. */
module Pipeline {
  import opened Numbers
  import Jitter = JitterModel
  import Runs = JitterRuns
  import opened AudioTask
  import Player

  /** The sender's packet for a position, on the audio channel or as the answer
      to a resend request on the control channel. */
  datatype Heard = Heard(pos: int, resent: bool)

  function InputOf(h: Heard, base: int, framesPerPacket: u32, payload: int -> Frame): Input {
    if h.resent then Resent(Wrap16(h.pos), payload(h.pos))
    else Audio(Wrap16(h.pos), SenderTs(base, framesPerPacket, h.pos), payload(h.pos))
  }

  function InputsOf(heard: seq<Heard>, base: int, framesPerPacket: u32, payload: int -> Frame): (r: seq<Input>)
    ensures |r| == |heard| && FlushFree(r)
  {
    seq(|heard|, i requires 0 <= i < |heard| => InputOf(heard[i], base, framesPerPacket, payload))
  }

  function ArrivalsOf(heard: seq<Heard>, decrypt: Frame -> Frame, payload: int -> Frame): (r: seq<Runs.Arrival>)
    ensures |r| == |heard|
    ensures Runs.Carries(r, p => decrypt(payload(p)))
  {
    seq(|heard|, i requires 0 <= i < |heard| => Runs.Arrival(heard[i].pos, decrypt(payload(heard[i].pos))))
  }

  lemma {:induction false} SameOps(
      heard: seq<Heard>, base: int, framesPerPacket: u32, decrypt: Frame -> Frame, payload: int -> Frame)
    ensures OpsOf(decrypt, InputsOf(heard, base, framesPerPacket, payload))
         == Runs.ArrivalOps(ArrivalsOf(heard, decrypt, payload))
  {
    if heard != [] {
      var init := heard[..|heard| - 1];
      SameOps(init, base, framesPerPacket, decrypt, payload);
      var inputs := InputsOf(heard, base, framesPerPacket, payload);
      assert inputs[..|inputs| - 1] == InputsOf(init, base, framesPerPacket, payload);
      var arrivals := ArrivalsOf(heard, decrypt, payload);
      assert arrivals[..|arrivals| - 1] == ArrivalsOf(init, decrypt, payload);
    }
  }

  /** What the audio task gets: the packets heard, and service ticks anywhere
      among them. */
  ghost predicate Brings(
      inputs: seq<Input>, heard: seq<Heard>, base: int, framesPerPacket: u32, payload: int -> Frame)
  {
    WithoutTicks(inputs) == InputsOf(heard, base, framesPerPacket, payload)
  }

  /** A reordered, duplicating network whose packets stay timely. */
  ghost predicate TimelyStream(n: int, heard: seq<Heard>, decrypt: Frame -> Frame, payload: int -> Frame) {
    Runs.Timely(n, Jitter.MAX_LEAD, ArrivalsOf(heard, decrypt, payload))
  }

  /** Delivery starts at `n`: the buffer is armed there, or knows no start and
      hears the packet for `n` first. */
  predicate HeardFrom(start: Jitter.Buffer, n: int, heard: seq<Heard>) {
    match start
    case Idle => heard == [] || heard[0].pos == n
    case Armed(next) => Wrap16(next) == Wrap16(n)
    case Live(_, _, _) => false
  }

  /** The first position from `n` on that has not arrived. */
  ghost function ReachedBy(n: int, heard: seq<Heard>, decrypt: Frame -> Frame, payload: int -> Frame): (m: int)
    ensures m >= n
  {
    Runs.FirstGap(n, Runs.Positions(ArrivalsOf(heard, decrypt, payload)))
  }

  ghost predicate HeardAmong(n: int, heard: seq<Heard>) {
    exists j :: 0 <= j < |heard| && heard[j].pos == n
  }

  lemma ReachedIffHeard(n: int, heard: seq<Heard>, decrypt: Frame -> Frame, payload: int -> Frame)
    ensures ReachedBy(n, heard, decrypt, payload) > n <==> HeardAmong(n, heard)
  {
    var arrivals := ArrivalsOf(heard, decrypt, payload);
    if HeardAmong(n, heard) {
      var j :| 0 <= j < |heard| && heard[j].pos == n;
      assert arrivals[j].pos == n;
    }
    if n in Runs.Positions(arrivals) {
      var j :| 0 <= j < |arrivals| && arrivals[j].pos == n;
      assert heard[j].pos == n;
    }
  }

  lemma {:induction false} FirstHeard(heard: seq<Heard>, base: int, framesPerPacket: u32, payload: int -> Frame)
    requires heard != []
    ensures FirstNumber(InputsOf(heard, base, framesPerPacket, payload)) == Some(Wrap16(heard[0].pos))
  {
    var inputs := InputsOf(heard, base, framesPerPacket, payload);
    if |heard| == 1 {
      assert inputs[..0] == [];
    } else {
      FirstHeard(heard[..|heard| - 1], base, framesPerPacket, payload);
      assert inputs[..|inputs| - 1] == InputsOf(heard[..|heard| - 1], base, framesPerPacket, payload);
    }
  }

  /** Ticks aside and wherever delivery started, the commands are those of a task
      armed at `n` that hears just the packets. */
  lemma CommandsOfPackets(
      start: Jitter.Buffer, n: int, inputs: seq<Input>, heard: seq<Heard>,
      base: int, framesPerPacket: u32, decrypt: Frame -> Frame, payload: int -> Frame)
    requires HeardFrom(start, n, heard) && Brings(inputs, heard, base, framesPerPacket, payload)
    ensures TaskOf(start, framesPerPacket, decrypt, inputs).commands
         == TaskOf(Jitter.Armed(n), framesPerPacket, decrypt, InputsOf(heard, base, framesPerPacket, payload)).commands
  {
    hide TaskOf, InputsOf, FirstNumber, Wrap16;
    TicksAreSilent(start, framesPerPacket, decrypt, inputs);
    var packets := InputsOf(heard, base, framesPerPacket, payload);
    if heard != [] {
      FirstHeard(heard, base, framesPerPacket, payload);
    } else {
      assert FirstNumber(packets) == None by { NothingHeard(packets); }
    }
    StartedAt(start, n, framesPerPacket, decrypt, packets);
  }

  lemma NothingHeard(inputs: seq<Input>)
    requires inputs == []
    ensures FirstNumber(inputs) == None
  {
  }

  lemma TimelyDeliveries(
      n: int, heard: seq<Heard>, base: int, framesPerPacket: u32, decrypt: Frame -> Frame, payload: int -> Frame)
    requires TimelyStream(n, heard, decrypt, payload)
    ensures var ops := OpsOf(decrypt, InputsOf(heard, base, framesPerPacket, payload));
            Runs.RunOf(Jitter.Armed(n), Jitter.MAX_LEAD, ops).out
            == Runs.InOrder(n, ReachedBy(n, heard, decrypt, payload), p => decrypt(payload(p)))
  {
    SameOps(heard, base, framesPerPacket, decrypt, payload);
    hide Runs.RunOf, InputsOf, ArrivalsOf, Runs.InOrder, Runs.FirstGap;
    Runs.ReorderingIsInvisible(n, Jitter.MAX_LEAD, ArrivalsOf(heard, decrypt, payload), p => decrypt(payload(p)));
  }

  /** The commands of a timely stream: one frame per position, in order, none
      concealed, whichever channel brought it. */
  lemma TimelyCommands(
      start: Jitter.Buffer, n: int, inputs: seq<Input>, heard: seq<Heard>,
      base: int, framesPerPacket: u32, decrypt: Frame -> Frame, payload: int -> Frame)
    requires HeardFrom(start, n, heard) && Brings(inputs, heard, base, framesPerPacket, payload)
    requires TimelyStream(n, heard, decrypt, payload)
    ensures var cs := TaskOf(start, framesPerPacket, decrypt, inputs).commands;
            && |cs| == ReachedBy(n, heard, decrypt, payload) - n
            && forall i :: 0 <= i < |cs| ==> cs[i].Frame? && cs[i].packet == decrypt(payload(n + i))
  {
    hide TaskOf, OpsOf, Runs.RunOf, TimelyStream, ReachedBy, Brings, InputsOf, FirstAudio, DeriveTs, AnchorAt;
    CommandsOfPackets(start, n, inputs, heard, base, framesPerPacket, decrypt, payload);
    TimelyDeliveries(n, heard, base, framesPerPacket, decrypt, payload);
    var packets := InputsOf(heard, base, framesPerPacket, payload);
    var k := FirstAudio(packets);
    var cs := TaskOf(start, framesPerPacket, decrypt, inputs).commands;
    CommandAt(Jitter.Armed(n), framesPerPacket, decrypt, packets, k, 0);
    forall i | 0 <= i < |cs| ensures cs[i].Frame? && cs[i].packet == decrypt(payload(n + i)) {
      CommandAt(Jitter.Armed(n), framesPerPacket, decrypt, packets, k, i);
    }
  }

  // ----- What the sink is told -----

  /** The log with the wait's timestamp left open. */
  function Erase(e: Player.SinkEvent): Player.SinkEvent {
    if e.Wait? then Player.Wait(0) else e
  }

  ghost predicate SameAudio(a: seq<Player.SinkEvent>, b: seq<Player.SinkEvent>) {
    |a| == |b| && forall i :: 0 <= i < |a| ==> Erase(a[i]) == Erase(b[i])
  }

  ghost predicate SamePcm(xs: seq<Player.Chunk>, ys: seq<Player.Chunk>) {
    |xs| == |ys| && forall i :: 0 <= i < |xs| ==> xs[i].pcm == ys[i].pcm
  }

  lemma {:induction false} SameConcat(xs: seq<Player.Chunk>, ys: seq<Player.Chunk>)
    requires SamePcm(xs, ys)
    ensures Player.Concat(xs) == Player.Concat(ys)
  {
    if xs != [] {
      SameConcat(xs[..|xs| - 1], ys[..|ys| - 1]);
    }
  }

  lemma SamePcmSameLog(t: nat, xs: seq<Player.Chunk>, ys: seq<Player.Chunk>)
    requires t > 0 && SamePcm(xs, ys)
    ensures SameAudio(Player.EpochLog(t, xs), Player.EpochLog(t, ys))
  {
    if |xs| >= t {
      SameConcat(xs[..t], ys[..t]);
    }
  }

  ghost predicate SamePackets(xs: seq<Player.Command>, ys: seq<Player.Command>) {
    && |xs| == |ys|
    && forall i :: 0 <= i < |xs| ==> xs[i].Frame? && ys[i].Frame? && xs[i].packet == ys[i].packet
  }

  lemma {:induction false} SamePacketsOneEpoch(
      xs: seq<Player.Command>, ys: seq<Player.Command>,
      decode: Player.Packet -> Option<Player.Pcm>, silence: Player.Pcm)
    requires SamePackets(xs, ys)
    ensures var ex, ey := Player.Epochs(xs, decode, silence), Player.Epochs(ys, decode, silence);
            |ex| == 1 && |ey| == 1 && SamePcm(ex[0], ey[0])
  {
    if xs != [] {
      SamePacketsOneEpoch(xs[..|xs| - 1], ys[..|ys| - 1], decode, silence);
    }
  }

  ghost function SinkLog(
      t: nat, commands: seq<Player.Command>,
      decode: Player.Packet -> Option<Player.Pcm>, silence: Player.Pcm)
    : seq<Player.SinkEvent>
    requires t > 0
  {
    Player.LogOf(t, Player.Epochs(commands, decode, silence))
  }

  /** Two timely networks that let the same positions through, in any order, with
      any duplicates, on either channel and with service ticks anywhere, make the
      player do exactly the same to the sink; only the instant waited for may
      differ. */
  lemma OrderIsInaudible(
      start: Jitter.Buffer, n: int, xs: seq<Heard>, ys: seq<Heard>, xInputs: seq<Input>, yInputs: seq<Input>,
      base: int, framesPerPacket: u32, decrypt: Frame -> Frame, payload: int -> Frame,
      t: nat, decode: Player.Packet -> Option<Player.Pcm>, silence: Player.Pcm)
    requires t > 0 && HeardFrom(start, n, xs) && HeardFrom(start, n, ys)
    requires Brings(xInputs, xs, base, framesPerPacket, payload) && Brings(yInputs, ys, base, framesPerPacket, payload)
    requires TimelyStream(n, xs, decrypt, payload) && TimelyStream(n, ys, decrypt, payload)
    requires ReachedBy(n, xs, decrypt, payload) == ReachedBy(n, ys, decrypt, payload)
    ensures SameAudio(
        SinkLog(t, TaskOf(start, framesPerPacket, decrypt, xInputs).commands, decode, silence),
        SinkLog(t, TaskOf(start, framesPerPacket, decrypt, yInputs).commands, decode, silence))
  {
    hide TaskOf, TimelyStream, ReachedBy, Brings;
    TimelyCommands(start, n, xInputs, xs, base, framesPerPacket, decrypt, payload);
    TimelyCommands(start, n, yInputs, ys, base, framesPerPacket, decrypt, payload);
    var cx := TaskOf(start, framesPerPacket, decrypt, xInputs).commands;
    var cy := TaskOf(start, framesPerPacket, decrypt, yInputs).commands;
    SamePacketsOneEpoch(cx, cy, decode, silence);
    SamePcmSameLog(t, Player.Epochs(cx, decode, silence)[0], Player.Epochs(cy, decode, silence)[0]);
  }

  /** `k` is the place of the first packet on the audio channel, if there is one. */
  ghost predicate FirstOnAudioAt(heard: seq<Heard>, k: nat) {
    && k <= |heard|
    && (forall i :: 0 <= i < k ==> heard[i].resent)
    && (k < |heard| ==> !heard[k].resent)
  }

  lemma TimelyPrefix(n: int, heard: seq<Heard>, k: nat, decrypt: Frame -> Frame, payload: int -> Frame)
    requires TimelyStream(n, heard, decrypt, payload) && k <= |heard|
    ensures TimelyStream(n, heard[..k], decrypt, payload)
    ensures k < |heard| && !HeardAmong(n, heard[..k]) ==> n - 0x8000 <= heard[k].pos < n + Jitter.MAX_LEAD
  {
    var arrivals, init := ArrivalsOf(heard, decrypt, payload), ArrivalsOf(heard[..k], decrypt, payload);
    assert init == arrivals[..k];
    forall i | 0 <= i < k ensures init[..i] == arrivals[..i] {
    }
    if k < |heard| && !HeardAmong(n, heard[..k]) {
      ReachedIffHeard(n, heard[..k], decrypt, payload);
      assert Runs.FirstGap(n, Runs.Positions(arrivals[..k])) == n;
    }
  }

  /** The stamp of each frame: 0 if it was delivered before any audio packet was
      heard, and otherwise taken from the first one. */
  lemma FrameStamp(
      start: Jitter.Buffer, n: int, inputs: seq<Input>, heard: seq<Heard>, k: nat, i: nat,
      base: int, framesPerPacket: u32, decrypt: Frame -> Frame, payload: int -> Frame)
    requires HeardFrom(start, n, heard) && Brings(inputs, heard, base, framesPerPacket, payload)
    requires TimelyStream(n, heard, decrypt, payload) && FirstOnAudioAt(heard, k)
    requires n + i < ReachedBy(n, heard, decrypt, payload)
    ensures var cs := TaskOf(start, framesPerPacket, decrypt, inputs).commands;
            && i < |cs| && cs[i].Frame?
            && if n + i < ReachedBy(n, heard[..k], decrypt, payload) then cs[i].ts == 0
               else && k < |heard|
                    && (cs[i].ts == SenderTs(base, framesPerPacket, n + i)
                        <==> StampIsExact(framesPerPacket, heard[k].pos, n + i))
  {
    hide TaskOf, SenderTs, Brings, TimelyStream, StampIsExact, FirstNumber, ReachedBy;
    var packets := InputsOf(heard, base, framesPerPacket, payload);
    var some := InputsOf(heard[..k], base, framesPerPacket, payload);
    TimelyPrefix(n, heard, k, decrypt, payload);
    TimelyCommands(start, n, inputs, heard, base, framesPerPacket, decrypt, payload);
    CommandsOfPackets(start, n, inputs, heard, base, framesPerPacket, decrypt, payload);
    JustPackets(heard[..k], base, framesPerPacket, payload);
    TimelyCommands(Jitter.Armed(n), n, some, heard[..k], base, framesPerPacket, decrypt, payload);
    assert packets[..k] == some;
    if k == |heard| {
      assert heard[..k] == heard;
    }
    var a := if k < |heard| then heard[k].pos else n;
    TimelineExact(Jitter.Armed(n), n, a, base, framesPerPacket, decrypt, packets, k, i);
  }

  /** The instant itself does depend on the order. If the first position was
      heard as a retransmit before any audio packet, it is stamped 0. Otherwise
      it carries the sender's timestamp exactly if that is so as seen from the first
      audio packet heard: with packets below 65536 frames, if it is not a later
      one. */
  lemma StartInstantIff(
      start: Jitter.Buffer, n: int, inputs: seq<Input>, heard: seq<Heard>, k: nat,
      base: int, framesPerPacket: u32, decrypt: Frame -> Frame, payload: int -> Frame)
    requires HeardFrom(start, n, heard) && Brings(inputs, heard, base, framesPerPacket, payload)
    requires TimelyStream(n, heard, decrypt, payload) && HeardAmong(n, heard) && FirstOnAudioAt(heard, k)
    ensures var cs := TaskOf(start, framesPerPacket, decrypt, inputs).commands;
            && |cs| > 0 && cs[0].Frame?
            && if HeardAmong(n, heard[..k]) then cs[0].ts == 0
               else && k < |heard|
                    && (cs[0].ts == SenderTs(base, framesPerPacket, n)
                        <==> StampIsExact(framesPerPacket, heard[k].pos, n))
                    && (0 < framesPerPacket < 0x1_0000 ==>
                          (StampIsExact(framesPerPacket, heard[k].pos, n)
                           <==> heard[k].pos <= n <= heard[k].pos + 0x7FFF))
  {
    hide TaskOf, SenderTs, Brings, StampIsExact, ReachedBy, TimelyStream;
    ReachedIffHeard(n, heard, decrypt, payload);
    ReachedIffHeard(n, heard[..k], decrypt, payload);
    TimelyPrefix(n, heard, k, decrypt, payload);
    FrameStamp(start, n, inputs, heard, k, 0, base, framesPerPacket, decrypt, payload);
    if k < |heard| && !HeardAmong(n, heard[..k]) && 0 < framesPerPacket < 0x1_0000 {
      StampExactNearAnchor(framesPerPacket, heard[k].pos, n);
    }
  }

  predicate Decodes(
      p: int, decrypt: Frame -> Frame, payload: int -> Frame, decode: Player.Packet -> Option<Player.Pcm>)
  {
    decode(decrypt(payload(p))).Some?
  }

  /** And that is the instant the sink is made to wait for: the stamp of the first
      frame that decodes, at position `n + i`. */
  lemma StartWaitIff(
      start: Jitter.Buffer, n: int, inputs: seq<Input>, heard: seq<Heard>, k: nat, i: nat,
      base: int, framesPerPacket: u32, decrypt: Frame -> Frame, payload: int -> Frame,
      t: nat, decode: Player.Packet -> Option<Player.Pcm>, silence: Player.Pcm)
    requires t > 0 && HeardFrom(start, n, heard) && Brings(inputs, heard, base, framesPerPacket, payload)
    requires TimelyStream(n, heard, decrypt, payload) && FirstOnAudioAt(heard, k)
    requires n + i < ReachedBy(n, heard, decrypt, payload) && Decodes(n + i, decrypt, payload, decode)
    requires forall p :: n <= p < n + i ==> !Decodes(p, decrypt, payload, decode)
    ensures var cs := TaskOf(start, framesPerPacket, decrypt, inputs).commands;
            var log := SinkLog(t, cs, decode, silence);
            && (log != [] <==> Player.PlayedCount(cs, decode) >= t)
            && (log != [] ==>
                  && log[0].Wait?
                  && if n + i < ReachedBy(n, heard[..k], decrypt, payload) then log[0].ts == 0
                     else && k < |heard|
                          && (log[0].ts == SenderTs(base, framesPerPacket, n + i)
                              <==> StampIsExact(framesPerPacket, heard[k].pos, n + i)))
  {
    hide TaskOf, SenderTs, Brings, StampIsExact, ReachedBy, TimelyStream;
    FrameStamp(start, n, inputs, heard, k, i, base, framesPerPacket, decrypt, payload);
    TimelyCommands(start, n, inputs, heard, base, framesPerPacket, decrypt, payload);
    var cs := TaskOf(start, framesPerPacket, decrypt, inputs).commands;
    forall h | 0 <= h < i ensures !Player.IsPlayed(cs[h], decode) {
      assert !Decodes(n + h, decrypt, payload, decode);
    }
    assert Player.IsFirstPlayed(cs, decode, i);
    OneEpochWaits(cs, t, decode, silence, i);
  }

  /** Frames alone make one epoch, which waits for the first that decodes. */
  lemma OneEpochWaits(
      cs: seq<Player.Command>, t: nat, decode: Player.Packet -> Option<Player.Pcm>, silence: Player.Pcm, i: nat)
    requires t > 0 && Player.IsFirstPlayed(cs, decode, i)
    requires forall h :: 0 <= h < |cs| ==> cs[h].Frame?
    ensures var log := SinkLog(t, cs, decode, silence);
            && (log != [] <==> Player.PlayedCount(cs, decode) >= t)
            && (log != [] ==> log[0] == Player.Wait(cs[i].ts))
  {
    Player.EpochsMatchCommands(cs, decode, silence);
    FramesAreOneStretch(cs);
    hide Player.SplitAtFlush, Player.Epochs, Player.PcmOf, Player.Concat, Player.PlayedCount, Player.EpochLog;
    var epochs := Player.Epochs(cs, decode, silence);
    assert Player.ChunksMatch(epochs[0], cs, decode, silence);
    assert Player.StartsAt(epochs[0], cs, i);
    Player.EpochConserves(t, epochs[0]);
  }

  lemma {:induction false} FramesAreOneStretch(cs: seq<Player.Command>)
    requires forall h :: 0 <= h < |cs| ==> cs[h].Frame?
    ensures Player.SplitAtFlush(cs) == [cs]
  {
    if cs != [] {
      FramesAreOneStretch(cs[..|cs| - 1]);
      assert cs[..|cs| - 1] + [cs[|cs| - 1]] == cs;
    }
  }

  lemma {:induction false} JustPackets(heard: seq<Heard>, base: int, framesPerPacket: u32, payload: int -> Frame)
    ensures Brings(InputsOf(heard, base, framesPerPacket, payload), heard, base, framesPerPacket, payload)
  {
    var inputs := InputsOf(heard, base, framesPerPacket, payload);
    if heard != [] {
      JustPackets(heard[..|heard| - 1], base, framesPerPacket, payload);
      assert inputs[..|inputs| - 1] == InputsOf(heard[..|heard| - 1], base, framesPerPacket, payload);
    } else {
      assert inputs == [];
    }
  }
}
