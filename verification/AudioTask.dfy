/** The audio task: packets, retransmits, service ticks and flushes in, player
    commands and resend requests out. */
module AudioTask {
  import opened Numbers
  import Jitter = JitterModel
  import JitterRing
  import Runs = JitterRuns
  import Resend
  import Player

  type Frame = seq<byte>

  /** Number and timestamp of the first packet since the last flush. */
  datatype Anchor = Anchor(number: u16, ts: u32)

  datatype Input =
    | Audio(number: u16, ts: u32, payload: Frame)
    | Resent(number: u16, payload: Frame)
    | Service(now: nat)
    | Flush(start: Option<u16>)

  datatype ResendRequest = ResendRequest(at: nat, number: int)

  datatype Task = Task(
    buffer: Jitter.Buffer,
    anchor: Option<Anchor>,
    tracked: map<int, nat>,
    commands: seq<Player.Command>,
    requests: seq<ResendRequest>)

  /** The timestamp stamped on a delivered number. */
  function DeriveTs(number: u16, anchor: Option<Anchor>, framesPerPacket: u32): u32 {
    match anchor
    case None => 0
    case Some(a) => Wrap32(a.ts + Wrap32(Max(0, SeqDiff(number, a.number)) * framesPerPacket))
  }

  function CommandOf(d: Jitter.Delivery, anchor: Option<Anchor>, framesPerPacket: u32): Player.Command {
    var ts := DeriveTs(Wrap16(d.pos), anchor, framesPerPacket);
    match d
    case Packet(_, frame) => Player.Frame(ts, frame)
    case Lost(_) => Player.Silence(ts)
  }

  function CommandsOf(ds: seq<Jitter.Delivery>, anchor: Option<Anchor>, framesPerPacket: u32): seq<Player.Command> {
    seq(|ds|, i requires 0 <= i < |ds| => CommandOf(ds[i], anchor, framesPerPacket))
  }

  function RequestsAt(now: nat, due: seq<int>): seq<ResendRequest> {
    seq(|due|, i requires 0 <= i < |due| => ResendRequest(now, due[i]))
  }

  function Drain(t: Task, framesPerPacket: u32): (t': Task)
    requires Jitter.Valid(t.buffer)
    ensures Jitter.Valid(t'.buffer)
  {
    var popped := Jitter.PopReady(t.buffer, Jitter.MAX_LEAD);
    t.(buffer := popped.buffer, commands := t.commands + CommandsOf(popped.out, t.anchor, framesPerPacket))
  }

  function Store(t: Task, number: u16, frame: Frame): (t': Task)
    requires Jitter.Valid(t.buffer)
    ensures Jitter.Valid(t'.buffer)
  {
    t.(buffer := Jitter.Insert(t.buffer, Jitter.Place(t.buffer, number), frame))
  }

  function Step(t: Task, framesPerPacket: u32, decrypt: Frame -> Frame, input: Input): (t': Task)
    requires Jitter.Valid(t.buffer)
    ensures Jitter.Valid(t'.buffer)
  {
    match input
    case Audio(number, ts, payload) =>
      var anchored := if t.anchor == None then t.(anchor := Some(Anchor(number, ts))) else t;
      Drain(Store(anchored, number, decrypt(payload)), framesPerPacket)
    case Resent(number, payload) => Drain(Store(t, number, decrypt(payload)), framesPerPacket)
    case Service(now) =>
      var drained := Drain(t, framesPerPacket);
      var served := Resend.Serve(t.tracked, Jitter.WrapAll(Jitter.Missing(drained.buffer)), now);
      drained.(tracked := served.last, requests := t.requests + RequestsAt(now, served.due))
    case Flush(start) =>
      Task(Jitter.Reset(start), None, map[], t.commands + [Player.Flush], t.requests)
  }

  function TaskOf(start: Jitter.Buffer, framesPerPacket: u32, decrypt: Frame -> Frame, inputs: seq<Input>): (t: Task)
    requires Jitter.Valid(start)
    ensures Jitter.Valid(t.buffer)
  {
    if inputs == [] then Task(start, None, map[], [], [])
    else
      var before := TaskOf(start, framesPerPacket, decrypt, inputs[..|inputs| - 1]);
      Step(before, framesPerPacket, decrypt, inputs[|inputs| - 1])
  }

  lemma CommandsOnWire(ds: seq<Jitter.Delivery>, anchor: Option<Anchor>, framesPerPacket: u32)
    ensures CommandsOf(Jitter.AllOnWire(ds), anchor, framesPerPacket) == CommandsOf(ds, anchor, framesPerPacket)
  {
  }

  /** The commands for released packets, one by one. */
  method DrainDeliveries(ring: JitterRing.JitterBuffer, anchor: Option<Anchor>, framesPerPacket: u32)
    returns (commands: seq<Player.Command>)
    requires ring.Repr()
    modifies ring, ring.slots
    ensures ring.Repr()
    ensures ring.model == Jitter.PopReady(old(ring.model), ring.maxLead).buffer
    ensures commands == CommandsOf(Jitter.PopReady(old(ring.model), ring.maxLead).out, anchor, framesPerPacket)
  {
    var out := ring.PopReady();
    CommandsOnWire(Jitter.PopReady(old(ring.model), ring.maxLead).out, anchor, framesPerPacket);
    commands := [];
    for i := 0 to |out|
      invariant commands == CommandsOf(out, anchor, framesPerPacket)[..i]
    {
      commands := commands + [CommandOf(out[i], anchor, framesPerPacket)];
    }
  }

  /** The audio task's loop, over the ring and the tracker it keeps, emits exactly the
      commands and requests of the model. */
  method AudioReceiver(framesPerPacket: u32, decrypt: Frame -> Frame, inputs: seq<Input>)
    returns (commands: seq<Player.Command>, requests: seq<ResendRequest>)
    ensures commands == TaskOf(Jitter.Idle, framesPerPacket, decrypt, inputs).commands
    ensures requests == TaskOf(Jitter.Idle, framesPerPacket, decrypt, inputs).requests
  {
    hide CommandsOf, Resend.DueResult, Jitter.Place, Jitter.PopReady, Jitter.Insert;
    var ring := new JitterRing.JitterBuffer(Jitter.MAX_LEAD);
    var tracker := new Resend.ResendTracker();
    var anchor: Option<Anchor> := None;
    commands, requests := [], [];
    for i := 0 to |inputs|
      invariant ring.Repr() && ring.maxLead == Jitter.MAX_LEAD
      invariant fresh(ring) && fresh(ring.slots) && fresh(tracker)
      invariant Task(ring.model, anchor, tracker.last, commands, requests)
             == TaskOf(Jitter.Idle, framesPerPacket, decrypt, inputs[..i])
    {
      assert inputs[..i + 1][..i] == inputs[..i];
      match inputs[i] {
        case Audio(number, ts, payload) =>
          if anchor == None {
            anchor := Some(Anchor(number, ts));
          }
          ring.Insert(number, decrypt(payload));
          var more := DrainDeliveries(ring, anchor, framesPerPacket);
          commands := commands + more;
        case Resent(number, payload) =>
          ring.Insert(number, decrypt(payload));
          var more := DrainDeliveries(ring, anchor, framesPerPacket);
          commands := commands + more;
        case Service(now) =>
          var more := DrainDeliveries(ring, anchor, framesPerPacket);
          commands := commands + more;
          var missing := ring.Missing();
          if missing != [] {
            var due := tracker.Due(missing, now);
            requests := requests + RequestsAt(now, due);
          } else {
            assert RequestsAt(now, []) == [];
          }
        case Flush(start) =>
          ring.Reset(start);
          tracker.Clear();
          anchor := None;
          commands := commands + [Player.Flush];
      }
    }
    assert inputs[..|inputs|] == inputs;
  }

  // ----- Timestamps -----

  /** The buffer operations an input amounts to. */
  function OpsFor(decrypt: Frame -> Frame, input: Input): seq<Runs.Op> {
    match input
    case Audio(number, _, payload) => [Runs.Insert(number, decrypt(payload)), Runs.PopReady]
    case Resent(number, payload) => [Runs.Insert(number, decrypt(payload)), Runs.PopReady]
    case Service(_) => [Runs.PopReady]
    case Flush(start) => [Runs.Reset(start)]
  }

  function OpsOf(decrypt: Frame -> Frame, inputs: seq<Input>): seq<Runs.Op> {
    if inputs == [] then []
    else OpsOf(decrypt, inputs[..|inputs| - 1]) + OpsFor(decrypt, inputs[|inputs| - 1])
  }

  predicate FlushFree(inputs: seq<Input>) {
    forall i :: 0 <= i < |inputs| ==> !inputs[i].Flush?
  }

  lemma {:induction false} OpsAreResetFree(decrypt: Frame -> Frame, inputs: seq<Input>)
    requires FlushFree(inputs)
    ensures Runs.ResetFree(OpsOf(decrypt, inputs))
  {
    if inputs != [] {
      OpsAreResetFree(decrypt, inputs[..|inputs| - 1]);
    }
  }

  function RunInput(r: Runs.Run, decrypt: Frame -> Frame, input: Input): (r': Runs.Run)
    requires Jitter.Valid(r.buffer)
    ensures Jitter.Valid(r'.buffer)
  {
    match input
    case Audio(number, _, payload) =>
      Runs.Step(Runs.Step(r, Jitter.MAX_LEAD, Runs.Insert(number, decrypt(payload))), Jitter.MAX_LEAD, Runs.PopReady)
    case Resent(number, payload) =>
      Runs.Step(Runs.Step(r, Jitter.MAX_LEAD, Runs.Insert(number, decrypt(payload))), Jitter.MAX_LEAD, Runs.PopReady)
    case Service(_) => Runs.Step(r, Jitter.MAX_LEAD, Runs.PopReady)
    case Flush(start) => Runs.Step(r, Jitter.MAX_LEAD, Runs.Reset(start))
  }

  lemma StepRuns(start: Jitter.Buffer, ops: seq<Runs.Op>, decrypt: Frame -> Frame, input: Input)
    requires Jitter.Valid(start)
    ensures Runs.RunOf(start, Jitter.MAX_LEAD, ops + OpsFor(decrypt, input))
         == RunInput(Runs.RunOf(start, Jitter.MAX_LEAD, ops), decrypt, input)
  {
    hide Runs.Step;
    var more := OpsFor(decrypt, input);
    var all := ops + more;
    Runs.RunOfNext(start, Jitter.MAX_LEAD, all, |ops|);
    assert all[..|ops|] == ops;
    if |more| == 1 {
      assert all[..|ops| + 1] == all;
    } else {
      Runs.RunOfNext(start, Jitter.MAX_LEAD, all, |ops| + 1);
      assert all[..|ops| + 2] == all;
    }
  }

  lemma CommandsConcat(a: seq<Jitter.Delivery>, b: seq<Jitter.Delivery>, anchor: Option<Anchor>, framesPerPacket: u32)
    ensures CommandsOf(a + b, anchor, framesPerPacket)
         == CommandsOf(a, anchor, framesPerPacket) + CommandsOf(b, anchor, framesPerPacket)
  {
  }

  /** What a task has emitted: commands before the anchor was known, then the
      deliveries from `m` on stamped from it. */
  ghost predicate Follows(t: Task, r: Runs.Run, framesPerPacket: u32, early: seq<Player.Command>, m: nat) {
    && t.buffer == r.buffer
    && |early| == m <= |r.out|
    && t.commands == early + CommandsOf(r.out[m..], t.anchor, framesPerPacket)
  }

  lemma StepFollows(t: Task, r: Runs.Run, framesPerPacket: u32, decrypt: Frame -> Frame, input: Input,
                    early: seq<Player.Command>, m: nat)
    requires Jitter.Valid(r.buffer) && !input.Flush? && (input.Audio? ==> t.anchor.Some?)
    requires Follows(t, r, framesPerPacket, early, m)
    ensures var t' := Step(t, framesPerPacket, decrypt, input);
            var r' := RunInput(r, decrypt, input);
            Follows(t', r', framesPerPacket, early, m) && t'.anchor == t.anchor && r.out <= r'.out
  {
    hide CommandsOf, Jitter.PopReady, Jitter.Insert, Jitter.Place, Resend.Serve, RequestsAt;
    var stored := match input
      case Audio(number, _, payload) => Store(t, number, decrypt(payload))
      case Resent(number, payload) => Store(t, number, decrypt(payload))
      case _ => t;
    var more := Jitter.PopReady(stored.buffer, Jitter.MAX_LEAD).out;
    CommandsConcat(r.out[m..], more, t.anchor, framesPerPacket);
    assert (r.out + more)[m..] == r.out[m..] + more;
  }

  lemma FirstAudioAnchors(t: Task, framesPerPacket: u32, decrypt: Frame -> Frame, input: Input)
    requires Jitter.Valid(t.buffer) && t.anchor == None && input.Audio?
    ensures Step(t, framesPerPacket, decrypt, input)
         == Step(t.(anchor := Some(Anchor(input.number, input.ts))), framesPerPacket, decrypt, input)
  {
  }

  lemma NoCommands(anchor: Option<Anchor>, framesPerPacket: u32)
    ensures CommandsOf([], anchor, framesPerPacket) == []
  {
  }

  /** `k` is the first audio packet's place, or the length if none is heard. */
  ghost predicate FirstAudioAt(inputs: seq<Input>, k: nat) {
    && k <= |inputs|
    && (forall i :: 0 <= i < k ==> !inputs[i].Audio?)
    && (k < |inputs| ==> inputs[k].Audio?)
  }

  /** The anchor while the first audio packet, if any, is at `k`. */
  function AnchorAt(inputs: seq<Input>, k: nat): Option<Anchor> {
    if k < |inputs| && inputs[k].Audio? then Some(Anchor(inputs[k].number, inputs[k].ts)) else None
  }

  lemma {:induction false} FollowsUnanchored(
      start: Jitter.Buffer, framesPerPacket: u32, decrypt: Frame -> Frame, inputs: seq<Input>)
    requires Jitter.Valid(start) && FlushFree(inputs) && forall i :: 0 <= i < |inputs| ==> !inputs[i].Audio?
    ensures var t := TaskOf(start, framesPerPacket, decrypt, inputs);
            var r := Runs.RunOf(start, Jitter.MAX_LEAD, OpsOf(decrypt, inputs));
            t.anchor == None && Follows(t, r, framesPerPacket, [], 0)
  {
    hide RunInput, Step, CommandsOf, OpsFor, Follows;
    if inputs == [] {
      NoCommands(None, framesPerPacket);
      assert Follows(Task(start, None, map[], [], []), Runs.Run(start, [], []), framesPerPacket, [], 0) by {
        FollowsFresh(start, framesPerPacket);
      }
    } else {
      var init, input := inputs[..|inputs| - 1], inputs[|inputs| - 1];
      FollowsUnanchored(start, framesPerPacket, decrypt, init);
      StepRuns(start, OpsOf(decrypt, init), decrypt, input);
      StepFollows(TaskOf(start, framesPerPacket, decrypt, init),
                  Runs.RunOf(start, Jitter.MAX_LEAD, OpsOf(decrypt, init)), framesPerPacket, decrypt, input, [], 0);
    }
  }

  lemma FollowsFresh(start: Jitter.Buffer, framesPerPacket: u32)
    ensures Follows(Task(start, None, map[], [], []), Runs.Run(start, [], []), framesPerPacket, [], 0)
  {
  }

  /** When the anchor becomes known, what was emitted without it stays as it is. */
  lemma FollowsReanchored(t: Task, r: Runs.Run, framesPerPacket: u32, anchor: Option<Anchor>)
    requires Follows(t, r, framesPerPacket, [], 0)
    ensures |t.commands| == |r.out| && t.commands == CommandsOf(r.out, t.anchor, framesPerPacket)
    ensures Follows(t.(anchor := anchor), r, framesPerPacket, t.commands, |r.out|)
  {
    assert r.out[0..] == r.out;
    assert [] + CommandsOf(r.out, t.anchor, framesPerPacket) == CommandsOf(r.out, t.anchor, framesPerPacket);
    assert r.out[|r.out|..] == [];
    assert t.commands + CommandsOf([], anchor, framesPerPacket) == t.commands;
  }

  /** For every list of inputs without a flush, from any buffer: the commands are
      the buffer's deliveries in order, those made before the first audio packet
      stamped without an anchor, all later ones from that packet. */
  lemma {:induction false} CommandsFollowDeliveries(
      start: Jitter.Buffer, framesPerPacket: u32, decrypt: Frame -> Frame, inputs: seq<Input>, k: nat)
    requires Jitter.Valid(start) && FlushFree(inputs) && FirstAudioAt(inputs, k)
    ensures var t := TaskOf(start, framesPerPacket, decrypt, inputs);
            var r := Runs.RunOf(start, Jitter.MAX_LEAD, OpsOf(decrypt, inputs));
            var r0 := Runs.RunOf(start, Jitter.MAX_LEAD, OpsOf(decrypt, inputs[..k]));
            && t.anchor == AnchorAt(inputs, k)
            && r0.out <= r.out
            && Follows(t, r, framesPerPacket, CommandsOf(r0.out, None, framesPerPacket), |r0.out|)
  {
    hide RunInput, Step, CommandsOf, OpsFor, Runs.RunOf, Follows;
    if k == |inputs| {
      assert inputs[..k] == inputs;
      FollowsUnanchored(start, framesPerPacket, decrypt, inputs);
      FollowsReanchored(TaskOf(start, framesPerPacket, decrypt, inputs),
                        Runs.RunOf(start, Jitter.MAX_LEAD, OpsOf(decrypt, inputs)), framesPerPacket, None);
    } else {
      var init, input := inputs[..|inputs| - 1], inputs[|inputs| - 1];
      var t := TaskOf(start, framesPerPacket, decrypt, init);
      var r := Runs.RunOf(start, Jitter.MAX_LEAD, OpsOf(decrypt, init));
      var r0 := Runs.RunOf(start, Jitter.MAX_LEAD, OpsOf(decrypt, inputs[..k]));
      var early := CommandsOf(r0.out, None, framesPerPacket);
      StepRuns(start, OpsOf(decrypt, init), decrypt, input);
      if k < |init| {
        assert init[..k] == inputs[..k];
        CommandsFollowDeliveries(start, framesPerPacket, decrypt, init, k);
        StepFollows(t, r, framesPerPacket, decrypt, input, early, |r0.out|);
      } else {
        assert init == inputs[..k];
        FollowsUnanchored(start, framesPerPacket, decrypt, init);
        var anchor := Some(Anchor(input.number, input.ts));
        FollowsReanchored(t, r, framesPerPacket, anchor);
        FirstAudioAnchors(t, framesPerPacket, decrypt, input);
        StepFollows(t.(anchor := anchor), r, framesPerPacket, decrypt, input, early, |r.out|);
      }
    }
  }

  /** One command: the delivery at its place, stamped by what was known then. */
  lemma CommandAt(
      start: Jitter.Buffer, framesPerPacket: u32, decrypt: Frame -> Frame, inputs: seq<Input>, k: nat, i: nat)
    requires Jitter.Valid(start) && FlushFree(inputs) && FirstAudioAt(inputs, k)
    ensures var commands := TaskOf(start, framesPerPacket, decrypt, inputs).commands;
            var out := Runs.RunOf(start, Jitter.MAX_LEAD, OpsOf(decrypt, inputs)).out;
            var early := |TaskOf(start, framesPerPacket, decrypt, inputs[..k]).commands|;
            && |commands| == |out| && early <= |out|
            && early == |Runs.RunOf(start, Jitter.MAX_LEAD, OpsOf(decrypt, inputs[..k])).out|
            && (i < |out| ==>
                  commands[i] == CommandOf(out[i], if i < early then None else AnchorAt(inputs, k), framesPerPacket))
  {
    hide Runs.RunOf, TaskOf, OpsOf, CommandOf;
    CommandsFollowDeliveries(start, framesPerPacket, decrypt, inputs, k);
    assert inputs[..k][..k] == inputs[..k];
    CommandsFollowDeliveries(start, framesPerPacket, decrypt, inputs[..k], k);
    var r0 := Runs.RunOf(start, Jitter.MAX_LEAD, OpsOf(decrypt, inputs[..k]));
    assert r0.out[|r0.out|..] == [];
  }

  /** A sender whose timestamps advance by the packet length per position. */
  function SenderTs(base: int, framesPerPacket: u32, p: int): u32 {
    Wrap32(base + p * framesPerPacket)
  }

  /** How far past the anchor a position is taken to be: its distance on
      the 16-bit circle, and nothing if that reads as negative. */
  function Ahead(p: int, a: int): nat {
    Max(0, SeqDiff(Wrap16(p), Wrap16(a)))
  }

  function SenderAnchor(base: int, framesPerPacket: u32, a: int): Option<Anchor> {
    Some(Anchor(Wrap16(a), SenderTs(base, framesPerPacket, a)))
  }

  /** Every position is stamped with the sender's timestamp of the position that
      far past the anchor. */
  lemma StampOf(base: int, framesPerPacket: u32, a: int, p: int)
    ensures DeriveTs(Wrap16(p), SenderAnchor(base, framesPerPacket, a), framesPerPacket)
         == SenderTs(base, framesPerPacket, a + Ahead(p, a))
  {
    var ahead := Ahead(p, a);
    Wrap32Add(base + a * framesPerPacket, ahead * framesPerPacket);
    Distributes(a, ahead, framesPerPacket);
    hide Wrap16, SeqDiff, Wrap32;
  }

  /** Within half a circle of the anchor that is the position itself or, before
      the anchor, the anchor. */
  lemma AheadWithinHalfCircle(p: int, a: int)
    requires -0x8000 <= p - a < 0x8000
    ensures a + Ahead(p, a) == Max(p, a)
  {
    SeqDiffIsDistance(p, a);
  }

  /** From there to a full circle past it, it is the anchor again. */
  lemma AheadPastHalfCircle(p: int, a: int)
    requires 0x8000 <= p - a < 0x1_0000
    ensures Ahead(p, a) == 0
  {
    SeqDiffIsDistance(p - 0x1_0000, a);
    Wrap16Turns(p - 0x1_0000, 1);
  }

  lemma Wrap32Congruent(x: int, y: int)
    ensures Wrap32(x) == Wrap32(y) <==> Wrap32(x - y) == 0
  {
    var q, q' := x / 0x1_0000_0000, y / 0x1_0000_0000;
    assert x == 0x1_0000_0000 * q + Wrap32(x) && y == 0x1_0000_0000 * q' + Wrap32(y);
    Wrap32Shift(Wrap32(x) - Wrap32(y), q - q');
  }

  /** Two positions share a sender stamp exactly when the frames between them are
      a multiple of 2^32. */
  lemma SameStampIff(base: int, framesPerPacket: u32, p: int, q: int)
    ensures SenderTs(base, framesPerPacket, p) == SenderTs(base, framesPerPacket, q)
       <==> Wrap32((p - q) * framesPerPacket) == 0
  {
    Wrap32Congruent(base + p * framesPerPacket, base + q * framesPerPacket);
    Distributes(q, p - q, framesPerPacket);
  }

  lemma FramesWithinCircle(framesPerPacket: u32, k: int)
    requires 0 < framesPerPacket < 0x1_0000 && 0 < k < 0x1_0000
    ensures 0 < k * framesPerPacket < 0x1_0000_0000
  {
    assert k * framesPerPacket <= 0xFFFF * framesPerPacket;
  }

  lemma NegativeFrames(framesPerPacket: u32, d: int)
    ensures d * framesPerPacket == -((-d) * framesPerPacket)
  {
  }

  lemma NonzeroWithinCircle(x: int)
    requires x != 0 && -0x1_0000_0000 < x < 0x1_0000_0000
    ensures Wrap32(x) != 0
  {
  }

  /** Packets of 1 to 65535 frames never share a stamp within one circle. */
  lemma StampsDiffer(framesPerPacket: u32, d: int)
    requires 0 < framesPerPacket < 0x1_0000 && d != 0 && -0x1_0000 < d < 0x1_0000
    ensures Wrap32(d * framesPerPacket) != 0
  {
    hide Wrap32;
    if d > 0 {
      FramesWithinCircle(framesPerPacket, d);
    } else {
      FramesWithinCircle(framesPerPacket, -d);
      NegativeFrames(framesPerPacket, d);
    }
    NonzeroWithinCircle(d * framesPerPacket);
  }

  /** The stamp is the sender's own: from the anchor to 32767 positions past it,
      and beyond only where the frames between happen to wrap the timestamp. */
  predicate StampIsExact(framesPerPacket: u32, a: int, p: int) {
    a <= p <= a + 0x7FFF || Wrap32((a + Ahead(p, a) - p) * framesPerPacket) == 0
  }

  /** For every position, however far from the anchor. */
  lemma StampExactIff(base: int, framesPerPacket: u32, a: int, p: int)
    ensures DeriveTs(Wrap16(p), SenderAnchor(base, framesPerPacket, a), framesPerPacket)
         == SenderTs(base, framesPerPacket, p)
       <==> StampIsExact(framesPerPacket, a, p)
  {
    StampOf(base, framesPerPacket, a, p);
    SameStampIff(base, framesPerPacket, a + Ahead(p, a), p);
    if a <= p <= a + 0x7FFF {
      AheadWithinHalfCircle(p, a);
    }
    hide DeriveTs, SenderTs, SenderAnchor, Ahead, Wrap32;
  }

  /** With packets of 1 to 65535 frames there is no such coincidence up to a full
      circle past the anchor or half of one before it. */
  lemma StampExactNearAnchor(framesPerPacket: u32, a: int, p: int)
    requires 0 < framesPerPacket < 0x1_0000 && -0x8000 <= p - a < 0x1_0000
    ensures StampIsExact(framesPerPacket, a, p) <==> a <= p <= a + 0x7FFF
  {
    if p - a < 0x8000 {
      AheadWithinHalfCircle(p, a);
    } else {
      AheadPastHalfCircle(p, a);
    }
    hide Ahead;
    if !(a <= p <= a + 0x7FFF) {
      StampsDiffer(framesPerPacket, a + Ahead(p, a) - p);
    }
  }

  // ----- Where delivery starts -----

  predicate IsPacket(input: Input) {
    input.Audio? || input.Resent?
  }

  /** The number of the first packet heard, on either channel. */
  function FirstNumber(inputs: seq<Input>): Option<u16> {
    if inputs == [] then None
    else
      var last := inputs[|inputs| - 1];
      match FirstNumber(inputs[..|inputs| - 1])
      case Some(number) => Some(number)
      case None => if IsPacket(last) then Some(last.number) else None
  }

  /** Delivery starts at position `n`: where a flush armed the buffer, or else at
      the first packet heard. Positions may be counted from any turn. */
  predicate StartsAt(start: Jitter.Buffer, inputs: seq<Input>, n: int) {
    match start
    case Idle => FirstNumber(inputs).None? || FirstNumber(inputs) == Some(Wrap16(n))
    case Armed(next) => Wrap16(next) == Wrap16(n)
    case Live(_, _, _) => false
  }

  lemma {:induction false} TicksDoNothing(
      start: Jitter.Buffer, framesPerPacket: u32, decrypt: Frame -> Frame, inputs: seq<Input>)
    requires !start.Live? && FlushFree(inputs) && FirstNumber(inputs) == None
    ensures TaskOf(start, framesPerPacket, decrypt, inputs) == Task(start, None, map[], [], [])
  {
    if inputs != [] {
      TicksDoNothing(start, framesPerPacket, decrypt, inputs[..|inputs| - 1]);
    }
  }

  lemma FirstPacketStarts(framesPerPacket: u32, decrypt: Frame -> Frame, input: Input)
    requires IsPacket(input)
    ensures Step(Task(Jitter.Idle, None, map[], [], []), framesPerPacket, decrypt, input)
         == Step(Task(Jitter.Armed(input.number), None, map[], [], []), framesPerPacket, decrypt, input)
  {
    assert Jitter.Place(Jitter.Armed(input.number), input.number) == input.number;
    hide Jitter.PopReady, Jitter.Place;
    var frame := decrypt(input.payload);
    assert Jitter.Insert(Jitter.Idle, input.number, frame)
        == Jitter.Insert(Jitter.Armed(input.number), input.number, frame);
    assert Jitter.Place(Jitter.Idle, input.number) == input.number by { IdlePlace(input.number); }
  }

  lemma IdlePlace(number: u16)
    ensures Jitter.Place(Jitter.Idle, number) == number
  {
  }

  /** A task that knows no start behaves as one armed at its first packet. */
  lemma {:induction false} IdleActsArmed(
      framesPerPacket: u32, decrypt: Frame -> Frame, inputs: seq<Input>, n: u16)
    requires FlushFree(inputs) && FirstNumber(inputs) == Some(n)
    ensures TaskOf(Jitter.Idle, framesPerPacket, decrypt, inputs)
         == TaskOf(Jitter.Armed(n), framesPerPacket, decrypt, inputs)
  {
    hide Step;
    var init, input := inputs[..|inputs| - 1], inputs[|inputs| - 1];
    if FirstNumber(init).Some? {
      IdleActsArmed(framesPerPacket, decrypt, init, n);
    } else {
      TicksDoNothing(Jitter.Idle, framesPerPacket, decrypt, init);
      TicksDoNothing(Jitter.Armed(n), framesPerPacket, decrypt, init);
      FirstPacketStarts(framesPerPacket, decrypt, input);
    }
  }

  ghost function FirstAudio(inputs: seq<Input>): (k: nat)
    ensures FirstAudioAt(inputs, k)
  {
    if inputs == [] || inputs[0].Audio? then 0
    else
      var k := FirstAudio(inputs[1..]);
      assert forall i :: 0 < i < |inputs| ==> inputs[i] == inputs[1..][i - 1];
      k + 1
  }

  lemma CommandsOfWire(xs: seq<Jitter.Delivery>, ys: seq<Jitter.Delivery>, anchor: Option<Anchor>, framesPerPacket: u32)
    requires Jitter.AllOnWire(xs) == Jitter.AllOnWire(ys)
    ensures CommandsOf(xs, anchor, framesPerPacket) == CommandsOf(ys, anchor, framesPerPacket)
  {
    CommandsOnWire(xs, anchor, framesPerPacket);
    CommandsOnWire(ys, anchor, framesPerPacket);
  }

  /** Counting positions from another turn of the circle changes no command. */
  lemma ArmedAtAnyTurn(n: int, turns: int, framesPerPacket: u32, decrypt: Frame -> Frame, inputs: seq<Input>)
    requires FlushFree(inputs)
    ensures TaskOf(Jitter.Armed(n), framesPerPacket, decrypt, inputs).commands
         == TaskOf(Jitter.Armed(n + 0x1_0000 * turns), framesPerPacket, decrypt, inputs).commands
  {
    hide TaskOf, Runs.RunOf, OpsOf, CommandsOf, Jitter.AllOnWire, FirstAudio, Runs.Shifted, Follows, AnchorAt;
    var n' := n + 0x1_0000 * turns;
    var k := FirstAudio(inputs);
    OpsAreResetFree(decrypt, inputs);
    OpsAreResetFree(decrypt, inputs[..k]);
    CommandsFollowDeliveries(Jitter.Armed(n), framesPerPacket, decrypt, inputs, k);
    CommandsFollowDeliveries(Jitter.Armed(n'), framesPerPacket, decrypt, inputs, k);
    Runs.TurnsDoNotMatter(n, turns, Jitter.MAX_LEAD, OpsOf(decrypt, inputs));
    Runs.TurnsDoNotMatter(n, turns, Jitter.MAX_LEAD, OpsOf(decrypt, inputs[..k]));
    var r0, r0' := Runs.RunOf(Jitter.Armed(n), Jitter.MAX_LEAD, OpsOf(decrypt, inputs[..k])),
                   Runs.RunOf(Jitter.Armed(n'), Jitter.MAX_LEAD, OpsOf(decrypt, inputs[..k]));
    var r, r' := Runs.RunOf(Jitter.Armed(n), Jitter.MAX_LEAD, OpsOf(decrypt, inputs)),
                 Runs.RunOf(Jitter.Armed(n'), Jitter.MAX_LEAD, OpsOf(decrypt, inputs));
    SameOnWire(r0.out, r0'.out);
    CommandsOfWire(r0.out, r0'.out, None, framesPerPacket);
    FollowAlike(TaskOf(Jitter.Armed(n), framesPerPacket, decrypt, inputs), r,
                TaskOf(Jitter.Armed(n'), framesPerPacket, decrypt, inputs), r',
                framesPerPacket, CommandsOf(r0.out, None, framesPerPacket), |r0.out|);
  }

  lemma FollowAlike(t: Task, r: Runs.Run, t': Task, r': Runs.Run, framesPerPacket: u32,
                    early: seq<Player.Command>, m: nat)
    requires Follows(t, r, framesPerPacket, early, m) && Follows(t', r', framesPerPacket, early, m)
    requires t.anchor == t'.anchor && Jitter.AllOnWire(r.out) == Jitter.AllOnWire(r'.out)
    ensures t.commands == t'.commands
  {
    hide Jitter.AllOnWire, CommandsOf;
    WireFrom(r.out, r'.out, m);
    CommandsOfWire(r.out[m..], r'.out[m..], t.anchor, framesPerPacket);
  }

  lemma SameOnWire(xs: seq<Jitter.Delivery>, ys: seq<Jitter.Delivery>)
    requires Jitter.AllOnWire(xs) == Jitter.AllOnWire(ys)
    ensures |xs| == |ys|
  {
    assert |Jitter.AllOnWire(xs)| == |xs| && |Jitter.AllOnWire(ys)| == |ys|;
  }

  lemma WireFrom(xs: seq<Jitter.Delivery>, ys: seq<Jitter.Delivery>, m: nat)
    requires Jitter.AllOnWire(xs) == Jitter.AllOnWire(ys) && m <= |xs|
    ensures |xs| == |ys| && Jitter.AllOnWire(xs[m..]) == Jitter.AllOnWire(ys[m..])
  {
    SameOnWire(xs, ys);
    assert Jitter.AllOnWire(xs[m..]) == Jitter.AllOnWire(xs)[m..];
    assert Jitter.AllOnWire(ys[m..]) == Jitter.AllOnWire(ys)[m..];
  }

  /** Whichever way delivery came to start at `n`, the commands are those of a
      task armed there. */
  lemma StartedAt(start: Jitter.Buffer, n: int, framesPerPacket: u32, decrypt: Frame -> Frame, inputs: seq<Input>)
    requires FlushFree(inputs) && StartsAt(start, inputs, n)
    ensures TaskOf(start, framesPerPacket, decrypt, inputs).commands
         == TaskOf(Jitter.Armed(n), framesPerPacket, decrypt, inputs).commands
  {
    hide TaskOf, Wrap16, FirstNumber;
    if FirstNumber(inputs) == None {
      TicksDoNothing(start, framesPerPacket, decrypt, inputs);
      TicksDoNothing(Jitter.Armed(n), framesPerPacket, decrypt, inputs);
    } else if start.Idle? {
      IdleActsArmed(framesPerPacket, decrypt, inputs, Wrap16(n));
      WrapTwice(n);
      ArmedAlike(Wrap16(n), n, framesPerPacket, decrypt, inputs);
    } else {
      ArmedAlike(start.next, n, framesPerPacket, decrypt, inputs);
    }
  }

  lemma WrapTwice(n: int)
    ensures Wrap16(Wrap16(n)) == Wrap16(n)
  {
  }

  lemma ArmedAlike(m: int, n: int, framesPerPacket: u32, decrypt: Frame -> Frame, inputs: seq<Input>)
    requires FlushFree(inputs) && Wrap16(m) == Wrap16(n)
    ensures TaskOf(Jitter.Armed(m), framesPerPacket, decrypt, inputs).commands
         == TaskOf(Jitter.Armed(n), framesPerPacket, decrypt, inputs).commands
  {
    hide TaskOf, Wrap16;
    var turns := TurnsBetween(m, n);
    ArmedAtAnyTurn(m, turns, framesPerPacket, decrypt, inputs);
  }

  // ----- The timeline -----

  /** The first audio packet, at `k` if there is one, is the sender's for position
      `a`, stamped by the sender. */
  ghost predicate AnchoredAt(inputs: seq<Input>, k: nat, base: int, framesPerPacket: u32, a: int) {
    && FlushFree(inputs) && FirstAudioAt(inputs, k)
    && (k < |inputs| ==> AnchorAt(inputs, k) == SenderAnchor(base, framesPerPacket, a))
  }

  /** The stamp of the command for position `p`: 0 before any audio packet was heard;
      then taken from the anchor at `a`, and the sender's own where that is exact. */
  predicate IsStamped(c: Player.Command, early: bool, base: int, framesPerPacket: u32, a: int, p: int) {
    && (c.Frame? || c.Silence?)
    && if early then c.ts == 0
       else && c.ts == SenderTs(base, framesPerPacket, a + Ahead(p, a))
            && (c.ts == SenderTs(base, framesPerPacket, p) <==> StampIsExact(framesPerPacket, a, p))
  }

  lemma StampsCommand(d: Jitter.Delivery, early: bool, base: int, framesPerPacket: u32, a: int)
    ensures var anchor := if early then None else SenderAnchor(base, framesPerPacket, a);
            IsStamped(CommandOf(d, anchor, framesPerPacket), early, base, framesPerPacket, a, d.pos)
  {
    StampOf(base, framesPerPacket, a, d.pos);
    StampExactIff(base, framesPerPacket, a, d.pos);
    hide SenderTs, Ahead, StampIsExact, Wrap16, SenderAnchor;
    if early {
      assert DeriveTs(Wrap16(d.pos), None, framesPerPacket) == 0;
    }
  }

  lemma StartIsNotLive(start: Jitter.Buffer, inputs: seq<Input>, n: int)
    requires StartsAt(start, inputs, n)
    ensures !start.Live?
  {
  }

  /** For every list of inputs between flushes, idle or armed at its start: the
      i-th command is for the i-th position from `n`. Emitted before the first
      audio packet it is stamped 0. Emitted later it is stamped from that packet,
      and carries the sender's own timestamp exactly if `StampIsExact` says so of
      its position. */
  lemma TimelineExact(
      start: Jitter.Buffer, n: int, a: int, base: int, framesPerPacket: u32, decrypt: Frame -> Frame,
      inputs: seq<Input>, k: nat, i: nat)
    requires StartsAt(start, inputs, n) && AnchoredAt(inputs, k, base, framesPerPacket, a)
    requires i < |TaskOf(start, framesPerPacket, decrypt, inputs).commands|
    ensures var early := i < |TaskOf(start, framesPerPacket, decrypt, inputs[..k]).commands|;
            var c := TaskOf(start, framesPerPacket, decrypt, inputs).commands[i];
            (early || k < |inputs|) && IsStamped(c, early, base, framesPerPacket, a, n + i)
  {
    hide TaskOf, Runs.RunOf, OpsOf, SenderAnchor, StartsAt, IsStamped, CommandOf;
    assert start == Jitter.Idle || start.Armed? by { StartIsNotLive(start, inputs, n); }
    StartedAt(start, n, framesPerPacket, decrypt, inputs);
    CommandAt(start, framesPerPacket, decrypt, inputs, k, i);
    CommandAt(Jitter.Armed(n), framesPerPacket, decrypt, inputs, k, i);
    StartsAtPrefix(start, inputs, n, k);
    StartedAt(start, n, framesPerPacket, decrypt, inputs[..k]);
    OpsAreResetFree(decrypt, inputs);
    Runs.DeliveredExactlyOnce(n, Jitter.MAX_LEAD, OpsOf(decrypt, inputs));
    var out := Runs.RunOf(Jitter.Armed(n), Jitter.MAX_LEAD, OpsOf(decrypt, inputs)).out;
    assert out[i].pos == n + i;
    if k == |inputs| {
      assert inputs[..k] == inputs;
    }
    var early := i < |TaskOf(start, framesPerPacket, decrypt, inputs[..k]).commands|;
    StampsCommand(out[i], early, base, framesPerPacket, a);
  }

  lemma {:induction false} FirstNumberPrefix(inputs: seq<Input>, k: nat)
    requires k <= |inputs|
    ensures FirstNumber(inputs[..k]).Some? ==> FirstNumber(inputs[..k]) == FirstNumber(inputs)
  {
    if k == |inputs| {
      assert inputs[..k] == inputs;
    } else {
      var init := inputs[..|inputs| - 1];
      assert init[..k] == inputs[..k];
      FirstNumberPrefix(init, k);
    }
  }

  lemma StartsAtPrefix(start: Jitter.Buffer, inputs: seq<Input>, n: int, k: nat)
    requires StartsAt(start, inputs, n) && k <= |inputs|
    ensures StartsAt(start, inputs[..k], n)
  {
    FirstNumberPrefix(inputs, k);
  }

  predicate IsOnePacketOn(framesPerPacket: u32, c: Player.Command, c': Player.Command) {
    (c.Frame? || c.Silence?) && (c'.Frame? || c'.Silence?) && c'.ts == Wrap32(c.ts + framesPerPacket)
  }

  predicate AdvancesByPacket(framesPerPacket: u32, a: int, p: int) {
    || 0 <= SeqDiff(Wrap16(p), Wrap16(a)) < 0x7FFF
    || Wrap32((Ahead(p + 1, a) - Ahead(p, a) - 1) * framesPerPacket) == 0
  }

  /** From one stamped command to the next the stamp advances by the circle
      distances' difference: by exactly one packet from the anchor to 32766
      positions past it on every turn, otherwise only where the excess wraps. */
  lemma TimelineIsProgression(
      start: Jitter.Buffer, n: int, a: int, base: int, framesPerPacket: u32, decrypt: Frame -> Frame,
      inputs: seq<Input>, k: nat, i: nat)
    requires StartsAt(start, inputs, n) && AnchoredAt(inputs, k, base, framesPerPacket, a)
    requires |TaskOf(start, framesPerPacket, decrypt, inputs[..k]).commands| <= i
    requires i + 1 < |TaskOf(start, framesPerPacket, decrypt, inputs).commands|
    ensures var cs := TaskOf(start, framesPerPacket, decrypt, inputs).commands;
            IsOnePacketOn(framesPerPacket, cs[i], cs[i + 1]) <==> AdvancesByPacket(framesPerPacket, a, n + i)
  {
    hide TaskOf, AnchoredAt, StartsAt, StampIsExact, SenderTs, Ahead, SeqDiff, Wrap16, Wrap32, AdvancesByPacket;
    TimelineExact(start, n, a, base, framesPerPacket, decrypt, inputs, k, i);
    TimelineExact(start, n, a, base, framesPerPacket, decrypt, inputs, k, i + 1);
    AdvanceIff(base, framesPerPacket, a, n + i);
  }

  lemma AdvanceIff(base: int, framesPerPacket: u32, a: int, p: int)
    ensures SenderTs(base, framesPerPacket, a + Ahead(p + 1, a))
         == Wrap32(SenderTs(base, framesPerPacket, a + Ahead(p, a)) + framesPerPacket)
        <==> AdvancesByPacket(framesPerPacket, a, p)
  {
    var ahead, ahead' := Ahead(p, a), Ahead(p + 1, a);
    SenderTsNext(base, framesPerPacket, a + ahead);
    SameStampIff(base, framesPerPacket, a + ahead', a + ahead + 1);
    assert (a + ahead') - (a + ahead + 1) == ahead' - ahead - 1;
    AheadNext(p, a);
    hide SenderTs, Ahead, SeqDiff, Wrap16;
    if ahead' == ahead + 1 {
      assert (ahead' - ahead - 1) * framesPerPacket == 0;
    }
  }

  lemma AheadNext(p: int, a: int)
    ensures 0 <= SeqDiff(Wrap16(p), Wrap16(a)) < 0x7FFF ==> Ahead(p + 1, a) == Ahead(p, a) + 1
  {
    var d := SeqDiff(Wrap16(p), Wrap16(a));
    if 0 <= d < 0x7FFF {
      SeqDiffReaches(Wrap16(p), a);
      assert Wrap16(a + d) == Wrap16(p);
      Wrap16Next(p);
      Wrap16Next(a + d);
      SeqDiffIsDistance(a + d + 1, a);
    }
  }

  lemma SenderTsNext(base: int, framesPerPacket: u32, p: int)
    ensures SenderTs(base, framesPerPacket, p + 1) == Wrap32(SenderTs(base, framesPerPacket, p) + framesPerPacket)
  {
    Distributes(p, 1, framesPerPacket);
    Wrap32Add(base + p * framesPerPacket, framesPerPacket);
  }

  /** While no audio packet has been heard, retransmits are delivered with
      timestamp 0, whatever the sender stamped them with; and the commands keep it
      when the anchor comes. */
  lemma ResentBeforeAudioStampedZero(
      start: Jitter.Buffer, framesPerPacket: u32, decrypt: Frame -> Frame, inputs: seq<Input>, k: nat, i: nat)
    requires Jitter.Valid(start) && FlushFree(inputs) && FirstAudioAt(inputs, k)
    requires i < |TaskOf(start, framesPerPacket, decrypt, inputs[..k]).commands|
    ensures var cs := TaskOf(start, framesPerPacket, decrypt, inputs).commands;
            i < |cs| && (cs[i].Frame? || cs[i].Silence?) && cs[i].ts == 0
  {
    hide TaskOf, Runs.RunOf, OpsOf;
    CommandAt(start, framesPerPacket, decrypt, inputs, k, i);
  }

  /** So even the anchor's own position can be stamped 0: its retransmit was heard
      first. */
  lemma ZeroStampWitness(n: u16, ts: u32, framesPerPacket: u32, decrypt: Frame -> Frame, payload: Frame)
    ensures var t := TaskOf(Jitter.Idle, framesPerPacket, decrypt, [Resent(n, payload), Audio(n, ts, payload)]);
            t.anchor == Some(Anchor(n, ts)) && t.commands == [Player.Frame(0, decrypt(payload))]
  {
    var first, both := [Resent(n, payload)], [Resent(n, payload), Audio(n, ts, payload)];
    assert first[..0] == [] && both[..1] == first;
    var live := Jitter.Live(n, n, map[n := decrypt(payload)]);
    var after := Jitter.Advance(live);
    assert Jitter.PopReady(after, Jitter.MAX_LEAD) == Jitter.Popped(after, []);
    assert Jitter.PopReady(live, Jitter.MAX_LEAD) == Jitter.Popped(after, [Jitter.Packet(n, decrypt(payload))]);
    assert TaskOf(Jitter.Idle, framesPerPacket, decrypt, first).commands == [Player.Frame(0, decrypt(payload))];
    assert SeqDiff(n, Wrap16(n + 1)) < 0;
    assert Jitter.Insert(after, Jitter.Place(after, n), decrypt(payload)) == after;
  }

  // ----- Service ticks -----

  function WithoutTicks(inputs: seq<Input>): seq<Input> {
    if inputs == [] then []
    else
      var last := inputs[|inputs| - 1];
      WithoutTicks(inputs[..|inputs| - 1]) + if last.Service? then [] else [last]
  }

  lemma NothingToRelease(b: Jitter.Buffer)
    requires Jitter.Valid(b) && Runs.Settled(b, Jitter.MAX_LEAD)
    ensures Jitter.PopReady(b, Jitter.MAX_LEAD) == Jitter.Popped(b, [])
  {
  }

  /** What a step emits and leaves in the buffer depends on buffer and anchor. */
  lemma StepAlike(t: Task, t': Task, framesPerPacket: u32, decrypt: Frame -> Frame, input: Input)
    requires Jitter.Valid(t.buffer) && !input.Service?
    requires t.buffer == t'.buffer && t.anchor == t'.anchor && t.commands == t'.commands
    ensures var s, s' := Step(t, framesPerPacket, decrypt, input), Step(t', framesPerPacket, decrypt, input);
            && s.buffer == s'.buffer && s.anchor == s'.anchor && s.commands == s'.commands
            && Runs.Settled(s.buffer, Jitter.MAX_LEAD)
  {
    hide CommandsOf, Jitter.PopReady, Jitter.Insert, Jitter.Place;
    if IsPacket(input) {
      Runs.PopSettles(Store(t, input.number, decrypt(input.payload)).buffer, Jitter.MAX_LEAD);
    }
  }

  lemma TickIsSilent(t: Task, framesPerPacket: u32, decrypt: Frame -> Frame, now: nat)
    requires Jitter.Valid(t.buffer) && Runs.Settled(t.buffer, Jitter.MAX_LEAD)
    ensures var s := Step(t, framesPerPacket, decrypt, Service(now));
            s.buffer == t.buffer && s.anchor == t.anchor && s.commands == t.commands
  {
    NothingToRelease(t.buffer);
    NoCommands(t.anchor, framesPerPacket);
  }

  /** Service ticks, wherever they fall, change nothing the player sees: every
      arrival has already released what it could. */
  lemma {:induction false} TicksAreSilent(
      start: Jitter.Buffer, framesPerPacket: u32, decrypt: Frame -> Frame, inputs: seq<Input>)
    requires !start.Live?
    ensures var t := TaskOf(start, framesPerPacket, decrypt, inputs);
            var t' := TaskOf(start, framesPerPacket, decrypt, WithoutTicks(inputs));
            && t.buffer == t'.buffer && t.anchor == t'.anchor && t.commands == t'.commands
            && Runs.Settled(t.buffer, Jitter.MAX_LEAD)
  {
    if inputs != [] {
      hide Step, Runs.Settled;
      var init, last := inputs[..|inputs| - 1], inputs[|inputs| - 1];
      TicksAreSilent(start, framesPerPacket, decrypt, init);
      var t := TaskOf(start, framesPerPacket, decrypt, init);
      var rest := WithoutTicks(init);
      if last.Service? {
        TickIsSilent(t, framesPerPacket, decrypt, last.now);
        assert WithoutTicks(inputs) == rest;
      } else {
        StepAlike(t, TaskOf(start, framesPerPacket, decrypt, rest), framesPerPacket, decrypt, last);
        assert (rest + [last])[..|rest + [last]| - 1] == rest;
      }
    } else {
      assert Runs.Settled(start, Jitter.MAX_LEAD);
    }
  }

  // ----- Flushes -----

  function Prepend(commands: seq<Player.Command>, requests: seq<ResendRequest>, t: Task): Task {
    t.(commands := commands + t.commands, requests := requests + t.requests)
  }

  /** A flush starts over: the audio task then behaves as a fresh one whose buffer is
      armed where the flush says. */
  lemma {:induction false} FlushStartsOver(
      start: Jitter.Buffer, framesPerPacket: u32, decrypt: Frame -> Frame,
      before: seq<Input>, to: Option<u16>, after: seq<Input>)
    requires Jitter.Valid(start)
    ensures var t := TaskOf(start, framesPerPacket, decrypt, before);
            TaskOf(start, framesPerPacket, decrypt, before + [Flush(to)] + after)
            == Prepend(t.commands + [Player.Flush], t.requests,
                       TaskOf(Jitter.Reset(to), framesPerPacket, decrypt, after))
  {
    hide Step, Prepend;
    var all := before + [Flush(to)] + after;
    var t := TaskOf(start, framesPerPacket, decrypt, before);
    if after == [] {
      assert all == before + [Flush(to)] && all[..|before|] == before;
      FlushIsFresh(t, framesPerPacket, decrypt, to);
    } else {
      var init := after[..|after| - 1];
      FlushStartsOver(start, framesPerPacket, decrypt, before, to, init);
      assert all[..|all| - 1] == before + [Flush(to)] + init;
      StepIsLocal(TaskOf(Jitter.Reset(to), framesPerPacket, decrypt, init), framesPerPacket, decrypt,
                  after[|after| - 1], t.commands + [Player.Flush], t.requests);
    }
  }

  /** Where a flush makes delivery start: at its number, or without one at the
      first number heard after it. What follows is what a task armed there does,
      and nothing as long as there is none. */
  lemma FlushStartsAt(
      start: Jitter.Buffer, framesPerPacket: u32, decrypt: Frame -> Frame,
      before: seq<Input>, to: Option<u16>, after: seq<Input>)
    requires Jitter.Valid(start) && FlushFree(after)
    ensures var t := TaskOf(start, framesPerPacket, decrypt, before);
            var all := TaskOf(start, framesPerPacket, decrypt, before + [Flush(to)] + after);
            match if to.Some? then to else FirstNumber(after)
            case Some(n) =>
              var armed := TaskOf(Jitter.Armed(n), framesPerPacket, decrypt, after);
              && all.commands == t.commands + [Player.Flush] + armed.commands
              && all.requests == t.requests + armed.requests
            case None =>
              all.commands == t.commands + [Player.Flush] && all.requests == t.requests
  {
    FlushStartsOver(start, framesPerPacket, decrypt, before, to, after);
    hide TaskOf;
    if to.None? {
      match FirstNumber(after)
      case Some(n) => IdleActsArmed(framesPerPacket, decrypt, after, n);
      case None =>
        TicksDoNothing(Jitter.Idle, framesPerPacket, decrypt, after);
        var t := TaskOf(start, framesPerPacket, decrypt, before);
        assert t.requests + [] == t.requests && (t.commands + [Player.Flush]) + [] == t.commands + [Player.Flush];
    }
  }

  lemma FlushIsFresh(t: Task, framesPerPacket: u32, decrypt: Frame -> Frame, to: Option<u16>)
    requires Jitter.Valid(t.buffer)
    ensures Step(t, framesPerPacket, decrypt, Flush(to))
         == Prepend(t.commands + [Player.Flush], t.requests, Task(Jitter.Reset(to), None, map[], [], []))
  {
  }

  /** A step only appends to what has been emitted. */
  lemma StepIsLocal(t: Task, framesPerPacket: u32, decrypt: Frame -> Frame, input: Input,
                    commands: seq<Player.Command>, requests: seq<ResendRequest>)
    requires Jitter.Valid(t.buffer)
    ensures Step(Prepend(commands, requests, t), framesPerPacket, decrypt, input)
         == Prepend(commands, requests, Step(t, framesPerPacket, decrypt, input))
  {
    hide CommandsOf, RequestsAt, Jitter.PopReady, Jitter.Insert, Jitter.Place;
    var s := Step(t, framesPerPacket, decrypt, input);
    var s' := Step(Prepend(commands, requests, t), framesPerPacket, decrypt, input);
    assert s'.commands == commands + s.commands;
    assert s'.requests == requests + s.requests;
  }
}
