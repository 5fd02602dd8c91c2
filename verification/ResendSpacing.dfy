/** How far apart the audio task's requests for one sequence number are. A number
    stands for one position as long as the front moves less than a turn of the
    16-bit circle; after that it stands for another. */
module ResendSpacing {
  import opened Numbers
  import Jitter = JitterModel
  import Runs = JitterRuns
  import opened AudioTask
  import opened Resend
  import opened TaskRequests

  // ----- Gaps do not come back -----

  /** `b'` is `b` some inputs later: it has moved on, and what is still ahead of
      its front stays stored. */
  ghost predicate Later(b: Jitter.Buffer, b': Jitter.Buffer) {
    b.Live? ==>
      && b'.Live? && b.next <= b'.next && b.high <= b'.high
      && forall p :: p in b.held && b'.next <= p ==> p in b'.held
  }

  lemma LaterStill(a: Jitter.Buffer, b: Jitter.Buffer, c: Jitter.Buffer)
    requires Later(a, b) && Later(b, c)
    ensures Later(a, c)
  {
  }

  lemma InsertIsLater(b: Jitter.Buffer, p: int, frame: Frame)
    requires Jitter.Valid(b)
    ensures var b' := Jitter.Insert(b, p, frame);
            Later(b, b') && (b.Live? ==> b'.next == b.next)
  {
  }

  lemma {:induction false} PopIsLater(b: Jitter.Buffer, maxLead: nat)
    requires Jitter.Valid(b)
    ensures var r := Jitter.PopReady(b, maxLead);
            Later(b, r.buffer) && (b.Live? ==> r.buffer.next == b.next + |r.out|)
    decreases if b.Live? then b.high + 1 - b.next else 0
  {
    if Jitter.Front(b, maxLead).Some? {
      PopIsLater(Jitter.Advance(b), maxLead);
    }
  }

  /** One input on: nothing emitted is taken back, and the front moves by one
      position per command. */
  ghost predicate MovedOn(t: Task, t': Task) {
    && Later(t.buffer, t'.buffer)
    && |t.commands| <= |t'.commands| && t.requests <= t'.requests
    && (t.buffer.Live? ==> t'.buffer.next - t.buffer.next == |t'.commands| - |t.commands|)
  }

  lemma StepMovesOn(t: Task, framesPerPacket: u32, decrypt: Frame -> Frame, input: Input)
    requires Jitter.Valid(t.buffer) && !input.Flush?
    ensures MovedOn(t, Step(t, framesPerPacket, decrypt, input))
  {
    hide Jitter.PopReady, Jitter.Insert, Jitter.Place, Later, Resend.Serve;
    var b := t.buffer;
    if IsPacket(input) {
      var frame := decrypt(input.payload);
      b := Jitter.Insert(t.buffer, Jitter.Place(t.buffer, input.number), frame);
      InsertIsLater(t.buffer, Jitter.Place(t.buffer, input.number), frame);
    } else {
      SameIsLater(b);
    }
    var popped := Jitter.PopReady(b, Jitter.MAX_LEAD);
    PopIsLater(b, Jitter.MAX_LEAD);
    LaterStill(t.buffer, b, popped.buffer);
    if t.buffer.Live? {
      LaterIsLive(t.buffer, b);
    }
  }

  lemma SameIsLater(b: Jitter.Buffer)
    ensures Later(b, b)
  {
  }

  lemma LaterIsLive(b: Jitter.Buffer, b': Jitter.Buffer)
    requires Later(b, b') && b.Live?
    ensures b'.Live?
  {
  }

  lemma {:induction false} RunMovesOn(
      start: Jitter.Buffer, framesPerPacket: u32, decrypt: Frame -> Frame, inputs: seq<Input>, i: nat)
    requires Jitter.Valid(start) && FlushFree(inputs) && i <= |inputs|
    ensures MovedOn(TaskOf(start, framesPerPacket, decrypt, inputs[..i]),
                    TaskOf(start, framesPerPacket, decrypt, inputs))
  {
    hide Step;
    if i == |inputs| {
      assert inputs[..i] == inputs;
      SameIsLater(TaskOf(start, framesPerPacket, decrypt, inputs).buffer);
    } else {
      var init := inputs[..|inputs| - 1];
      assert init[..i] == inputs[..i];
      RunMovesOn(start, framesPerPacket, decrypt, init, i);
      var t := TaskOf(start, framesPerPacket, decrypt, init);
      StepMovesOn(t, framesPerPacket, decrypt, inputs[|inputs| - 1]);
      MovedFurther(TaskOf(start, framesPerPacket, decrypt, inputs[..i]), t,
                   TaskOf(start, framesPerPacket, decrypt, inputs));
    }
  }

  lemma MovedFurther(t: Task, t': Task, t'': Task)
    requires MovedOn(t, t') && MovedOn(t', t'')
    ensures MovedOn(t, t'')
  {
    LaterStill(t.buffer, t'.buffer, t''.buffer);
    if t.buffer.Live? {
      LaterIsLive(t.buffer, t'.buffer);
    }
  }

  lemma SplitMovesOn(
      start: Jitter.Buffer, framesPerPacket: u32, decrypt: Frame -> Frame, inputs: seq<Input>, i: nat, j: nat)
    requires Jitter.Valid(start) && FlushFree(inputs) && i <= j <= |inputs|
    ensures MovedOn(TaskOf(start, framesPerPacket, decrypt, inputs[..i]),
                    TaskOf(start, framesPerPacket, decrypt, inputs[..j]))
  {
    hide MovedOn, TaskOf;
    assert inputs[..j][..i] == inputs[..i];
    RunMovesOn(start, framesPerPacket, decrypt, inputs[..j], i);
  }

  /** A position missing at two times is missing at every time between. */
  lemma MissingBetween(b: Jitter.Buffer, b': Jitter.Buffer, b'': Jitter.Buffer, p: int)
    requires Jitter.Valid(b) && Jitter.Valid(b') && Jitter.Valid(b'')
    requires Later(b, b') && Later(b', b'')
    requires p in Jitter.Missing(b) && p in Jitter.Missing(b'')
    ensures p in Jitter.Missing(b')
  {
    Runs.MissingIsExact(b);
    Runs.MissingIsExact(b'');
    Runs.MissingIsExact(b');
  }

  // ----- The positions a report can list -----

  /** A report spans at most 127 positions, so for less than a turn but 127 of front
      travel a number keeps its position. */
  const LESS_THAN_A_TURN: nat := 0x1_0000 - (Jitter.MAX_LEAD - 1)

  lemma SameNumberSamePosition(b: Jitter.Buffer, b': Jitter.Buffer, p: int, q: int)
    requires Jitter.Valid(b) && Jitter.Valid(b') && b.Live? && b'.Live?
    requires Runs.Settled(b, Jitter.MAX_LEAD) && Runs.Settled(b', Jitter.MAX_LEAD)
    requires p in Jitter.Missing(b) && q in Jitter.Missing(b') && Wrap16(p) == Wrap16(q)
    requires b.next <= b'.next <= b.next + LESS_THAN_A_TURN
    ensures p == q
  {
    Runs.MissingIsExact(b);
    Runs.MissingIsExact(b');
    var turns := TurnsBetween(p, q);
    assert -0x1_0000 < 0x1_0000 * turns < 0x1_0000;
  }

  // ----- Ticks and inputs -----

  lemma {:induction false} TicksGrow(
      start: Jitter.Buffer, framesPerPacket: u32, decrypt: Frame -> Frame, inputs: seq<Input>, i: nat)
    requires Jitter.Valid(start) && i <= |inputs|
    ensures TicksOf(start, framesPerPacket, decrypt, inputs[..i]) <= TicksOf(start, framesPerPacket, decrypt, inputs)
  {
    hide GapsSeen, TaskOf;
    if i == |inputs| {
      assert inputs[..i] == inputs;
    } else {
      var init := inputs[..|inputs| - 1];
      assert init[..i] == inputs[..i];
      TicksGrow(start, framesPerPacket, decrypt, init, i);
    }
  }

  /** Tick `i` is the input at `k`. */
  ghost predicate TickAt(
      start: Jitter.Buffer, framesPerPacket: u32, decrypt: Frame -> Frame, inputs: seq<Input>, i: nat, k: nat)
    requires Jitter.Valid(start)
  {
    var ticks := TicksOf(start, framesPerPacket, decrypt, inputs);
    && i < |ticks| && k < |inputs| && inputs[k].Service?
    && ticks[i] == Tick(inputs[k].now, GapsSeen(TaskOf(start, framesPerPacket, decrypt, inputs[..k])))
    && |TicksOf(start, framesPerPacket, decrypt, inputs[..k])| == i
    && |TicksOf(start, framesPerPacket, decrypt, inputs[..k + 1])| == i + 1
  }

  lemma {:induction false} TickInput(
      start: Jitter.Buffer, framesPerPacket: u32, decrypt: Frame -> Frame, inputs: seq<Input>, i: nat)
    returns (k: nat)
    requires Jitter.Valid(start) && i < |TicksOf(start, framesPerPacket, decrypt, inputs)|
    ensures TickAt(start, framesPerPacket, decrypt, inputs, i, k)
  {
    hide GapsSeen, TaskOf;
    var init := inputs[..|inputs| - 1];
    if i < |TicksOf(start, framesPerPacket, decrypt, init)| {
      k := TickInput(start, framesPerPacket, decrypt, init, i);
      assert init[..k] == inputs[..k] && init[..k + 1] == inputs[..k + 1];
    } else {
      k := |init|;
      assert inputs[..k] == init && inputs[..k + 1] == inputs;
    }
  }

  lemma TickOrder(
      start: Jitter.Buffer, framesPerPacket: u32, decrypt: Frame -> Frame, inputs: seq<Input>,
      i: nat, k: nat, j: nat, l: nat)
    requires Jitter.Valid(start) && i < j
    requires TickAt(start, framesPerPacket, decrypt, inputs, i, k)
    requires TickAt(start, framesPerPacket, decrypt, inputs, j, l)
    ensures k < l
  {
    hide GapsSeen, TaskOf, TicksOf;
    if l <= k {
      assert inputs[..k][..l] == inputs[..l];
      TicksGrow(start, framesPerPacket, decrypt, inputs[..k], l);
    }
  }

  /** Service ticks carry a clock that does not run backwards. */
  ghost predicate ClockForward(inputs: seq<Input>) {
    forall k, l :: 0 <= k <= l < |inputs| && inputs[k].Service? && inputs[l].Service? ==> inputs[k].now <= inputs[l].now
  }

  lemma TicksForward(start: Jitter.Buffer, framesPerPacket: u32, decrypt: Frame -> Frame, inputs: seq<Input>)
    requires Jitter.Valid(start) && ClockForward(inputs)
    ensures Nondecreasing(TicksOf(start, framesPerPacket, decrypt, inputs))
  {
    hide TicksOf;
    var ticks := TicksOf(start, framesPerPacket, decrypt, inputs);
    forall i, j | 0 <= i <= j < |ticks| ensures ticks[i].now <= ticks[j].now {
      if i < j {
        var k := TickInput(start, framesPerPacket, decrypt, inputs, i);
        var l := TickInput(start, framesPerPacket, decrypt, inputs, j);
        TickOrder(start, framesPerPacket, decrypt, inputs, i, k, j, l);
      }
    }
  }

  /** The buffer a tick leaves is settled, and its report is that buffer's. */
  lemma TickReports(
      start: Jitter.Buffer, framesPerPacket: u32, decrypt: Frame -> Frame, inputs: seq<Input>, i: nat, k: nat)
    requires Jitter.Valid(start) && TickAt(start, framesPerPacket, decrypt, inputs, i, k)
    ensures var b := TaskOf(start, framesPerPacket, decrypt, inputs[..k + 1]).buffer;
            && Jitter.Valid(b) && Runs.Settled(b, Jitter.MAX_LEAD)
            && TicksOf(start, framesPerPacket, decrypt, inputs)[i].missing == Jitter.WrapAll(Jitter.Missing(b))
  {
    assert inputs[..k + 1][..k] == inputs[..k];
    var t := TaskOf(start, framesPerPacket, decrypt, inputs[..k]);
    Runs.PopSettles(t.buffer, Jitter.MAX_LEAD);
    hide Jitter.PopReady, Jitter.Missing, Jitter.WrapAll, CommandsOf, Resend.Serve, RequestsAt, Runs.Settled, TicksOf;
  }

  lemma ListedPosition(b: Jitter.Buffer, number: int) returns (p: int)
    requires number in Jitter.WrapAll(Jitter.Missing(b))
    ensures b.Live? && p in Jitter.Missing(b) && Wrap16(p) == number
  {
    var missing := Jitter.Missing(b);
    var d :| 0 <= d < |missing| && Jitter.WrapAll(missing)[d] == number;
    p := missing[d];
  }

  lemma PositionListed(b: Jitter.Buffer, p: int)
    requires p in Jitter.Missing(b)
    ensures Wrap16(p) in Jitter.WrapAll(Jitter.Missing(b))
  {
    var missing := Jitter.Missing(b);
    var d :| 0 <= d < |missing| && missing[d] == p;
    assert Jitter.WrapAll(missing)[d] == Wrap16(p);
  }

  // ----- The law -----

  /** A request that comes after those of `inputs[..from]` was sent at a tick no
      earlier. */
  lemma SentAfter(
      start: Jitter.Buffer, framesPerPacket: u32, decrypt: Frame -> Frame, inputs: seq<Input>,
      from: nat, x: nat, i: nat, k: nat)
    requires Jitter.Valid(start) && FlushFree(inputs) && from <= |inputs|
    requires |TaskOf(start, framesPerPacket, decrypt, inputs[..from]).requests| <= x
    requires TickAt(start, framesPerPacket, decrypt, inputs, i, k)
    requires SentAt(TicksOf(start, framesPerPacket, decrypt, inputs), x, i)
    ensures from <= k
  {
    hide TaskOf, TicksOf, AskedBy, DueAt, GapsSeen;
    if k < from {
      var ticks := TicksOf(start, framesPerPacket, decrypt, inputs);
      var some := TicksOf(start, framesPerPacket, decrypt, inputs[..k + 1]);
      SplitMovesOn(start, framesPerPacket, decrypt, inputs, k + 1, from);
      TaskServesTicks(start, framesPerPacket, decrypt, inputs[..k + 1]);
      TicksGrow(start, framesPerPacket, decrypt, inputs, k + 1);
      AskedPrefix(some, ticks, i + 1);
      AskedNext(ticks, i);
    }
  }

  /** A position listed at two ticks is listed at every tick between them. */
  lemma ListedBetween(
      start: Jitter.Buffer, framesPerPacket: u32, decrypt: Frame -> Frame, inputs: seq<Input>,
      i: nat, k: nat, j: nat, l: nat, p: int)
    requires Jitter.Valid(start) && FlushFree(inputs) && i < j
    requires TickAt(start, framesPerPacket, decrypt, inputs, i, k)
    requires TickAt(start, framesPerPacket, decrypt, inputs, j, l)
    requires p in Jitter.Missing(TaskOf(start, framesPerPacket, decrypt, inputs[..k + 1]).buffer)
    requires p in Jitter.Missing(TaskOf(start, framesPerPacket, decrypt, inputs[..l + 1]).buffer)
    ensures MissingThroughout(TicksOf(start, framesPerPacket, decrypt, inputs), i, j, Wrap16(p))
  {
    hide TaskOf, TicksOf, TickAt, Later, Jitter.Missing, Jitter.WrapAll, Wrap16;
    var ticks := TicksOf(start, framesPerPacket, decrypt, inputs);
    TickExists(start, framesPerPacket, decrypt, inputs, i, k);
    TickExists(start, framesPerPacket, decrypt, inputs, j, l);
    forall m | i <= m <= j ensures Wrap16(p) in ticks[m].missing {
      var h := TickInput(start, framesPerPacket, decrypt, inputs, m);
      TickExists(start, framesPerPacket, decrypt, inputs, m, h);
      TickReports(start, framesPerPacket, decrypt, inputs, m, h);
      var b := TaskOf(start, framesPerPacket, decrypt, inputs[..h + 1]).buffer;
      if i < m < j {
        TickOrder(start, framesPerPacket, decrypt, inputs, i, k, m, h);
        TickOrder(start, framesPerPacket, decrypt, inputs, m, h, j, l);
        SplitMovesOn(start, framesPerPacket, decrypt, inputs, k + 1, h + 1);
        SplitMovesOn(start, framesPerPacket, decrypt, inputs, h + 1, l + 1);
        MissingBetween(TaskOf(start, framesPerPacket, decrypt, inputs[..k + 1]).buffer, b,
                       TaskOf(start, framesPerPacket, decrypt, inputs[..l + 1]).buffer, p);
      } else if m == i {
        TickUnique(start, framesPerPacket, decrypt, inputs, i, k, h);
      } else {
        TickUnique(start, framesPerPacket, decrypt, inputs, j, l, h);
      }
      PositionListed(b, p);
    }
  }

  lemma TickExists(
      start: Jitter.Buffer, framesPerPacket: u32, decrypt: Frame -> Frame, inputs: seq<Input>, i: nat, k: nat)
    requires Jitter.Valid(start) && TickAt(start, framesPerPacket, decrypt, inputs, i, k)
    ensures k < |inputs| && i < |TicksOf(start, framesPerPacket, decrypt, inputs)|
  {
  }

  lemma TickUnique(
      start: Jitter.Buffer, framesPerPacket: u32, decrypt: Frame -> Frame, inputs: seq<Input>, i: nat, k: nat, h: nat)
    requires Jitter.Valid(start)
    requires TickAt(start, framesPerPacket, decrypt, inputs, i, k)
    requires TickAt(start, framesPerPacket, decrypt, inputs, i, h)
    ensures k == h
  {
    hide GapsSeen, TaskOf, TicksOf;
    if k < h {
      assert inputs[..h][..k + 1] == inputs[..k + 1];
      TicksGrow(start, framesPerPacket, decrypt, inputs[..h], k + 1);
    } else if h < k {
      assert inputs[..k][..h + 1] == inputs[..h + 1];
      TicksGrow(start, framesPerPacket, decrypt, inputs[..k], h + 1);
    }
  }

  /** Between flushes, in any stretch of the inputs over which the player is sent at
      most 65409 commands, requests for the same number are at least 80 ms apart. */
  lemma RequestsAreApart(
      start: Jitter.Buffer, framesPerPacket: u32, decrypt: Frame -> Frame, inputs: seq<Input>,
      from: nat, x: nat, y: nat)
    requires Jitter.Valid(start) && FlushFree(inputs) && ClockForward(inputs) && from <= |inputs|
    requires var t := TaskOf(start, framesPerPacket, decrypt, inputs);
             var t0 := TaskOf(start, framesPerPacket, decrypt, inputs[..from]);
             && |t.commands| - |t0.commands| <= 65409
             && |t0.requests| <= x < y < |t.requests| && t.requests[x].number == t.requests[y].number
    ensures var requests := TaskOf(start, framesPerPacket, decrypt, inputs).requests;
            requests[y].at - requests[x].at >= 80_000_000
  {
    hide TaskOf, TicksOf, SentAt, AskedBy, TickAt, Runs.Settled, Later, Jitter.Missing, Jitter.WrapAll;
    TaskServesTicks(start, framesPerPacket, decrypt, inputs);
    TicksForward(start, framesPerPacket, decrypt, inputs);
    var ticks := TicksOf(start, framesPerPacket, decrypt, inputs);
    var i := TickOf(ticks, |ticks|, x);
    var j := TickOf(ticks, |ticks|, y);
    SentIsRequested(ticks, x, i);
    SentIsRequested(ticks, y, j);
    SentInOrder(ticks, x, y, i, j);
    var number := AskedBy(ticks, |ticks|)[x].number;
    var k := TickInput(start, framesPerPacket, decrypt, inputs, i);
    var l := TickInput(start, framesPerPacket, decrypt, inputs, j);
    TickOrder(start, framesPerPacket, decrypt, inputs, i, k, j, l);
    TickExists(start, framesPerPacket, decrypt, inputs, j, l);
    SentAfter(start, framesPerPacket, decrypt, inputs, from, x, i, k);
    TickReports(start, framesPerPacket, decrypt, inputs, i, k);
    TickReports(start, framesPerPacket, decrypt, inputs, j, l);
    var b := TaskOf(start, framesPerPacket, decrypt, inputs[..k + 1]).buffer;
    var b' := TaskOf(start, framesPerPacket, decrypt, inputs[..l + 1]).buffer;
    RequestedIsMissing(ticks, i, number);
    RequestedIsMissing(ticks, j, number);
    var p := ListedPosition(b, number);
    var q := ListedPosition(b', number);
    SplitMovesOn(start, framesPerPacket, decrypt, inputs, from, k + 1);
    SplitMovesOn(start, framesPerPacket, decrypt, inputs, k + 1, l + 1);
    RunMovesOn(start, framesPerPacket, decrypt, inputs, l + 1);
    SameNumberSamePosition(b, b', p, q);
    ListedBetween(start, framesPerPacket, decrypt, inputs, i, k, j, l, p);
    Resend.RequestsAreSpaced(ticks, i, j, number);
  }

  lemma RequestedIsMissing(ticks: seq<Tick>, i: nat, number: int)
    requires i < |ticks| && Requested(ticks, i, number)
    ensures number in ticks[i].missing
  {
    RequestedComesFrom(Retain(Before(ticks, i), ticks[i].missing), ticks[i].missing, ticks[i].now, number);
  }

  lemma {:induction false} RequestedComesFrom(last: map<int, nat>, missing: seq<int>, now: nat, number: int)
    ensures number in ServeAll(last, missing, now).due ==> number in missing
  {
    if missing != [] {
      RequestedComesFrom(last, missing[..|missing| - 1], now, number);
    }
  }

  // ----- The bound is tight -----

  /** Stalled as far as it goes: one packet, 127 past the front. */
  ghost predicate FullStall(b: Jitter.Buffer, f: int) {
    b.Live? && b.next == f && b.high == f + 127 && b.held.Keys == {f + 127}
  }

  function Kept(held: map<int, Frame>, from: int): map<int, Frame> {
    map p | p in held && p >= from :: held[p]
  }

  /** A release runs up to 127 positions from the highest stored one, if it finds
      nothing there. */
  lemma {:induction false} PopsUpTo(b: Jitter.Buffer, w: int)
    requires Jitter.Valid(b) && b.Live? && b.next <= w && b.high == w + 127 && w !in b.held
    ensures Jitter.PopReady(b, Jitter.MAX_LEAD).buffer == Jitter.Live(w, b.high, Kept(b.held, w))
    decreases w - b.next
  {
    if b.next == w {
      assert Kept(b.held, w) == b.held;
    } else {
      PopsUpTo(Jitter.Advance(b), w);
      assert Kept(Jitter.Advance(b).held, w) == Kept(b.held, w);
    }
  }

  lemma Leaps(b: Jitter.Buffer, f: int, travel: nat, frame: Frame)
    requires Jitter.Valid(b) && FullStall(b, f) && 128 <= travel <= 384
    ensures Jitter.Place(b, Wrap16(f + travel + 127)) == f + travel + 127
    ensures FullStall(Jitter.PopReady(Jitter.Insert(b, f + travel + 127, frame), Jitter.MAX_LEAD).buffer, f + travel)
  {
    Runs.PlaceIsPosition(b, f + travel + 127);
    hide Jitter.Place, Wrap16;
    var stored := Jitter.Insert(b, f + travel + 127, frame);
    PopsUpTo(stored, f + travel);
    assert Kept(stored.held, f + travel).Keys == {f + travel + 127};
  }

  lemma LeapStep(t: Task, f: int, travel: nat, framesPerPacket: u32, decrypt: Frame -> Frame, ts: u32, payload: Frame)
    requires Jitter.Valid(t.buffer) && FullStall(t.buffer, f) && 128 <= travel <= 384
    ensures var t' := Step(t, framesPerPacket, decrypt, Audio(Wrap16(f + travel + 127), ts, payload));
            FullStall(t'.buffer, f + travel) && t'.tracked == t.tracked && t'.requests == t.requests
  {
    Leaps(t.buffer, f, travel, decrypt(payload));
    hide Jitter.PopReady, Jitter.Insert, Jitter.Place, FullStall, CommandsOf, Wrap16;
  }

  lemma TaskSnoc(start: Jitter.Buffer, framesPerPacket: u32, decrypt: Frame -> Frame, inputs: seq<Input>, input: Input)
    requires Jitter.Valid(start)
    ensures TaskOf(start, framesPerPacket, decrypt, inputs + [input])
         == Step(TaskOf(start, framesPerPacket, decrypt, inputs), framesPerPacket, decrypt, input)
  {
    hide Step;
    assert (inputs + [input])[..|inputs|] == inputs;
  }

  ghost predicate TicksAtOnly(inputs: seq<Input>, now: nat) {
    forall i :: 0 <= i < |inputs| && inputs[i].Service? ==> inputs[i].now == now
  }

  /** Packets can move a stalled front any distance from 128 on. */
  lemma {:induction false} Walks(
      start: Jitter.Buffer, framesPerPacket: u32, decrypt: Frame -> Frame, inputs: seq<Input>,
      f: int, travel: nat, now: nat, ts: u32, payload: Frame) returns (more: seq<Input>)
    requires Jitter.Valid(start) && FlushFree(inputs) && TicksAtOnly(inputs, now) && travel >= 128
    requires FullStall(TaskOf(start, framesPerPacket, decrypt, inputs).buffer, f)
    ensures inputs <= more && FlushFree(more) && TicksAtOnly(more, now)
    ensures var t, t' := TaskOf(start, framesPerPacket, decrypt, inputs), TaskOf(start, framesPerPacket, decrypt, more);
            FullStall(t'.buffer, f + travel) && t'.tracked == t.tracked && t'.requests == t.requests
    decreases travel
  {
    hide TaskOf, Step, FullStall, Wrap16;
    var leap := if travel <= 384 then travel else if travel < 512 then 256 else 384;
    var audio := Audio(Wrap16(f + leap + 127), ts, payload);
    TaskSnoc(start, framesPerPacket, decrypt, inputs, audio);
    LeapStep(TaskOf(start, framesPerPacket, decrypt, inputs), f, leap, framesPerPacket, decrypt, ts, payload);
    more := inputs + [audio];
    if travel > 384 {
      more := Walks(start, framesPerPacket, decrypt, more, f + leap, travel - leap, now, ts, payload);
    }
  }

  lemma FullStallMisses(b: Jitter.Buffer, f: int, p: int)
    requires Jitter.Valid(b) && FullStall(b, f)
    ensures Jitter.PopReady(b, Jitter.MAX_LEAD).buffer == b
    ensures p in Jitter.Missing(b) <==> f <= p < f + 127
  {
    Runs.MissingIsExact(b);
  }

  /** At a tick in a full stall a number is listed exactly if one of the 127
      positions from the front has it. */
  lemma StallReport(t: Task, f: int, p: int)
    requires Jitter.Valid(t.buffer) && FullStall(t.buffer, f)
    ensures f <= p < f + 127 ==> Wrap16(p) in GapsSeen(t)
    ensures f + 127 <= p < f + 0x1_0000 ==> Wrap16(p) !in GapsSeen(t)
    ensures GapsSeen(t) != []
  {
    var b := t.buffer;
    FullStallMisses(b, f, p);
    FullStallMisses(b, f, f);
    PositionListed(b, f);
    hide FullStall, Jitter.Missing, Jitter.WrapAll, Wrap16;
    if f <= p < f + 127 {
      PositionListed(b, p);
    }
    if f + 127 <= p < f + 0x1_0000 && Wrap16(p) in GapsSeen(t) {
      var q := ListedPosition(b, Wrap16(p));
      FullStallMisses(b, f, q);
      var turns := TurnsBetween(p, q);
    }
  }

  /** A tick at `now`: asks for what is listed and not tracked, and tracks just what
      is listed. */
  lemma TickAsks(t: Task, framesPerPacket: u32, decrypt: Frame -> Frame, now: nat, number: int)
    requires Jitter.Valid(t.buffer) && NotAfter(t.tracked, now) && GapsSeen(t) != []
    ensures var t' := Step(t, framesPerPacket, decrypt, Service(now));
            && NotAfter(t'.tracked, now) && (number in t'.tracked <==> number in GapsSeen(t))
            && t.requests <= t'.requests
            && (number in GapsSeen(t) && number !in t.tracked ==>
                  ResendRequest(now, number) in t'.requests[|t.requests|..])
  {
    TickServed(t, framesPerPacket, decrypt, now);
    DueIsExact(t.tracked, GapsSeen(t), now);
    hide GapsSeen, Step, DueResult;
    var due := DueResult(t.tracked, GapsSeen(t), now).due;
    if number in GapsSeen(t) && number !in t.tracked {
      var d :| 0 <= d < |due| && due[d] == number;
      assert RequestsAt(now, due)[d] == ResendRequest(now, number);
    }
  }

  lemma TickKeepsStall(t: Task, f: int, framesPerPacket: u32, decrypt: Frame -> Frame, now: nat)
    requires Jitter.Valid(t.buffer) && FullStall(t.buffer, f)
    ensures FullStall(Step(t, framesPerPacket, decrypt, Service(now)).buffer, f)
  {
    FullStallMisses(t.buffer, f, f);
    hide FullStall, Jitter.PopReady, CommandsOf, Resend.Serve, GapsSeen;
  }

  /** A tick in a full stall, as the next input. */
  lemma StallTick(
      start: Jitter.Buffer, framesPerPacket: u32, decrypt: Frame -> Frame, inputs: seq<Input>, f: int, now: nat, p: int)
    requires Jitter.Valid(start) && FlushFree(inputs) && TicksAtOnly(inputs, now)
    requires var t := TaskOf(start, framesPerPacket, decrypt, inputs);
             FullStall(t.buffer, f) && NotAfter(t.tracked, now)
    ensures FlushFree(inputs + [Service(now)]) && TicksAtOnly(inputs + [Service(now)], now)
    ensures var t := TaskOf(start, framesPerPacket, decrypt, inputs);
            var t' := TaskOf(start, framesPerPacket, decrypt, inputs + [Service(now)]);
            && FullStall(t'.buffer, f) && NotAfter(t'.tracked, now) && t.requests <= t'.requests
            && (f <= p < f + 127 && Wrap16(p) !in t.tracked ==>
                  ResendRequest(now, Wrap16(p)) in t'.requests[|t.requests|..])
            && (f + 127 <= p < f + 0x1_0000 ==> Wrap16(p) !in t'.tracked)
  {
    hide TaskOf, Step, FullStall, GapsSeen, Wrap16, NotAfter;
    var t := TaskOf(start, framesPerPacket, decrypt, inputs);
    TaskSnoc(start, framesPerPacket, decrypt, inputs, Service(now));
    StallReport(t, f, p);
    TickAsks(t, framesPerPacket, decrypt, now, Wrap16(p));
    TickKeepsStall(t, f, framesPerPacket, decrypt, now);
  }

  lemma StallsAtOnce(n: int, framesPerPacket: u32, decrypt: Frame -> Frame, ts: u32, payload: Frame)
    ensures var t := TaskOf(Jitter.Armed(n), framesPerPacket, decrypt, [Audio(Wrap16(n + 127), ts, payload)]);
            FullStall(t.buffer, n) && t.tracked == map[] && t.requests == []
  {
    var audio := [Audio(Wrap16(n + 127), ts, payload)];
    assert audio[..0] == [];
    Runs.PlaceIsPosition(Jitter.Armed(n), n + 127);
    hide Jitter.Place, Wrap16;
    var live := Jitter.Live(n, n + 127, map[n + 127 := decrypt(payload)]);
    assert Jitter.Insert(Jitter.Armed(n), n + 127, decrypt(payload)) == live;
    assert Jitter.PopReady(live, Jitter.MAX_LEAD) == Jitter.Popped(live, []);
  }

  /** One command more and the spacing can fail: a run without a flush in which,
      from its first packet on, 65410 commands are sent, and one number is asked for
      twice at the same instant, for positions a turn apart. */
  lemma LapAsksTwice(n: int, now: nat, framesPerPacket: u32, decrypt: Frame -> Frame, ts: u32, payload: Frame)
    returns (inputs: seq<Input>, x: nat, y: nat)
    ensures |inputs| > 0 && FlushFree(inputs) && ClockForward(inputs)
    ensures var t := TaskOf(Jitter.Armed(n), framesPerPacket, decrypt, inputs);
            var t0 := TaskOf(Jitter.Armed(n), framesPerPacket, decrypt, inputs[..1]);
            && |t.commands| - |t0.commands| == 65410
            && |t0.requests| <= x < y < |t.requests|
            && t.requests[x] == t.requests[y] == ResendRequest(now, Wrap16(n))
  {
    hide TaskOf, FullStall, Wrap16, NotAfter, Later;
    var start := Jitter.Armed(n);
    var a0 := [Audio(Wrap16(n + 127), ts, payload)];
    StallsAtOnce(n, framesPerPacket, decrypt, ts, payload);
    assert NotAfter(map[], now) by { NothingAfter(now); }
    StallTick(start, framesPerPacket, decrypt, a0, n, now, n);
    var a1 := a0 + [Service(now)];
    var a2 := Walks(start, framesPerPacket, decrypt, a1, n, 200, now, ts, payload);
    Wrap16Turns(n, 1);
    StallTick(start, framesPerPacket, decrypt, a2, n + 200, now, n + 0x1_0000);
    var a3 := a2 + [Service(now)];
    var a4 := Walks(start, framesPerPacket, decrypt, a3, n + 200, 65210, now, ts, payload);
    StallTick(start, framesPerPacket, decrypt, a4, n + 65410, now, n + 0x1_0000);
    inputs := a4 + [Service(now)];
    assert a0 == inputs[..1];
    var r0, r1, r4, r := TaskOf(start, framesPerPacket, decrypt, a0).requests,
                         TaskOf(start, framesPerPacket, decrypt, a1).requests,
                         TaskOf(start, framesPerPacket, decrypt, a4).requests,
                         TaskOf(start, framesPerPacket, decrypt, inputs).requests;
    x, y := TwoPlaces(r1, r4, r, ResendRequest(now, Wrap16(n)), |r0|);
    RunMovesOn(start, framesPerPacket, decrypt, inputs, 1);
    StallFronts(TaskOf(start, framesPerPacket, decrypt, a0), n);
    StallFronts(TaskOf(start, framesPerPacket, decrypt, inputs), n + 65410);
  }

  lemma NothingAfter(now: nat)
    ensures NotAfter(map[], now)
  {
  }

  lemma StallFronts(t: Task, f: int)
    requires FullStall(t.buffer, f)
    ensures t.buffer.Live? && t.buffer.next == f
  {
  }

  lemma TwoPlaces<T>(a: seq<T>, b: seq<T>, c: seq<T>, e: T, from: nat) returns (x: nat, y: nat)
    requires from <= |a| && a <= b <= c && e in a[from..] && e in c[|b|..]
    ensures from <= x < y < |c| && c[x] == c[y] == e
  {
    x :| from <= x < |a| && a[x] == e;
    y :| |b| <= y < |c| && c[y] == e;
  }

  /** Between flushes, the player is sent at most `bound` commands from `from` on. */
  ghost predicate Stretch(
      start: Jitter.Buffer, framesPerPacket: u32, decrypt: Frame -> Frame, inputs: seq<Input>, from: nat, bound: nat)
    requires Jitter.Valid(start)
  {
    && FlushFree(inputs) && ClockForward(inputs) && from <= |inputs|
    && |TaskOf(start, framesPerPacket, decrypt, inputs).commands|
       - |TaskOf(start, framesPerPacket, decrypt, inputs[..from]).commands| <= bound
  }

  /** Requests sent from `from` on for one number keep the backoff. */
  ghost predicate Spaced(
      start: Jitter.Buffer, framesPerPacket: u32, decrypt: Frame -> Frame, inputs: seq<Input>, from: nat)
    requires Jitter.Valid(start) && from <= |inputs|
  {
    var requests := TaskOf(start, framesPerPacket, decrypt, inputs).requests;
    forall x, y :: |TaskOf(start, framesPerPacket, decrypt, inputs[..from]).requests| <= x < y < |requests|
                   && requests[x].number == requests[y].number
                   ==> requests[y].at - requests[x].at >= 80_000_000
  }

  /** A bound on the commands guarantees the spacing exactly if it is at most 65409,
      wherever delivery starts. */
  lemma SpacingIffBelowATurn(n: int, framesPerPacket: u32, decrypt: Frame -> Frame, bound: nat)
    ensures (forall inputs, from :: Stretch(Jitter.Armed(n), framesPerPacket, decrypt, inputs, from, bound) ==>
               Spaced(Jitter.Armed(n), framesPerPacket, decrypt, inputs, from))
        <==> bound <= 65409
  {
    var start := Jitter.Armed(n);
    if bound <= LESS_THAN_A_TURN {
      forall inputs, from | Stretch(start, framesPerPacket, decrypt, inputs, from, bound)
        ensures Spaced(start, framesPerPacket, decrypt, inputs, from)
      {
        StretchIsSpaced(start, framesPerPacket, decrypt, inputs, from, bound);
      }
    } else {
      hide TaskOf;
      var inputs, x, y := LapAsksTwice(n, 0, framesPerPacket, decrypt, 0, []);
      assert Stretch(start, framesPerPacket, decrypt, inputs, 1, bound);
      assert !Spaced(start, framesPerPacket, decrypt, inputs, 1);
    }
  }

  lemma StretchIsSpaced(
      start: Jitter.Buffer, framesPerPacket: u32, decrypt: Frame -> Frame, inputs: seq<Input>, from: nat, bound: nat)
    requires Jitter.Valid(start) && Stretch(start, framesPerPacket, decrypt, inputs, from, bound)
    requires bound <= LESS_THAN_A_TURN
    ensures Spaced(start, framesPerPacket, decrypt, inputs, from)
  {
    hide TaskOf, ClockForward, FlushFree;
    var requests := TaskOf(start, framesPerPacket, decrypt, inputs).requests;
    var earlier := TaskOf(start, framesPerPacket, decrypt, inputs[..from]).requests;
    forall x, y | |earlier| <= x < y < |requests| && requests[x].number == requests[y].number
      ensures requests[y].at - requests[x].at >= 80_000_000
    {
      RequestsAreApart(start, framesPerPacket, decrypt, inputs, from, x, y);
    }
  }
}
