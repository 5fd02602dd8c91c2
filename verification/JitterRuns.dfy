/** Whole runs of the jitter buffer: the ring against the model, and what any
    run delivers. */
module JitterRuns {
  import opened Numbers
  import opened JitterModel
  import JitterRing

  datatype Op = Insert(number: u16, frame: Frame) | PopReady | Reset(start: Option<u16>)

  /** A stored packet, at its unbounded position. */
  datatype Arrival = Arrival(pos: int, frame: Frame)

  /** Everything a run did: the buffer it ended in, what it delivered and what
      it stored, both in order. */
  datatype Run = Run(buffer: Buffer, out: seq<Delivery>, accepted: seq<Arrival>)

  function Step(r: Run, maxLead: nat, op: Op): (r': Run)
    requires Valid(r.buffer)
    ensures Valid(r'.buffer)
  {
    match op
    case Insert(number, frame) =>
      var p := Place(r.buffer, number);
      Run(JitterModel.Insert(r.buffer, p, frame), r.out,
          if Accepts(r.buffer, p) then r.accepted + [Arrival(p, frame)] else r.accepted)
    case PopReady =>
      var popped := JitterModel.PopReady(r.buffer, maxLead);
      Run(popped.buffer, r.out + popped.out, r.accepted)
    case Reset(start) => Run(JitterModel.Reset(start), r.out, r.accepted)
  }

  function RunOf(start: Buffer, maxLead: nat, ops: seq<Op>): (r: Run)
    requires Valid(start)
    ensures Valid(r.buffer)
  {
    if ops == [] then Run(start, [], [])
    else Step(RunOf(start, maxLead, ops[..|ops| - 1]), maxLead, ops[|ops| - 1])
  }

  lemma RunOfNext(start: Buffer, maxLead: nat, ops: seq<Op>, i: nat)
    requires Valid(start) && i < |ops|
    ensures RunOf(start, maxLead, ops[..i + 1]) == Step(RunOf(start, maxLead, ops[..i]), maxLead, ops[i])
  {
    assert ops[..i + 1][..i] == ops[..i];
  }

  /** Any sequence of operations on the 512-slot, 16-bit-keyed ring delivers
      exactly what the unbounded buffer delivers, numbers taken modulo 65536,
      and reports exactly its gaps. */
  method RunRing(maxLead: nat, ops: seq<Op>) returns (out: seq<Delivery>, missing: seq<int>)
    requires maxLead < CAPACITY
    ensures out == AllOnWire(RunOf(Idle, maxLead, ops).out)
    ensures missing == WrapAll(Missing(RunOf(Idle, maxLead, ops).buffer))
  {
    hide JitterRing.Holds, JitterModel.PopReady, JitterModel.Insert, Place, Wrap16;
    var ring := new JitterRing.JitterBuffer(maxLead);
    out := [];
    for i := 0 to |ops|
      invariant ring.Repr() && ring.maxLead == maxLead && fresh(ring) && fresh(ring.slots)
      invariant ring.model == RunOf(Idle, maxLead, ops[..i]).buffer
      invariant out == AllOnWire(RunOf(Idle, maxLead, ops[..i]).out)
    {
      RunOfNext(Idle, maxLead, ops, i);
      match ops[i] {
        case Insert(number, frame) => ring.Insert(number, frame);
        case PopReady =>
          var released := ring.PopReady();
          out := out + released;
        case Reset(start) => ring.Reset(start);
      }
    }
    assert ops[..|ops|] == ops;
    missing := ring.Missing();
  }

  // ----- What a run without resets delivers -----

  predicate ResetFree(ops: seq<Op>) {
    forall i :: 0 <= i < |ops| ==> !ops[i].Reset?
  }

  /** The last frame stored for a position. */
  function LastFor(accepted: seq<Arrival>, p: int): Option<Frame> {
    if accepted == [] then None
    else
      var a := accepted[|accepted| - 1];
      if a.pos == p then Some(a.frame) else LastFor(accepted[..|accepted| - 1], p)
  }

  ghost predicate AcceptedAtOrAbove(accepted: seq<Arrival>, p: int) {
    exists k :: 0 <= k < |accepted| && accepted[k].pos >= p
  }

  /** What is delivered at a position: the last frame stored for it, or a loss
      where none ever was and the buffer had run `maxLead` ahead. */
  ghost predicate IsDelivery(d: Delivery, accepted: seq<Arrival>, p: int, maxLead: nat) {
    match LastFor(accepted, p)
    case Some(f) => d == Packet(p, f)
    case None => d == Lost(p) && AcceptedAtOrAbove(accepted, p + maxLead)
  }

  /** Delivery so far is the contiguous stream from `n`, and what is not yet
      delivered is still held. */
  ghost predicate DeliversFrom(r: Run, n: int, maxLead: nat) {
    && (forall i :: 0 <= i < |r.out| ==> IsDelivery(r.out[i], r.accepted, n + i, maxLead))
    && (r.buffer.Live? || (r.buffer == Armed(n) && r.out == [] && r.accepted == []))
    && r.buffer.next == n + |r.out|
    && (r.buffer.Live? ==>
          && (forall p :: p >= r.buffer.next ==> Lookup(r.buffer.held, p) == LastFor(r.accepted, p))
          && AcceptedAtOrAbove(r.accepted, r.buffer.high))
    && (forall k :: 0 <= k < |r.accepted| ==> n <= r.accepted[k].pos)
    && (r.buffer.Live? ==> forall k :: 0 <= k < |r.accepted| ==> r.accepted[k].pos <= r.buffer.high)
  }

  lemma LastForAppend(accepted: seq<Arrival>, a: Arrival, p: int)
    ensures LastFor(accepted + [a], p) == if a.pos == p then Some(a.frame) else LastFor(accepted, p)
  {
    assert (accepted + [a])[..|accepted|] == accepted;
  }

  lemma InsertDelivers(r: Run, n: int, maxLead: nat, number: u16, frame: Frame)
    requires Valid(r.buffer) && DeliversFrom(r, n, maxLead)
    ensures DeliversFrom(Step(r, maxLead, Op.Insert(number, frame)), n, maxLead)
  {
    var p := Place(r.buffer, number);
    var r' := Step(r, maxLead, Op.Insert(number, frame));
    if Accepts(r.buffer, p) {
      var a := Arrival(p, frame);
      forall q ensures LastFor(r'.accepted, q) == if q == p then Some(frame) else LastFor(r.accepted, q) {
        LastForAppend(r.accepted, a, q);
      }
      forall q | q >= r'.buffer.next ensures Lookup(r'.buffer.held, q) == LastFor(r'.accepted, q) {
        if r.buffer.Live? {
          assert Lookup(r.buffer.held, q) == LastFor(r.accepted, q);
        }
      }
      assert r'.accepted[|r.accepted|] == a;
      forall q | AcceptedAtOrAbove(r.accepted, q) ensures AcceptedAtOrAbove(r'.accepted, q) {
        var k :| 0 <= k < |r.accepted| && r.accepted[k].pos >= q;
        assert r'.accepted[k] == r.accepted[k];
      }
    }
  }

  /** Releasing the front keeps what has been delivered in order. */
  lemma FrontDelivers(r: Run, n: int, maxLead: nat)
    requires Valid(r.buffer) && DeliversFrom(r, n, maxLead) && Front(r.buffer, maxLead).Some?
    ensures DeliversFrom(Run(Advance(r.buffer), r.out + [Front(r.buffer, maxLead).value], r.accepted), n, maxLead)
  {
    var d, b := Front(r.buffer, maxLead).value, r.buffer;
    var r1 := Run(Advance(b), r.out + [d], r.accepted);
    assert Lookup(b.held, b.next) == LastFor(r.accepted, b.next);
    assert IsDelivery(d, r.accepted, b.next, maxLead) by {
      if d.Lost? {
        var k :| 0 <= k < |r.accepted| && r.accepted[k].pos >= b.high;
        assert AcceptedAtOrAbove(r.accepted, b.next + maxLead);
      }
    }
    hide LastFor, IsDelivery, AcceptedAtOrAbove;
    forall q | q > b.next ensures Lookup(r1.buffer.held, q) == LastFor(r1.accepted, q) {
      assert Lookup(b.held, q) == LastFor(r.accepted, q);
    }
    forall i | 0 <= i < |r1.out| ensures IsDelivery(r1.out[i], r1.accepted, n + i, maxLead) {
      if i < |r.out| {
        assert r1.out[i] == r.out[i];
      }
    }
  }

  lemma {:induction false} PopDelivers(r: Run, n: int, maxLead: nat)
    requires Valid(r.buffer) && DeliversFrom(r, n, maxLead)
    ensures DeliversFrom(Step(r, maxLead, Op.PopReady), n, maxLead)
    decreases if r.buffer.Live? then r.buffer.high + 1 - r.buffer.next else 0
  {
    hide DeliversFrom;
    var front := Front(r.buffer, maxLead);
    if front.Some? {
      FrontDelivers(r, n, maxLead);
      PopDelivers(Run(Advance(r.buffer), r.out + [front.value], r.accepted), n, maxLead);
      var rest := JitterModel.PopReady(Advance(r.buffer), maxLead);
      assert r.out + ([front.value] + rest.out) == (r.out + [front.value]) + rest.out;
    } else {
      assert r.out + [] == r.out;
    }
  }

  /** In any run from a buffer armed at `n` and not reset since, delivery is
      exactly-once and contiguous from `n`: nothing earlier, nothing twice,
      nothing stored ever dropped. */
  lemma {:induction false} DeliveredExactlyOnce(n: int, maxLead: nat, ops: seq<Op>)
    requires ResetFree(ops)
    ensures DeliversFrom(RunOf(Armed(n), maxLead, ops), n, maxLead)
  {
    if ops != [] {
      var init, op := ops[..|ops| - 1], ops[|ops| - 1];
      DeliveredExactlyOnce(n, maxLead, init);
      var r := RunOf(Armed(n), maxLead, init);
      match op {
        case Insert(number, frame) => InsertDelivers(r, n, maxLead, number, frame);
        case PopReady => PopDelivers(r, n, maxLead);
        case Reset(_) => assert false;
      }
    }
  }

  // ----- Runs with resets, and runs from a buffer that knows no start -----

  lemma {:induction false} RunConcat(start: Buffer, maxLead: nat, xs: seq<Op>, ys: seq<Op>)
    requires Valid(start)
    ensures var a := RunOf(start, maxLead, xs);
            var b := RunOf(a.buffer, maxLead, ys);
            RunOf(start, maxLead, xs + ys) == Run(b.buffer, a.out + b.out, a.accepted + b.accepted)
  {
    hide Place, SeqDiff, Wrap16, JitterModel.PopReady, JitterModel.Insert;
    var a := RunOf(start, maxLead, xs);
    if ys == [] {
      assert xs + ys == xs && a.out + [] == a.out && a.accepted + [] == a.accepted;
    } else {
      var init, op := ys[..|ys| - 1], ys[|ys| - 1];
      RunConcat(start, maxLead, xs, init);
      assert (xs + ys)[..|xs + ys| - 1] == xs + init;
      var b, b' := RunOf(a.buffer, maxLead, init), RunOf(a.buffer, maxLead, ys);
      assert b' == Step(b, maxLead, op);
      match op {
        case Insert(number, frame) =>
          assert a.accepted + (b.accepted + [Arrival(Place(b.buffer, number), frame)])
              == (a.accepted + b.accepted) + [Arrival(Place(b.buffer, number), frame)];
        case PopReady =>
          var more := JitterModel.PopReady(b.buffer, maxLead).out;
          assert a.out + (b.out + more) == (a.out + b.out) + more;
        case Reset(_) =>
      }
    }
  }

  /** After `reset(Some(n))`, whatever went before, delivery is exactly the
      contiguous stream from `n`: nothing before `n`, nothing stored earlier. */
  lemma DeliveredAfterReset(start: Buffer, maxLead: nat, before: seq<Op>, n: u16, after: seq<Op>)
    requires Valid(start) && ResetFree(after)
    ensures var a := RunOf(start, maxLead, before);
            var r := RunOf(start, maxLead, before + [Op.Reset(Some(n))] + after);
            && a.out <= r.out && a.accepted <= r.accepted
            && DeliversFrom(Run(r.buffer, r.out[|a.out|..], r.accepted[|a.accepted|..]), n, maxLead)
  {
    var reset := [Op.Reset(Some(n))];
    var a := RunOf(start, maxLead, before);
    RunConcat(start, maxLead, before, reset);
    assert RunOf(a.buffer, maxLead, reset) == Run(Armed(n), [], []) by {
      assert reset[..0] == [];
    }
    RunConcat(start, maxLead, before + reset, after);
    DeliveredExactlyOnce(n, maxLead, after);
  }

  /** A buffer that knows no start behaves as one armed at its first packet. */
  lemma {:induction false} IdleStartsAtFirstPacket(maxLead: nat, ops: seq<Op>, k: nat)
    requires ResetFree(ops) && k < |ops|
    requires ops[k].Insert? && forall i :: 0 <= i < k ==> ops[i].PopReady?
    ensures RunOf(Idle, maxLead, ops) == RunOf(Armed(ops[k].number), maxLead, ops)
  {
    var init := ops[..|ops| - 1];
    if k < |ops| - 1 {
      IdleStartsAtFirstPacket(maxLead, init, k);
    } else {
      PopsDoNothing(Idle, maxLead, init);
      PopsDoNothing(Armed(ops[k].number), maxLead, init);
    }
  }

  /** After `reset(None)`, whatever went before, delivery is exactly the contiguous
      stream from the first packet that arrives, whatever its number; and until one
      arrives nothing is delivered. */
  lemma DeliveredAfterOpenReset(start: Buffer, maxLead: nat, before: seq<Op>, after: seq<Op>, k: nat)
    requires Valid(start) && ResetFree(after) && k <= |after|
    requires forall i :: 0 <= i < k ==> after[i].PopReady?
    requires k < |after| ==> after[k].Insert?
    ensures var a := RunOf(start, maxLead, before);
            var r := RunOf(start, maxLead, before + [Op.Reset(None)] + after);
            && a.out <= r.out && a.accepted <= r.accepted
            && if k == |after| then r.out == a.out
               else DeliversFrom(Run(r.buffer, r.out[|a.out|..], r.accepted[|a.accepted|..]), after[k].number, maxLead)
  {
    var reset := [Op.Reset(None)];
    var a := RunOf(start, maxLead, before);
    RunConcat(start, maxLead, before, reset);
    assert RunOf(a.buffer, maxLead, reset) == Run(Idle, [], []) by {
      assert reset[..0] == [];
    }
    RunConcat(start, maxLead, before + reset, after);
    if k == |after| {
      PopsDoNothing(Idle, maxLead, after);
    } else {
      IdleStartsAtFirstPacket(maxLead, after, k);
      DeliveredExactlyOnce(after[k].number, maxLead, after);
    }
  }

  lemma {:induction false} PopsDoNothing(b: Buffer, maxLead: nat, ops: seq<Op>)
    requires !b.Live? && forall i :: 0 <= i < |ops| ==> ops[i].PopReady?
    ensures RunOf(b, maxLead, ops) == Run(b, [], [])
  {
    if ops != [] {
      PopsDoNothing(b, maxLead, ops[..|ops| - 1]);
    }
  }

  /** On the wire the delivered numbers of a reset-free run are consecutive
      modulo 65536, across any number of wraps. */
  lemma ConsecutiveOnWire(n: int, maxLead: nat, ops: seq<Op>, i: nat)
    requires ResetFree(ops) && i < |RunOf(Armed(n), maxLead, ops).out|
    ensures var out := AllOnWire(RunOf(Armed(n), maxLead, ops).out);
            && out[0].pos == Wrap16(n)
            && (i + 1 < |out| ==> out[i + 1].pos == Wrap16(out[i].pos + 1))
  {
    hide RunOf;
    var r := RunOf(Armed(n), maxLead, ops);
    DeliveredExactlyOnce(n, maxLead, ops);
    assert r.out[0].pos == n && r.out[i].pos == n + i;
    Wrap16Next(n + i);
    if i + 1 < |r.out| {
      assert r.out[i + 1].pos == n + (i + 1);
    }
  }

  // ----- Positions counted from another turn of the circle -----

  /** `b'` is `b` with every position `c` further on. */
  ghost predicate Shifted(b: Buffer, b': Buffer, c: int) {
    match b
    case Idle => b' == Idle
    case Armed(next) => b' == Armed(next + c)
    case Live(next, high, held) =>
      && b'.Live? && b'.next == next + c && b'.high == high + c
      && forall p :: Lookup(held, p) == Lookup(b'.held, p + c)
  }

  lemma PlaceShifted(b: Buffer, b': Buffer, turns: int, number: u16)
    requires Shifted(b, b', 0x1_0000 * turns) && !b.Idle?
    ensures Place(b', number) == Place(b, number) + 0x1_0000 * turns
  {
    Wrap16Turns(b.next, turns);
  }

  lemma InsertShifted(b: Buffer, b': Buffer, c: int, p: int, frame: Frame)
    requires Valid(b) && Valid(b') && Shifted(b, b', c) && !b.Idle?
    ensures Shifted(JitterModel.Insert(b, p, frame), JitterModel.Insert(b', p + c, frame), c)
  {
    var r, r' := JitterModel.Insert(b, p, frame), JitterModel.Insert(b', p + c, frame);
    if r.Live? {
      forall q ensures Lookup(r.held, q) == Lookup(r'.held, q + c) {
        if b.Live? {
          assert Lookup(b.held, q) == Lookup(b'.held, q + c);
        }
      }
    }
  }

  lemma {:induction false} PopShifted(b: Buffer, b': Buffer, turns: int, maxLead: nat)
    requires Valid(b) && Valid(b') && Shifted(b, b', 0x1_0000 * turns)
    ensures var r, r' := JitterModel.PopReady(b, maxLead), JitterModel.PopReady(b', maxLead);
            Shifted(r.buffer, r'.buffer, 0x1_0000 * turns) && AllOnWire(r.out) == AllOnWire(r'.out)
    decreases if b.Live? then b.high + 1 - b.next else 0
  {
    FrontShifted(b, b', turns, maxLead);
    var front, front' := Front(b, maxLead), Front(b', maxLead);
    if front.Some? {
      AdvanceShifted(b, b', 0x1_0000 * turns);
      hide Front, Shifted, AllOnWire, OnWire, Wrap16, Lookup;
      PopShifted(Advance(b), Advance(b'), turns, maxLead);
      OnWirePrepend(front.value, JitterModel.PopReady(Advance(b), maxLead).out);
      OnWirePrepend(front'.value, JitterModel.PopReady(Advance(b'), maxLead).out);
    }
  }

  lemma FrontShifted(b: Buffer, b': Buffer, turns: int, maxLead: nat)
    requires Valid(b) && Valid(b') && Shifted(b, b', 0x1_0000 * turns)
    ensures match Front(b, maxLead)
            case None => Front(b', maxLead) == None
            case Some(d) => Front(b', maxLead).Some? && OnWire(d) == OnWire(Front(b', maxLead).value)
  {
    hide Wrap16;
    if b.Live? {
      assert Lookup(b.held, b.next) == Lookup(b'.held, b'.next);
      Wrap16Turns(b.next, turns);
    }
  }

  lemma AdvanceShifted(b: Buffer, b': Buffer, c: int)
    requires Valid(b) && Valid(b') && Shifted(b, b', c) && b.Live? && b.next <= b.high
    ensures Shifted(Advance(b), Advance(b'), c)
  {
    forall p ensures Lookup(Advance(b).held, p) == Lookup(Advance(b').held, p + c) {
      assert Lookup(b.held, p) == Lookup(b'.held, p + c);
    }
  }

  lemma OnWirePrepend(d: Delivery, ds: seq<Delivery>)
    ensures AllOnWire([d] + ds) == [OnWire(d)] + AllOnWire(ds)
  {
  }

  lemma OnWireConcat(xs: seq<Delivery>, ys: seq<Delivery>)
    ensures AllOnWire(xs + ys) == AllOnWire(xs) + AllOnWire(ys)
  {
  }

  /** Which turn of the 16-bit circle positions are counted from makes no
      difference: buffers armed at the same number deliver the same. */
  lemma {:induction false} TurnsDoNotMatter(n: int, turns: int, maxLead: nat, ops: seq<Op>)
    requires ResetFree(ops)
    ensures var r, r' := RunOf(Armed(n), maxLead, ops), RunOf(Armed(n + 0x1_0000 * turns), maxLead, ops);
            && !r.buffer.Idle? && Shifted(r.buffer, r'.buffer, 0x1_0000 * turns)
            && AllOnWire(r.out) == AllOnWire(r'.out)
  {
    hide JitterModel.Insert, JitterModel.PopReady, Place, Shifted, AllOnWire;
    if ops == [] {
      ShiftedArmed(n, 0x1_0000 * turns);
    } else {
      var init, op := ops[..|ops| - 1], ops[|ops| - 1];
      TurnsDoNotMatter(n, turns, maxLead, init);
      var r, r' := RunOf(Armed(n), maxLead, init), RunOf(Armed(n + 0x1_0000 * turns), maxLead, init);
      match op {
        case Insert(number, frame) =>
          PlaceShifted(r.buffer, r'.buffer, turns, number);
          InsertShifted(r.buffer, r'.buffer, 0x1_0000 * turns, Place(r.buffer, number), frame);
          FrontStays(r.buffer, Place(r.buffer, number), frame);
        case PopReady =>
          PopShifted(r.buffer, r'.buffer, turns, maxLead);
          OnWireConcat(r.out, JitterModel.PopReady(r.buffer, maxLead).out);
          OnWireConcat(r'.out, JitterModel.PopReady(r'.buffer, maxLead).out);
          StaysKnown(r.buffer, maxLead);
        case Reset(_) => assert false;
      }
    }
  }

  lemma ShiftedArmed(n: int, c: int)
    ensures Shifted(Armed(n), Armed(n + c), c)
  {
  }

  lemma {:induction false} StaysKnown(b: Buffer, maxLead: nat)
    requires Valid(b) && !b.Idle?
    ensures !JitterModel.PopReady(b, maxLead).buffer.Idle?
    decreases if b.Live? then b.high + 1 - b.next else 0
  {
    if Front(b, maxLead).Some? {
      StaysKnown(Advance(b), maxLead);
    }
  }

  // ----- Stalls and gap reports -----

  /** Released and settled: nothing stored, or an empty front that the buffer
      has not run `maxLead` ahead of. */
  ghost predicate Settled(b: Buffer, maxLead: nat) {
    b.Live? ==> b.next !in b.held && b.high - b.next < maxLead
  }

  ghost predicate Drained(b: Buffer) {
    b.Live? ==> b.held == map[]
  }

  lemma {:induction false} PopSettles(b: Buffer, maxLead: nat)
    requires Valid(b)
    ensures Settled(JitterModel.PopReady(b, maxLead).buffer, maxLead)
    decreases if b.Live? then b.high + 1 - b.next else 0
  {
    if Front(b, maxLead).Some? {
      PopSettles(Advance(b), maxLead);
    }
  }

  ghost predicate Ascending(ps: seq<int>) {
    forall i, j :: 0 <= i < j < |ps| ==> ps[i] < ps[j]
  }

  lemma {:induction false} GapsAreExact(held: map<int, Frame>, lo: int, high: int)
    ensures Ascending(Gaps(held, lo, high))
    ensures forall p :: p in Gaps(held, lo, high) <==> lo <= p <= high && p !in held
    ensures |Gaps(held, lo, high)| <= Max(0, high + 1 - lo)
    decreases high + 1 - lo
  {
    if lo <= high {
      GapsAreExact(held, lo + 1, high);
      if lo !in held {
        var rest := Gaps(held, lo + 1, high);
        forall i, j | 0 <= i < j < |[lo] + rest| ensures ([lo] + rest)[i] < ([lo] + rest)[j] {
          assert ([lo] + rest)[j] in rest;
          if i > 0 { assert ([lo] + rest)[i] == rest[i - 1]; }
        }
      }
    }
  }

  /** The gap report is the ascending list of exactly the empty positions from
      the front up to, and never including, the highest stored one. */
  lemma MissingIsExact(b: Buffer)
    requires Valid(b) && b.Live?
    ensures Ascending(Missing(b))
    ensures forall p :: p in Missing(b) <==> b.next <= p < b.high && p !in b.held
  {
    GapsAreExact(b.held, b.next, b.high);
  }

  /** After a release the report is shorter than `maxLead`, and empty exactly
      when the buffer is drained. */
  lemma MissingAfterPop(b: Buffer, maxLead: nat)
    requires Valid(b) && Settled(b, maxLead)
    ensures |Missing(b)| <= Max(0, maxLead - 1)
    ensures Missing(b) == [] <==> Drained(b)
  {
    if b.Live? {
      MissingIsExact(b);
      GapsAreExact(b.held, b.next, b.high - 1);
      GapsSameWithoutHigh(b.held, b.next, b.high);
      if b.next <= b.high {
        assert b.high in b.held && b.next in Missing(b);
      } else {
        assert forall p :: p !in b.held;
        assert b.held == map[];
      }
    }
  }

  lemma {:induction false} GapsSameWithoutHigh(held: map<int, Frame>, lo: int, high: int)
    requires lo <= high ==> high in held
    ensures Gaps(held, lo, high) == Gaps(held, lo, high - 1)
    decreases high - lo
  {
    if lo < high {
      GapsSameWithoutHigh(held, lo + 1, high);
    }
  }

  // ----- A permanent gap -----

  /** Every arrival is followed by a release, as the audio task does it. */
  function ArrivalOps(arrivals: seq<Arrival>): (ops: seq<Op>)
    ensures ResetFree(ops)
  {
    if arrivals == [] then []
    else
      var a := arrivals[|arrivals| - 1];
      ArrivalOps(arrivals[..|arrivals| - 1]) + [Op.Insert(Wrap16(a.pos), a.frame), Op.PopReady]
  }

  function ArrivalRun(start: Buffer, maxLead: nat, arrivals: seq<Arrival>): (r: Run)
    requires Valid(start)
    ensures Valid(r.buffer)
  {
    RunOf(start, maxLead, ArrivalOps(arrivals))
  }

  lemma ArrivalRunNext(start: Buffer, maxLead: nat, arrivals: seq<Arrival>)
    requires Valid(start) && arrivals != []
    ensures ArrivalRun(start, maxLead, arrivals)
         == AfterArrival(ArrivalRun(start, maxLead, arrivals[..|arrivals| - 1]), maxLead, arrivals[|arrivals| - 1])
  {
    var a := arrivals[|arrivals| - 1];
    var ops := ArrivalOps(arrivals[..|arrivals| - 1]);
    var insert, pop := Op.Insert(Wrap16(a.pos), a.frame), Op.PopReady;
    var all := ops + [insert, pop];
    assert ArrivalOps(arrivals) == all;
    assert all[..|all| - 1] == ops + [insert] && all[|all| - 1] == pop;
    assert RunOf(start, maxLead, all) == Step(RunOf(start, maxLead, ops + [insert]), maxLead, pop);
    assert (ops + [insert])[..|ops|] == ops;
  }

  function AfterArrival(r: Run, maxLead: nat, a: Arrival): Run
    requires Valid(r.buffer)
  {
    Step(Step(r, maxLead, Op.Insert(Wrap16(a.pos), a.frame)), maxLead, Op.PopReady)
  }

  /** Positions the 16-bit numbers can tell apart from the front `n`. */
  predicate WithinHalfCircle(n: int, p: int) {
    -0x8000 <= p - n < 0x8000
  }

  lemma PlaceIsPosition(b: Buffer, p: int)
    requires !b.Idle? && WithinHalfCircle(b.next, p)
    ensures Place(b, Wrap16(p)) == p
  {
    SeqDiffIsDistance(p, b.next);
  }

  /** An arrival that breaks a stall at `n`: far enough ahead to give `n` up,
      near enough to be stored. */
  predicate BreaksStall(n: int, maxLead: nat, p: int) {
    n + maxLead <= p < n + CAPACITY
  }

  /** Storing an arrival in a settled buffer makes its empty front release
      something exactly if the arrival breaks the stall. */
  lemma ArrivalBreaksStall(b: Buffer, maxLead: nat, p: int, frame: Frame)
    requires Valid(b) && Settled(b, maxLead) && !b.Idle? && p != b.next && maxLead < CAPACITY
    ensures JitterModel.PopReady(JitterModel.Insert(b, p, frame), maxLead).out != []
       <==> BreaksStall(b.next, maxLead, p)
  {
  }

  ghost predicate Reached(n: int, maxLead: nat, arrivals: seq<Arrival>) {
    exists i :: 0 <= i < |arrivals| && BreaksStall(n, maxLead, arrivals[i].pos)
  }

  /** With the receiver's own limits: 128 to 511 ahead of the gap. */
  lemma ReachedIs(n: int, arrivals: seq<Arrival>)
    ensures Reached(n, MAX_LEAD, arrivals)
        <==> exists i :: 0 <= i < |arrivals| && n + 128 <= arrivals[i].pos < n + 512
  {
    if Reached(n, MAX_LEAD, arrivals) {
      var i :| 0 <= i < |arrivals| && BreaksStall(n, MAX_LEAD, arrivals[i].pos);
    }
    if i :| 0 <= i < |arrivals| && n + 128 <= arrivals[i].pos < n + 512 {
      assert BreaksStall(n, MAX_LEAD, arrivals[i].pos);
    }
  }

  lemma ReachedNext(n: int, maxLead: nat, arrivals: seq<Arrival>)
    requires arrivals != []
    ensures Reached(n, maxLead, arrivals)
        <==> (Reached(n, maxLead, arrivals[..|arrivals| - 1])
              || BreaksStall(n, maxLead, arrivals[|arrivals| - 1].pos))
  {
    var init := arrivals[..|arrivals| - 1];
    if i :| 0 <= i < |init| && BreaksStall(n, maxLead, init[i].pos) {
      assert arrivals[i] == init[i];
    }
    if i :| 0 <= i < |init| && BreaksStall(n, maxLead, arrivals[i].pos) {
      assert init[i] == arrivals[i];
    }
  }

  /** An unbroken stall stays one: the front and the settled state persist. */
  lemma ReleasesAfterArrival(r: Run, n: int, maxLead: nat, a: Arrival)
    requires Valid(r.buffer) && maxLead < CAPACITY && a.pos != n && WithinHalfCircle(n, a.pos)
    requires r.out == [] ==> StalledAt(r.buffer, n, maxLead)
    ensures var r' := AfterArrival(r, maxLead, a);
            && (r'.out != [] <==> r.out != [] || BreaksStall(n, maxLead, a.pos))
            && (r'.out == [] ==> StalledAt(r'.buffer, n, maxLead))
  {
    hide JitterModel.PopReady, JitterModel.Insert, Place, BreaksStall, Wrap16, Settled;
    if r.out == [] {
      PlaceIsPosition(r.buffer, a.pos);
      ArrivalBreaksStall(r.buffer, maxLead, a.pos, a.frame);
      var stored := JitterModel.Insert(r.buffer, a.pos, a.frame);
      PopSettles(stored, maxLead);
      NothingReleased(stored, maxLead);
      FrontStays(r.buffer, a.pos, a.frame);
    }
  }

  lemma FrontStays(b: Buffer, p: int, frame: Frame)
    requires Valid(b) && !b.Idle?
    ensures var b' := JitterModel.Insert(b, p, frame);
            !b'.Idle? && b'.next == b.next
  {
  }

  lemma NothingReleased(b: Buffer, maxLead: nat)
    requires Valid(b)
    ensures JitterModel.PopReady(b, maxLead).out == [] ==> JitterModel.PopReady(b, maxLead).buffer == b
  {
  }

  /** Settled with `n` in front: nothing more comes out until something arrives. */
  ghost predicate StalledAt(b: Buffer, n: int, maxLead: nat) {
    !b.Idle? && b.next == n && Settled(b, maxLead)
  }

  /** A permanent gap at the front does not always give way, although the
      capacity rule is there so that it should. From any buffer stalled at `n`,
      whatever it holds beyond the gap, playback resumes exactly when some arrival
      lies at least `maxLead` and less than 512 ahead of the gap. */
  lemma {:induction false} GapGivesWayIffReached(b: Buffer, n: int, maxLead: nat, arrivals: seq<Arrival>)
    requires Valid(b) && maxLead < CAPACITY && StalledAt(b, n, maxLead)
    requires forall i :: 0 <= i < |arrivals| ==> arrivals[i].pos != n && WithinHalfCircle(n, arrivals[i].pos)
    ensures var r := ArrivalRun(b, maxLead, arrivals);
            && (r.out != [] <==> Reached(n, maxLead, arrivals))
            && (r.out == [] ==> StalledAt(r.buffer, n, maxLead))
  {
    if arrivals != [] {
      hide Reached, BreaksStall, AfterArrival, WithinHalfCircle, ArrivalRun, StalledAt;
      var init, a := arrivals[..|arrivals| - 1], arrivals[|arrivals| - 1];
      GapGivesWayIffReached(b, n, maxLead, init);
      ArrivalRunNext(b, maxLead, arrivals);
      ReachedNext(n, maxLead, arrivals);
      ReleasesAfterArrival(ArrivalRun(b, maxLead, init), n, maxLead, a);
    }
  }

  /** So at any point of a stream: once a release has stopped after `n` up to the
      gap, more is delivered exactly if the gap is reached in that way. */
  lemma {:induction false} StreamResumesIffReached(n: int, maxLead: nat, ops: seq<Op>, arrivals: seq<Arrival>)
    requires maxLead < CAPACITY && ResetFree(ops)
    requires var gap := n + |RunOf(Armed(n), maxLead, ops + [Op.PopReady]).out|;
             forall i :: 0 <= i < |arrivals| ==> arrivals[i].pos != gap && WithinHalfCircle(gap, arrivals[i].pos)
    ensures var r := RunOf(Armed(n), maxLead, ops + [Op.PopReady]);
            var r' := RunOf(Armed(n), maxLead, (ops + [Op.PopReady]) + ArrivalOps(arrivals));
            r.out <= r'.out && (r'.out != r.out <==> Reached(n + |r.out|, maxLead, arrivals))
  {
    var before := ops + [Op.PopReady];
    var r := RunOf(Armed(n), maxLead, before);
    assert before[..|before| - 1] == ops;
    PopSettles(RunOf(Armed(n), maxLead, ops).buffer, maxLead);
    DeliveredExactlyOnce(n, maxLead, before);
    RunConcat(Armed(n), maxLead, before, ArrivalOps(arrivals));
    assert StalledAt(r.buffer, n + |r.out|, maxLead);
    hide RunOf, DeliversFrom, StalledAt, Reached, WithinHalfCircle;
    GapGivesWayIffReached(r.buffer, n + |r.out|, maxLead, arrivals);
  }

  /** With the receiver's own limits: a sender that resumes 512 packets past the
      armed position is not heard for the next 32000 packets. */
  lemma StallWitness(n: int, count: nat, frame: Frame)
    requires count <= 32000
    ensures ArrivalRun(Armed(n), MAX_LEAD, seq(count, i => Arrival(n + 512 + i, frame))).out == []
  {
    GapGivesWayIffReached(Armed(n), n, MAX_LEAD, seq(count, i => Arrival(n + 512 + i, frame)));
  }

  // ----- Reordering -----

  ghost predicate IsFirstGap(n: int, s: set<int>, m: int) {
    n <= m && m !in s && forall q :: n <= q < m ==> q in s
  }

  /** The smallest position from `n` on that is not in `s`. */
  function FirstGap(n: int, s: set<int>): (m: int)
    ensures IsFirstGap(n, s, m)
    decreases s
  {
    if n in s then FirstGap(n + 1, s - {n}) else n
  }

  function Positions(arrivals: seq<Arrival>): set<int> {
    set i | 0 <= i < |arrivals| :: arrivals[i].pos
  }

  /** Every arrival is less than `maxLead` ahead of the smallest position not
      yet arrived, and not so late that its number means a later position. */
  ghost predicate Timely(n: int, maxLead: nat, arrivals: seq<Arrival>) {
    forall k :: 0 <= k < |arrivals| ==>
      var m := FirstGap(n, Positions(arrivals[..k]));
      m - 0x8000 <= arrivals[k].pos < m + maxLead
  }

  ghost predicate Carries(arrivals: seq<Arrival>, content: int -> Frame) {
    forall i :: 0 <= i < |arrivals| ==> arrivals[i].frame == content(arrivals[i].pos)
  }

  /** The frames of positions `n` up to `m`, in order. */
  function InOrder(n: int, m: int, content: int -> Frame): seq<Delivery> {
    seq(Max(0, m - n), i => Packet(n + i, content(n + i)))
  }

  lemma PositionsNext(arrivals: seq<Arrival>)
    requires arrivals != []
    ensures Positions(arrivals) == Positions(arrivals[..|arrivals| - 1]) + {arrivals[|arrivals| - 1].pos}
  {
    var init := arrivals[..|arrivals| - 1];
    forall p | p in Positions(init) ensures p in Positions(arrivals) {
      var i :| 0 <= i < |init| && init[i].pos == p;
      assert arrivals[i].pos == p;
    }
    forall p | p in Positions(arrivals) && p != arrivals[|arrivals| - 1].pos ensures p in Positions(init) {
      var i :| 0 <= i < |arrivals| && arrivals[i].pos == p;
      assert init[i].pos == p;
    }
  }

  lemma {:induction false} LastForComesFrom(accepted: seq<Arrival>, p: int)
    requires LastFor(accepted, p).Some?
    ensures exists k :: 0 <= k < |accepted| && accepted[k].pos == p
  {
    if accepted[|accepted| - 1].pos != p {
      LastForComesFrom(accepted[..|accepted| - 1], p);
    }
  }

  /** What has been stored is what has arrived from `n` on, and none of it is
      `maxLead` or more past the first gap `m`. */
  ghost predicate StoresArrived(accepted: seq<Arrival>, n: int, limit: int, arrived: set<int>, content: int -> Frame) {
    && (forall i :: 0 <= i < |accepted| ==> accepted[i].pos in arrived && accepted[i].pos < limit)
    && (forall p :: p >= n && p in arrived ==> LastFor(accepted, p) == Some(content(p)))
  }

  lemma StoresNext(accepted: seq<Arrival>, n: int, maxLead: nat, arrived: set<int>, content: int -> Frame, a: Arrival)
    requires var m := FirstGap(n, arrived);
             && a.frame == content(a.pos) && a.pos < m + maxLead
             && StoresArrived(accepted, n, m + maxLead, arrived, content)
    ensures var m := FirstGap(n, arrived);
            StoresArrived(if a.pos >= m then accepted + [a] else accepted, n,
                          FirstGap(n, arrived + {a.pos}) + maxLead, arrived + {a.pos}, content)
  {
    var m := FirstGap(n, arrived);
    var accepted' := if a.pos >= m then accepted + [a] else accepted;
    assert m <= FirstGap(n, arrived + {a.pos});
    forall p | p >= n && p in arrived + {a.pos} ensures LastFor(accepted', p) == Some(content(p)) {
      LastForAppend(accepted, a, p);
    }
  }

  lemma PacketOrLead(r: Run, n: int, maxLead: nat, i: nat)
    requires DeliversFrom(r, n, maxLead) && i < |r.out|
    ensures if LastFor(r.accepted, n + i).Some? then r.out[i] == Packet(n + i, LastFor(r.accepted, n + i).value)
            else AcceptedAtOrAbove(r.accepted, n + i + maxLead)
  {
    assert r.out[i] == r.out[i];
  }

  lemma NoneLost(r: Run, n: int, m: int, maxLead: nat, arrived: set<int>, content: int -> Frame, i: nat)
    requires DeliversFrom(r, n, maxLead) && i < |r.out| && IsFirstGap(n, arrived, m)
    requires StoresArrived(r.accepted, n, m + maxLead, arrived, content)
    ensures n + i in arrived && r.out[i] == Packet(n + i, content(n + i))
  {
    PacketOrLead(r, n, maxLead, i);
    if LastFor(r.accepted, n + i).Some? {
      LastForComesFrom(r.accepted, n + i);
    }
  }

  lemma DeliveredInOrder(r: Run, n: int, m: int, maxLead: nat, arrived: set<int>, content: int -> Frame)
    requires Valid(r.buffer) && DeliversFrom(r, n, maxLead) && Settled(r.buffer, maxLead)
    requires IsFirstGap(n, arrived, m) && StoresArrived(r.accepted, n, m + maxLead, arrived, content)
    ensures r.out == InOrder(n, m, content)
  {
    forall p | n <= p < r.buffer.next ensures p in arrived {
      NoneLost(r, n, m, maxLead, arrived, content, p - n);
    }
    if r.buffer.Live? {
      assert Lookup(r.buffer.held, r.buffer.next) == LastFor(r.accepted, r.buffer.next);
    }
    assert r.buffer.next !in arrived;
    assert m == r.buffer.next;
    forall i | 0 <= i < |r.out| ensures r.out[i] == InOrder(n, m, content)[i] {
      NoneLost(r, n, m, maxLead, arrived, content, i);
    }
  }

  lemma TimelyInit(n: int, maxLead: nat, arrivals: seq<Arrival>)
    requires Timely(n, maxLead, arrivals) && arrivals != []
    ensures var init, a := arrivals[..|arrivals| - 1], arrivals[|arrivals| - 1];
            var m := FirstGap(n, Positions(init));
            Timely(n, maxLead, init) && m - 0x8000 <= a.pos < m + maxLead
  {
    var init := arrivals[..|arrivals| - 1];
    assert init == arrivals[..|init|];
    forall k | 0 <= k < |init|
      ensures var m := FirstGap(n, Positions(init[..k])); m - 0x8000 <= init[k].pos < m + maxLead
    {
      assert init[..k] == arrivals[..k];
    }
  }

  /** What an arrival near the front `m` becomes: stored there or past it, else
      dropped. */
  lemma NearArrival(r: Run, maxLead: nat, a: Arrival)
    requires Valid(r.buffer) && !r.buffer.Idle? && maxLead < CAPACITY
    requires r.buffer.next - 0x8000 <= a.pos < r.buffer.next + maxLead
    ensures var r' := AfterArrival(r, maxLead, a);
            && r'.accepted == (if a.pos >= r.buffer.next then r.accepted + [a] else r.accepted)
            && Settled(r'.buffer, maxLead)
  {
    PlaceIsPosition(r.buffer, a.pos);
    PopSettles(Step(r, maxLead, Op.Insert(Wrap16(a.pos), a.frame)).buffer, maxLead);
    hide Place, Settled, JitterModel.PopReady, JitterModel.Insert, Wrap16;
  }

  lemma FrontIs(r: Run, n: int, m: int, maxLead: nat, content: int -> Frame)
    requires DeliversFrom(r, n, maxLead) && r.out == InOrder(n, m, content) && n <= m
    ensures !r.buffer.Idle? && r.buffer.next == m
  {
  }

  lemma NothingArrived(n: int, maxLead: nat, content: int -> Frame)
    ensures var r, m := ArrivalRun(Armed(n), maxLead, []), FirstGap(n, Positions([]));
            r.out == InOrder(n, m, content) && StoresArrived(r.accepted, n, m + maxLead, Positions([]), content)
  {
    assert Positions([]) == {};
    assert FirstGap(n, {}) == n;
    assert ArrivalRun(Armed(n), maxLead, []) == Run(Armed(n), [], []);
    hide RunOf, FirstGap;
  }

  /** If arrivals are timely, any order and any duplicates deliver exactly the
      frames `n`, `n + 1`, ... up to the first position that has not arrived,
      in order and with nothing lost. */
  lemma {:induction false} ReorderingIsInvisible(n: int, maxLead: nat, arrivals: seq<Arrival>, content: int -> Frame)
    requires maxLead < CAPACITY && Timely(n, maxLead, arrivals) && Carries(arrivals, content)
    ensures var r := ArrivalRun(Armed(n), maxLead, arrivals);
            var m := FirstGap(n, Positions(arrivals));
            && r.out == InOrder(n, m, content)
            && StoresArrived(r.accepted, n, m + maxLead, Positions(arrivals), content)
  {
    hide RunOf, DeliversFrom, InOrder, StoresArrived, Settled, AfterArrival, Timely, Positions, ArrivalOps, FirstGap;
    var m := FirstGap(n, Positions(arrivals));
    var r := ArrivalRun(Armed(n), maxLead, arrivals);
    if arrivals == [] {
      NothingArrived(n, maxLead, content);
    } else {
      var init, a := arrivals[..|arrivals| - 1], arrivals[|arrivals| - 1];
      TimelyInit(n, maxLead, arrivals);
      DeliveredExactlyOnce(n, maxLead, ArrivalOps(init));
      DeliveredExactlyOnce(n, maxLead, ArrivalOps(arrivals));
      ReorderingIsInvisible(n, maxLead, init, content);
      var r0, m0 := ArrivalRun(Armed(n), maxLead, init), FirstGap(n, Positions(init));
      PositionsNext(arrivals);
      FrontIs(r0, n, m0, maxLead, content);
      ArrivalRunNext(Armed(n), maxLead, arrivals);
      NearArrival(r0, maxLead, a);
      StoresNext(r0.accepted, n, maxLead, Positions(init), content, a);
      DeliveredInOrder(r, n, m, maxLead, Positions(arrivals), content);
    }
  }

  /** So on the ring itself: armed at `n`, it hands over the frames in order
      whatever order and duplication they arrive in. */
  method RingDeliversInOrder(n: u16, maxLead: nat, arrivals: seq<Arrival>, ghost content: int -> Frame)
    returns (out: seq<Delivery>)
    requires maxLead < CAPACITY && Timely(n, maxLead, arrivals) && Carries(arrivals, content)
    ensures out == AllOnWire(InOrder(n, FirstGap(n, Positions(arrivals)), content))
  {
    var missing;
    out, missing := RunRing(maxLead, [Op.Reset(Some(n))] + ArrivalOps(arrivals));
    RunConcat(Idle, maxLead, [Op.Reset(Some(n))], ArrivalOps(arrivals));
    assert RunOf(Idle, maxLead, [Op.Reset(Some(n))]) == Run(Armed(n), [], []) by {
      assert [Op.Reset(Some(n))][..0] == [];
    }
    ReorderingIsInvisible(n, maxLead, arrivals, content);
    hide RunOf, AllOnWire, InOrder, FirstGap;
    assert [] + ArrivalRun(Armed(n), maxLead, arrivals).out == ArrivalRun(Armed(n), maxLead, arrivals).out;
  }
}
