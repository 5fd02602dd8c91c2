/** The jitter buffer on unbounded positions: what `JitterBuffer` means.

    A position is a sequence number counted without wrap-around. The buffer is
    idle until it knows where delivery starts, armed once it does, and live
    once a packet is stored.
 */
module JitterModel {
  import opened Numbers

  const CAPACITY: nat := 512
  const MAX_LEAD: nat := 128

  type Frame = seq<byte>

  datatype Delivery = Packet(pos: int, frame: Frame) | Lost(pos: int)

  datatype Buffer =
    | Idle
    | Armed(next: int)
    | Live(next: int, high: int, held: map<int, Frame>)

  ghost predicate Valid(b: Buffer) {
    b.Live? ==>
      && b.next - 1 <= b.high < b.next + CAPACITY
      && (forall p :: p in b.held ==> b.next <= p <= b.high)
      && (b.next <= b.high ==> b.high in b.held)
  }

  function Lookup(held: map<int, Frame>, p: int): Option<Frame> {
    if p in held then Some(held[p]) else None
  }

  /** The position a 16-bit number stands for: the nearest one to the front. */
  function Place(b: Buffer, number: u16): int {
    if b.Idle? then number else b.next + SeqDiff(number, Wrap16(b.next))
  }

  predicate Accepts(b: Buffer, p: int) {
    b.Idle? || b.next <= p < b.next + CAPACITY
  }

  function Insert(b: Buffer, p: int, frame: Frame): (r: Buffer)
    requires Valid(b)
    ensures Valid(r)
  {
    if !Accepts(b, p) then b
    else match b
      case Idle => Live(p, p, map[p := frame])
      case Armed(next) => Live(next, p, map[p := frame])
      case Live(next, high, held) => Live(next, Max(high, p), held[p := frame])
  }

  function Reset(next: Option<u16>): (r: Buffer)
    ensures Valid(r)
  {
    match next
    case None => Idle
    case Some(n) => Armed(n)
  }

  /** The buffer after the front position is given up or handed over. */
  function Advance(b: Buffer): (r: Buffer)
    requires Valid(b) && b.Live? && b.next <= b.high
    ensures Valid(r) && r.Live?
  {
    Live(b.next + 1, b.high, b.held - {b.next})
  }

  datatype Popped = Popped(buffer: Buffer, out: seq<Delivery>)

  /** What the front position releases: its packet, its loss once the buffer
      has run `maxLead` ahead of it, or nothing yet. */
  function Front(b: Buffer, maxLead: nat): (d: Option<Delivery>)
    requires Valid(b)
    ensures d.Some? ==> b.Live? && b.next <= b.high && d.value.pos == b.next
  {
    if !b.Live? then None
    else if b.next in b.held then Some(Packet(b.next, b.held[b.next]))
    else if b.high - b.next >= maxLead then Some(Lost(b.next))
    else None
  }

  function PopReady(b: Buffer, maxLead: nat): (r: Popped)
    requires Valid(b)
    ensures Valid(r.buffer)
    decreases if b.Live? then b.high + 1 - b.next else 0
  {
    match Front(b, maxLead)
    case None => Popped(b, [])
    case Some(d) =>
      var rest := PopReady(Advance(b), maxLead);
      Popped(rest.buffer, [d] + rest.out)
  }

  /** The empty positions from `lo` to `high`, in ascending order. */
  function Gaps(held: map<int, Frame>, lo: int, high: int): seq<int>
    decreases high + 1 - lo
  {
    if lo > high then []
    else if lo in held then Gaps(held, lo + 1, high)
    else [lo] + Gaps(held, lo + 1, high)
  }

  function Missing(b: Buffer): seq<int> {
    if b.Live? then Gaps(b.held, b.next, b.high) else []
  }

  /** What goes over the wire or out of the ring: positions modulo 65536. */
  function OnWire(d: Delivery): Delivery {
    match d
    case Packet(p, f) => Packet(Wrap16(p), f)
    case Lost(p) => Lost(Wrap16(p))
  }

  function AllOnWire(ds: seq<Delivery>): (r: seq<Delivery>) {
    seq(|ds|, i requires 0 <= i < |ds| => OnWire(ds[i]))
  }

  lemma OnWireAppend(ds: seq<Delivery>, d: Delivery)
    ensures AllOnWire(ds + [d]) == AllOnWire(ds) + [OnWire(d)]
  {
  }

  function WrapAll(ps: seq<int>): (r: seq<int>) {
    seq(|ps|, i requires 0 <= i < |ps| => Wrap16(ps[i]))
  }

  lemma WrapGaps(held: map<int, Frame>, lo: int, high: int)
    requires lo <= high
    ensures WrapAll(Gaps(held, lo, high))
         == (if lo in held then [] else [Wrap16(lo)]) + WrapAll(Gaps(held, lo + 1, high))
  {
  }
}

/** `JitterBuffer` as the receiver keeps it: a 512-slot ring addressed by
    16-bit numbers, updated in place and refined to the model's buffer. */
module JitterRing {
  import opened Numbers
  import opened JitterModel

  /** Slot `p % 512` holds what the buffer holds at `p`, for the whole window. */
  ghost predicate Holds(ring: seq<Option<Frame>>, b: Buffer)
    requires |ring| == CAPACITY
  {
    if b.Live? then
      forall p :: b.next <= p < b.next + CAPACITY ==> ring[p % CAPACITY] == Lookup(b.held, p)
    else
      forall i :: 0 <= i < CAPACITY ==> ring[i] == None
  }

  /** The slot computed from the 16-bit number is the position's own: this is
      where 512 dividing 65536 matters. */
  lemma SlotOfWrapped(p: int)
    ensures Wrap16(p) % CAPACITY == p % CAPACITY
  {
    var k, r := p / 0x1_0000, p % 0x1_0000;
    assert p == CAPACITY * (128 * k + r / CAPACITY) + r % CAPACITY;
  }

  /** No live slot is ever aliased: positions of one window have distinct slots. */
  lemma SlotsDoNotAlias(p: int, q: int)
    requires 0 - CAPACITY < p - q < CAPACITY
    ensures p % CAPACITY == q % CAPACITY <==> p == q
  {
  }

  lemma StoredRing(ring: seq<Option<Frame>>, b: Buffer, p: int, frame: Frame)
    requires |ring| == CAPACITY && Valid(b) && Holds(ring, b)
    requires !b.Idle? && b.next <= p < b.next + CAPACITY
    ensures Holds(ring[p % CAPACITY := Some(frame)], JitterModel.Insert(b, p, frame))
  {
    var after := JitterModel.Insert(b, p, frame);
    forall q | after.next <= q < after.next + CAPACITY
      ensures ring[p % CAPACITY := Some(frame)][q % CAPACITY] == Lookup(after.held, q)
    {
      SlotsDoNotAlias(p, q);
    }
  }

  lemma AdvancedRing(ring: seq<Option<Frame>>, b: Buffer)
    requires |ring| == CAPACITY && Valid(b) && b.Live? && b.next <= b.high && Holds(ring, b)
    ensures Holds(ring[b.next % CAPACITY := None], Advance(b))
  {
    var a := Advance(b);
    forall q | a.next <= q < a.next + CAPACITY
      ensures ring[b.next % CAPACITY := None][q % CAPACITY] == Lookup(a.held, q)
    {
      if q == b.next + CAPACITY {
        assert q % CAPACITY == b.next % CAPACITY;
      } else {
        SlotsDoNotAlias(q, b.next);
      }
    }
  }

  /** What the code reads at a position's 16-bit number is what the model says. */
  lemma RingAt(ring: seq<Option<Frame>>, b: Buffer, p: int)
    requires |ring| == CAPACITY && Valid(b) && b.Live? && Holds(ring, b)
    requires b.next <= p <= b.high + 1
    ensures p < b.next + CAPACITY ==> ring[Wrap16(p) % CAPACITY] == Lookup(b.held, p)
    ensures SeqDiff(Wrap16(b.high), Wrap16(p)) == b.high - p
    ensures Wrap16(Wrap16(p) + 1) == Wrap16(p + 1)
  {
    SlotOfWrapped(p);
    SeqDiffIsDistance(b.high, p);
    Wrap16Next(p);
  }

  lemma PopUnfolds(b: Buffer, maxLead: nat)
    requires Valid(b)
    ensures var r := JitterModel.PopReady(b, maxLead);
            match Front(b, maxLead)
            case None => r == Popped(b, [])
            case Some(d) =>
              var rest := JitterModel.PopReady(Advance(b), maxLead);
              r == Popped(rest.buffer, [d] + rest.out)
  {
  }

  class JitterBuffer {
    const slots: array<Option<Frame>>
    var nextSeq: Option<u16>
    var highestSeq: Option<u16>
    const maxLead: nat

    /** The unbounded buffer this ring stands for. */
    ghost var model: Buffer

    ghost predicate Repr()
      reads this, slots
    {
      && slots.Length == CAPACITY
      && maxLead < CAPACITY
      && Valid(model)
      && nextSeq == (if model.Idle? then None else Some(Wrap16(model.next)))
      && highestSeq == (if model.Live? then Some(Wrap16(model.high)) else None)
      && Holds(slots[..], model)
    }

    constructor (maxLead: nat)
      requires maxLead < CAPACITY
      ensures Repr() && fresh(slots)
      ensures this.maxLead == maxLead && model == Idle
    {
      slots := new Option<Frame>[CAPACITY](_ => None);
      nextSeq, highestSeq := None, None;
      this.maxLead := maxLead;
      model := Idle;
    }

    method Reset(next: Option<u16>)
      requires Repr()
      modifies this, slots
      ensures Repr() && model == JitterModel.Reset(next)
    {
      var i := 0;
      while i < slots.Length
        invariant 0 <= i <= slots.Length
        invariant forall j :: 0 <= j < i ==> slots[j] == None
        invariant slots.Length == CAPACITY
      {
        slots[i] := None;
        i := i + 1;
      }
      nextSeq := next;
      highestSeq := None;
      model := JitterModel.Reset(next);
    }

    method Insert(number: u16, frame: Frame)
      requires Repr()
      modifies this, slots
      ensures Repr()
      ensures model == JitterModel.Insert(old(model), Place(old(model), number), frame)
    {
      ghost var p := Place(model, number);
      if nextSeq == None {
        nextSeq := Some(number);
        model := Armed(number);
      }
      SeqDiffReaches(number, model.next);
      var ahead := SeqDiff(number, nextSeq.value);
      if ahead < 0 || ahead >= CAPACITY {
        return;
      }
      assert number == Wrap16(p) && p == model.next + ahead;
      StoredRing(slots[..], model, p, frame);
      SlotOfWrapped(p);
      slots[number % CAPACITY] := Some(frame);
      if model.Live? {
        SeqDiffIsDistance(p, model.high);
      }
      if highestSeq == None || SeqDiff(number, highestSeq.value) > 0 {
        highestSeq := Some(number);
      }
      model := JitterModel.Insert(model, p, frame);
    }

    /** One turn of the release loop: hand over the front, give it up, or stop. */
    method ReleaseFront() returns (d: Option<Delivery>)
      requires Repr()
      modifies this, slots
      ensures Repr() && highestSeq == old(highestSeq)
      ensures var front := Front(old(model), maxLead);
              match front
              case None => d == None && model == old(model)
              case Some(f) => d == Some(OnWire(f)) && model == Advance(old(model))
    {
      d := None;
      if nextSeq == None || highestSeq == None {
        return;
      }
      var next, highest := nextSeq.value, highestSeq.value;
      RingAt(slots[..], model, model.next);
      if slots[next % CAPACITY].Some? {
        d := Some(Packet(next, slots[next % CAPACITY].value));
      } else if SeqDiff(highest, next) >= maxLead {
        d := Some(Lost(next));
      } else {
        return;
      }
      AdvancedRing(slots[..], model);
      SlotOfWrapped(model.next);
      slots[next % CAPACITY] := None;
      nextSeq := Some(Wrap16(next + 1));
      model := Advance(model);
    }

    method PopReady() returns (out: seq<Delivery>)
      requires Repr()
      modifies this, slots
      ensures Repr()
      ensures model == JitterModel.PopReady(old(model), maxLead).buffer
      ensures out == AllOnWire(JitterModel.PopReady(old(model), maxLead).out)
    {
      hide Holds, SeqDiff, OnWire, JitterModel.PopReady, Front;
      out := [];
      ghost var whole := JitterModel.PopReady(model, maxLead);
      ghost var popped := [];
      var front := ReleaseFront();
      ghost var before := old(model);
      while front.Some?
        invariant Repr() && Valid(before)
        invariant out == AllOnWire(popped)
        invariant match Front(before, maxLead)
                  case None => front == None && model == before
                  case Some(f) => front == Some(OnWire(f)) && model == Advance(before)
        invariant whole.buffer == JitterModel.PopReady(before, maxLead).buffer
        invariant whole.out == popped + JitterModel.PopReady(before, maxLead).out
        decreases front.Some?, if before.Live? then before.high + 1 - before.next else 0
      {
        var d := Front(before, maxLead).value;
        out := out + [front.value];
        OnWireAppend(popped, d);
        PopUnfolds(before, maxLead);
        popped := popped + [d];
        before := model;
        front := ReleaseFront();
      }
      PopUnfolds(before, maxLead);
    }

    method Missing() returns (missing: seq<int>)
      requires Repr()
      ensures missing == WrapAll(JitterModel.Missing(model))
    {
      hide SeqDiff, Wrap16, Holds;
      missing := [];
      if nextSeq == None || highestSeq == None {
        return;
      }
      var number, highest := nextSeq.value, highestSeq.value;
      ghost var p := model.next;
      RingAt(slots[..], model, p);
      while SeqDiff(highest, number) >= 0
        invariant number == Wrap16(p) && model.next <= p <= model.high + 1
        invariant SeqDiff(highest, number) == model.high - p
        invariant WrapAll(JitterModel.Missing(model)) == missing + WrapAll(Gaps(model.held, p, model.high))
        decreases model.high - p
      {
        RingAt(slots[..], model, p);
        RingAt(slots[..], model, p + 1);
        WrapGaps(model.held, p, model.high);
        if slots[number % CAPACITY].None? {
          missing := missing + [number];
        }
        number := Wrap16(number + 1);
        p := p + 1;
      }
    }
  }
}
