/** The clock model: NTP fixed point, the offset from timing exchanges
    (section 8 of RFC 5905, lowest delay of a window as in section 10), and
    the local instant at which a frame should play. */
module Clock {
  import opened Numbers

  const NS: nat := 1_000_000_000
  const TWO32: nat := 0x1_0000_0000

  // ----- NTP timestamps (section 6 of RFC 5905) -----

  function NtpToNs(seconds: u32, fraction: u32): u64 {
    seconds * NS + fraction * NS / TWO32
  }

  function NsToNtp(ns: u64): (u32, u32) {
    (Wrap32(ns / NS), ns % NS * TWO32 / NS)
  }

  /** To NTP and back: the same instant or one nanosecond early, with no 64-bit
      overflow on the way. It is the same instant exactly when the part below a
      second is a multiple of 1/512 s, so the pair is not quite an inverse. */
  lemma NtpRoundTrip(ns: u64)
    requires ns / NS < TWO32
    ensures var (s, f) := NsToNtp(ns);
            && (NtpToNs(s, f) == ns || NtpToNs(s, f) == ns - 1)
            && (NtpToNs(s, f) == ns <==> ns % NS % 1_953_125 == 0)
    ensures ns % NS * TWO32 < 0x1_0000_0000_0000_0000
  {
    var n := ns % NS;
    var f := n * TWO32 / NS;
    assert n * TWO32 == f * NS + n * TWO32 % NS;
    ExactFraction(n);
    assert f * NS / TWO32 == if n * TWO32 % NS == 0 then n else n - 1;
  }

  /** 2^32 n is a multiple of 10^9 = 2^9 5^9 exactly when n is one of 5^9. */
  lemma ExactFraction(n: nat)
    ensures n * TWO32 % NS == 0 <==> n % 1_953_125 == 0
  {
    if n % 1_953_125 == 0 {
      assert n == 1_953_125 * (n / 1_953_125);
      assert n * TWO32 == NS * (8_388_608 * (n / 1_953_125));
    }
    if n * TWO32 % NS == 0 {
      var q := n * TWO32 / NS;
      assert n * 8_388_608 == 1_953_125 * q;
      // 2^23 * 1241897 is 1 modulo 5^9
      assert n == 1_953_125 * (1_241_897 * q - 5_333_907 * n);
    }
  }

  /** The other way round at most five of the 2^32 fraction units are lost, the
      seconds never. */
  lemma FractionRoundTrip(seconds: u32, fraction: u32)
    ensures NtpToNs(seconds, fraction) / NS == seconds
    ensures var (s, f) := NsToNtp(NtpToNs(seconds, fraction));
            s == seconds && fraction - 5 <= f <= fraction
  {
    var n := fraction * NS / TWO32;
    assert n < NS && fraction * NS == n * TWO32 + fraction * NS % TWO32;
    assert NtpToNs(seconds, fraction) == seconds * NS + n;
    assert (seconds * NS + n) / NS == seconds && (seconds * NS + n) % NS == n;
    var f := n * TWO32 / NS;
    assert n * TWO32 == f * NS + n * TWO32 % NS;
  }

  /** Later NTP instants are never earlier in nanoseconds. */
  lemma NtpToNsMonotone(s1: u32, f1: u32, s2: u32, f2: u32)
    requires s1 < s2 || (s1 == s2 && f1 <= f2)
    ensures NtpToNs(s1, f1) <= NtpToNs(s2, f2)
  {
    assert f1 * NS / TWO32 < NS;
  }

  // ----- The offset -----

  const WINDOW: nat := 8

  datatype Sample = Sample(rtt: nat, offset: int)

  /** The four timestamps of an exchange: local departure, remote receive,
      remote transmit, local arrival. */
  datatype Exchange = Exchange(t1: u64, t2: u64, t3: u64, t4: u64)

  function Measure(e: Exchange): Option<Sample> {
    if e.t4 < e.t1 || e.t3 < e.t2 || e.t4 - e.t1 < e.t3 - e.t2 then None
    else
      var rtt := (e.t4 - e.t1) - (e.t3 - e.t2);
      Some(Sample(rtt, e.t3 + rtt / 2 - e.t4))
  }

  function Samples(exchanges: seq<Exchange>): seq<Sample> {
    if exchanges == [] then []
    else
      var earlier := Samples(exchanges[..|exchanges| - 1]);
      match Measure(exchanges[|exchanges| - 1])
      case Some(s) => earlier + [s]
      case None => earlier
  }

  /** The last eight of a list. */
  function Window(samples: seq<Sample>): seq<Sample> {
    if |samples| <= WINDOW then samples else samples[|samples| - WINDOW..]
  }

  lemma SamplesNext(exchanges: seq<Exchange>, e: Exchange)
    ensures Samples(exchanges + [e]) == Samples(exchanges) + if Measure(e).Some? then [Measure(e).value] else []
  {
    assert (exchanges + [e])[..|exchanges|] == exchanges;
  }

  /** The window moves on by one sample. */
  lemma WindowNext(samples: seq<Sample>, s: Sample)
    ensures var window := Window(samples);
            Window(samples + [s]) == (if |window| == WINDOW then window[1..] else window) + [s]
  {
  }

  /** `s` is the first of the samples with the lowest round trip. */
  ghost predicate IsBest(samples: seq<Sample>, s: Sample) {
    exists i :: 0 <= i < |samples| && samples[i] == s && LowestAt(samples, i)
  }

  ghost predicate LowestAt(samples: seq<Sample>, i: nat)
    requires i < |samples|
  {
    && (forall j :: 0 <= j < i ==> samples[i].rtt < samples[j].rtt)
    && (forall j :: i <= j < |samples| ==> samples[i].rtt <= samples[j].rtt)
  }

  method Best(samples: seq<Sample>) returns (best: Sample)
    requires samples != []
    ensures IsBest(samples, best)
  {
    best := samples[0];
    ghost var at := 0;
    for i := 1 to |samples|
      invariant 0 <= at < i && best == samples[at]
      invariant forall j :: 0 <= j < at ==> best.rtt < samples[j].rtt
      invariant forall j :: at <= j < i ==> best.rtt <= samples[j].rtt
    {
      if samples[i].rtt < best.rtt {
        best := samples[i];
        at := i;
      }
    }
    assert LowestAt(samples, at);
  }

  datatype SyncPoint = SyncPoint(remoteNs: u64, rtp: u32)

  /** The local instant of a frame, as a signed number of nanoseconds. */
  function LocalInstant(offset: int, sync: SyncPoint, sampleRate: nat, rtp: u32): int
    requires sampleRate > 0
  {
    sync.remoteNs - offset + TruncDiv(Signed32(Wrap32(rtp - sync.rtp)) * NS, sampleRate)
  }

  class ClockModel {
    const sampleRate: u32
    var samples: seq<Sample>
    var offset: Option<int>
    var anchor: Option<SyncPoint>

    /** Every exchange fed so far, ill-formed ones included. */
    ghost var exchanges: seq<Exchange>

    ghost predicate Repr()
      reads this
    {
      && samples == Window(Samples(exchanges))
      && (offset == None <==> samples == [])
      && (offset.Some? ==> exists s :: IsBest(samples, s) && offset == Some(s.offset))
    }

    constructor (sampleRate: u32)
      ensures Repr() && exchanges == [] && anchor == None && this.sampleRate == sampleRate
    {
      this.sampleRate := sampleRate;
      samples, offset, anchor, exchanges := [], None, None, [];
    }

    method AddTiming(e: Exchange)
      requires Repr()
      modifies this
      ensures Repr() && exchanges == old(exchanges) + [e] && anchor == old(anchor)
    {
      ghost var before := Samples(exchanges);
      SamplesNext(exchanges, e);
      hide Samples, IsBest;
      exchanges := exchanges + [e];
      if e.t4 < e.t1 || e.t3 < e.t2 {
        return;
      }
      var roundTrip, remoteProcessing := e.t4 - e.t1, e.t3 - e.t2;
      if roundTrip < remoteProcessing {
        return;
      }
      var rtt := roundTrip - remoteProcessing;
      var remoteAtT4 := e.t3 + rtt / 2;
      WindowNext(before, Sample(rtt, remoteAtT4 - e.t4));
      if |samples| == WINDOW {
        samples := samples[1..];
      }
      samples := samples + [Sample(rtt, remoteAtT4 - e.t4)];
      var best := Best(samples);
      offset := Some(best.offset);
    }

    method SetAnchor(remoteNs: u64, rtp: u32)
      requires Repr()
      modifies this`anchor
      ensures Repr() && anchor == Some(SyncPoint(remoteNs, rtp))
    {
      anchor := Some(SyncPoint(remoteNs, rtp));
    }

    /** The instant a frame should reach the DAC: known once there are an offset
        and an anchor, and not before the local clock's zero. */
    function PlayTime(rtp: u32): (r: Option<u64>)
      requires sampleRate > 0
      reads this
      ensures r.Some? <==>
        offset.Some? && anchor.Some? && LocalInstant(offset.value, anchor.value, sampleRate, rtp) >= 0
      ensures r.Some? ==> r.value == Wrap64(LocalInstant(offset.value, anchor.value, sampleRate, rtp))
    {
      if offset == None || anchor == None then None
      else
        var play := LocalInstant(offset.value, anchor.value, sampleRate, rtp);
        if play >= 0 then Some(Wrap64(play)) else None
    }
  }

  // ----- How good the offset is -----

  /** A correctly paired exchange: the remote clock is `theta` ahead throughout,
      and both network paths take nonnegative time. */
  ghost predicate Truthful(theta: int, e: Exchange) {
    && e.t2 >= e.t1 + theta
    && e.t3 >= e.t2
    && e.t4 >= e.t3 - theta
  }

  /** Every exchange that is accepted is a correctly paired one. */
  ghost predicate WellPaired(theta: int, exchanges: seq<Exchange>) {
    forall i :: 0 <= i < |exchanges| && WellFormed(exchanges[i]) ==> Truthful(theta, exchanges[i])
  }

  /** A truthful exchange is accepted, and its offset is off by half the
      difference of the path delays: at most half its round trip, rounded up. */
  lemma SampleError(theta: int, e: Exchange)
    requires Truthful(theta, e)
    ensures var m := Measure(e);
            && m.Some?
            && m.value.rtt == (e.t2 - e.t1 - theta) + (e.t4 - e.t3 + theta)
            && m.value.offset - theta == m.value.rtt / 2 - (e.t4 - e.t3 + theta)
            && -((m.value.rtt + 1) / 2) <= m.value.offset - theta <= m.value.rtt / 2
  {
  }

  ghost predicate Near(theta: int, s: Sample) {
    -((s.rtt + 1) / 2) <= s.offset - theta <= s.rtt / 2
  }

  lemma {:induction false} SamplesAreNear(theta: int, exchanges: seq<Exchange>)
    requires WellPaired(theta, exchanges)
    ensures forall i :: 0 <= i < |Samples(exchanges)| ==> Near(theta, Samples(exchanges)[i])
  {
    if exchanges != [] {
      SamplesAreNear(theta, exchanges[..|exchanges| - 1]);
      var e := exchanges[|exchanges| - 1];
      MeasuredIff(e);
      if WellFormed(e) {
        SampleError(theta, e);
      }
    }
  }

  lemma BestIsLowest(samples: seq<Sample>, best: Sample, s: Sample)
    requires IsBest(samples, best) && s in samples
    ensures best in samples && best.rtt <= s.rtt
  {
    var i :| 0 <= i < |samples| && samples[i] == best && LowestAt(samples, i);
    var j :| 0 <= j < |samples| && samples[j] == s;
    assert if j < i then best.rtt < samples[j].rtt else best.rtt <= samples[j].rtt;
  }

  // ----- Which exchanges count -----

  /** Neither side's clock runs backwards, and the remote's stay is within the
      round trip. */
  predicate WellFormed(e: Exchange) {
    e.t1 <= e.t4 && e.t2 <= e.t3 && e.t3 - e.t2 <= e.t4 - e.t1
  }

  function RoundTrip(e: Exchange): nat
    requires WellFormed(e)
  {
    (e.t4 - e.t1) - (e.t3 - e.t2)
  }

  function WellFormedCount(exchanges: seq<Exchange>): nat {
    if exchanges == [] then 0
    else WellFormedCount(exchanges[..|exchanges| - 1]) + if WellFormed(exchanges[|exchanges| - 1]) then 1 else 0
  }

  lemma MeasuredIff(e: Exchange)
    ensures Measure(e).Some? <==> WellFormed(e)
    ensures WellFormed(e) ==> Measure(e).value.rtt == RoundTrip(e)
  {
  }

  lemma {:induction false} CountSplits(a: seq<Exchange>, b: seq<Exchange>)
    ensures WellFormedCount(a + b) == WellFormedCount(a) + WellFormedCount(b)
  {
    if b == [] {
      assert a + b == a;
    } else {
      assert (a + b)[..|a + b| - 1] == a + b[..|b| - 1];
      CountSplits(a, b[..|b| - 1]);
    }
  }

  /** Every well-formed exchange is a sample, in its place among them. */
  lemma {:induction false} SampleOf(exchanges: seq<Exchange>, i: nat)
    requires i < |exchanges| && WellFormed(exchanges[i])
    ensures var place := WellFormedCount(exchanges[..i]);
            && place < |Samples(exchanges)| == WellFormedCount(exchanges)
            && Samples(exchanges)[place] == Measure(exchanges[i]).value
  {
    var init, e := exchanges[..|exchanges| - 1], exchanges[|exchanges| - 1];
    MeasuredIff(e);
    SampleCount(init);
    if i < |init| {
      assert init[..i] == exchanges[..i];
      SampleOf(init, i);
    }
  }

  lemma {:induction false} SampleCount(exchanges: seq<Exchange>)
    ensures |Samples(exchanges)| == WellFormedCount(exchanges)
  {
    if exchanges != [] {
      SampleCount(exchanges[..|exchanges| - 1]);
      MeasuredIff(exchanges[|exchanges| - 1]);
    }
  }

  /** And every sample is a well-formed exchange. */
  lemma {:induction false} SourceOf(exchanges: seq<Exchange>, place: nat) returns (i: nat)
    requires place < |Samples(exchanges)|
    ensures i < |exchanges| && WellFormed(exchanges[i]) && WellFormedCount(exchanges[..i]) == place
    ensures Samples(exchanges)[place] == Measure(exchanges[i]).value
  {
    var init, e := exchanges[..|exchanges| - 1], exchanges[|exchanges| - 1];
    MeasuredIff(e);
    SampleCount(init);
    if place < |Samples(init)| {
      i := SourceOf(init, place);
      assert init[..i] == exchanges[..i];
    } else {
      i := |init|;
    }
  }

  /** Well formed, and fewer than eight well-formed ones since. */
  predicate Recent(exchanges: seq<Exchange>, i: int) {
    0 <= i < |exchanges| && WellFormed(exchanges[i]) && WellFormedCount(exchanges[i + 1..]) < 8
  }

  /** The one with the lowest round trip of these. */
  ghost predicate BestRecent(exchanges: seq<Exchange>, i: int) {
    && Recent(exchanges, i) && Measure(exchanges[i]).Some?
    && forall j :: Recent(exchanges, j) ==> RoundTrip(exchanges[i]) <= RoundTrip(exchanges[j])
  }

  lemma CountAround(exchanges: seq<Exchange>, i: nat)
    requires i < |exchanges| && WellFormed(exchanges[i])
    ensures WellFormedCount(exchanges) == WellFormedCount(exchanges[..i]) + 1 + WellFormedCount(exchanges[i + 1..])
  {
    var e := [exchanges[i]];
    assert exchanges == exchanges[..i] + e + exchanges[i + 1..];
    CountSplits(exchanges[..i] + e, exchanges[i + 1..]);
    CountSplits(exchanges[..i], e);
    assert e[..0] == [];
  }

  lemma RecentIsSampled(exchanges: seq<Exchange>, i: nat)
    requires Recent(exchanges, i)
    ensures Measure(exchanges[i]).value in Window(Samples(exchanges))
  {
    SampleOf(exchanges, i);
    CountAround(exchanges, i);
    hide WellFormedCount, Samples, Measure;
    var samples, place := Samples(exchanges), WellFormedCount(exchanges[..i]);
    assert samples[place] in samples[if |samples| <= WINDOW then 0 else |samples| - WINDOW..];
  }

  lemma SampledIsRecent(exchanges: seq<Exchange>, s: Sample) returns (i: nat)
    requires s in Window(Samples(exchanges))
    ensures Recent(exchanges, i) && Measure(exchanges[i]) == Some(s)
  {
    var samples := Samples(exchanges);
    var from := if |samples| <= WINDOW then 0 else |samples| - WINDOW;
    var w :| 0 <= w < |Window(samples)| && Window(samples)[w] == s;
    assert samples[from + w] == s;
    i := SourceOf(exchanges, from + w);
    CountAround(exchanges, i);
    SampleCount(exchanges);
    MeasuredIff(exchanges[i]);
  }

  /** The offset is known exactly once some exchange was well formed, and it is that
      of the last eight of these with the lowest round trip. */
  lemma OffsetIsBestOfLastEight(m: ClockModel)
    requires m.Repr()
    ensures m.offset.Some? <==> exists i :: 0 <= i < |m.exchanges| && WellFormed(m.exchanges[i])
    ensures m.offset.Some? ==>
      exists i :: BestRecent(m.exchanges, i) && m.offset == Some(Measure(m.exchanges[i]).value.offset)
  {
    hide WellFormedCount, Samples, Measure, IsBest, Recent;
    SampleCount(m.exchanges);
    if i :| 0 <= i < |m.exchanges| && WellFormed(m.exchanges[i]) {
      SampleOf(m.exchanges, i);
    }
    if m.offset.Some? {
      var best :| IsBest(m.samples, best) && m.offset == Some(best.offset);
      BestIsThere(m.samples, best);
      var i := SampledIsRecent(m.exchanges, best);
      RecentIsWellFormed(m.exchanges, i);
      MeasuredIff(m.exchanges[i]);
      forall j | Recent(m.exchanges, j)
        ensures 0 <= j < |m.exchanges| && WellFormed(m.exchanges[j])
                && RoundTrip(m.exchanges[i]) <= RoundTrip(m.exchanges[j])
      {
        RecentIsWellFormed(m.exchanges, j);
        RecentIsSampled(m.exchanges, j);
        MeasuredIff(m.exchanges[j]);
        BestIsLowest(m.samples, best, Measure(m.exchanges[j]).value);
      }
      assert BestRecent(m.exchanges, i);
    }
  }

  lemma BestIsThere(samples: seq<Sample>, best: Sample)
    requires IsBest(samples, best)
    ensures best in samples
  {
  }

  lemma RecentIsWellFormed(exchanges: seq<Exchange>, i: int)
    requires Recent(exchanges, i)
    ensures 0 <= i < |exchanges| && WellFormed(exchanges[i])
  {
  }

  /** Over any run of correctly paired exchanges, with ill-formed ones in
      between, the model's offset is within half of every one of the last eight
      well-formed round trips, rounded up, so within half of the smallest. */
  lemma OffsetError(theta: int, m: ClockModel, i: nat)
    requires m.Repr() && Recent(m.exchanges, i) && WellPaired(theta, m.exchanges)
    ensures m.offset.Some?
    ensures var rtt := RoundTrip(m.exchanges[i]);
            -((rtt + 1) / 2) <= m.offset.value - theta <= rtt / 2
  {
    RecentIsSampled(m.exchanges, i);
    MeasuredIff(m.exchanges[i]);
    SamplesAreNear(theta, m.exchanges);
    hide Samples, WellPaired, IsBest, Measure, Recent;
    var best :| IsBest(m.samples, best) && m.offset == Some(best.offset);
    BestIsLowest(m.samples, best, Measure(m.exchanges[i]).value);
    assert best in Samples(m.exchanges);
    assert Near(theta, best);
  }

  // ----- Play time -----

  /** Truncated division leaves less than the divisor, toward zero. */
  lemma TruncDivBounds(a: int, b: nat)
    requires b > 0
    ensures var r := a - TruncDiv(a, b) * b;
            if a >= 0 then 0 <= r < b else 0 - b < r <= 0
  {
    var n := if a >= 0 then a else -a;
    assert n == n / b * b + n % b;
    if a < 0 {
      assert TruncDiv(a, b) * b == -(n / b * b);
    }
  }

  lemma TruncDivUnique(a: int, b: nat, q: int)
    requires b > 0
    requires if a >= 0 then 0 <= a - q * b < b else 0 - b < a - q * b <= 0
    ensures TruncDiv(a, b) == q
  {
    TruncDivBounds(a, b);
    hide TruncDiv;
    var t := TruncDiv(a, b);
    if t > q {
      MulMono(q + 1, t, b);
      Distributes(q, 1, b);
    } else if t < q {
      MulMono(t + 1, q, b);
      Distributes(t, 1, b);
    }
  }

  lemma SignedDistance(rtp: u32, d: int)
    requires -0x8000_0000 <= d < 0x8000_0000
    ensures Signed32(Wrap32(Wrap32(rtp + d) - rtp)) == d
  {
  }

  /** The frame `d` frames from the anchor, within half of the 32-bit circle. */
  lemma InstantAt(offset: int, sync: SyncPoint, sampleRate: nat, d: int)
    requires sampleRate > 0 && -0x8000_0000 <= d < 0x8000_0000
    ensures LocalInstant(offset, sync, sampleRate, Wrap32(sync.rtp + d))
         == sync.remoteNs - offset + TruncDiv(d * NS, sampleRate)
  {
    hide TruncDiv;
    SignedDistance(sync.rtp, d);
  }

  /** Walking timestamps forward through the half circle on either side of the
      anchor, across the wrap of the 32-bit timestamp too, never goes back in
      time. */
  lemma PlayTimeMonotone(offset: int, sync: SyncPoint, sampleRate: nat, d: int, k: nat)
    requires sampleRate > 0 && -0x8000_0000 <= d && d + k < 0x8000_0000
    ensures LocalInstant(offset, sync, sampleRate, Wrap32(sync.rtp + d))
         <= LocalInstant(offset, sync, sampleRate, Wrap32(sync.rtp + d + k))
  {
    InstantAt(offset, sync, sampleRate, d);
    InstantAt(offset, sync, sampleRate, d + k);
    TruncDivMonotone(d * NS, (d + k) * NS, sampleRate);
  }

  lemma TruncDivMonotone(a: int, a': int, b: nat)
    requires b > 0 && a <= a'
    ensures TruncDiv(a, b) <= TruncDiv(a', b)
  {
    TruncDivBounds(a, b);
    TruncDivBounds(a', b);
    hide TruncDiv;
    var t, t' := TruncDiv(a, b), TruncDiv(a', b);
    if t > t' {
      MulMono(t' + 1, t, b);
      Distributes(t', 1, b);
    }
  }

  lemma TruncDivShift(a: int, b: nat, k: int)
    requires b > 0 && k >= 0
    ensures TruncDiv(a + k * b, b) - TruncDiv(a, b)
         == if a >= 0 || a + k * b <= 0 || TruncDiv(a, b) * b == a then k else k - 1
  {
    TruncDivBounds(a, b);
    hide TruncDiv;
    var t := TruncDiv(a, b);
    Distributes(t, k, b);
    Distributes(t + k - 1, 1, b);
    if a >= 0 || a + k * b <= 0 || t * b == a {
      TruncDivUnique(a + k * b, b, t + k);
    } else {
      TruncDivUnique(a + k * b, b, t + k - 1);
    }
  }

  /** One second of frames is one second of time on either side of the anchor;
      across it one nanosecond is lost unless the division is exact there. */
  lemma OneSecondIff(offset: int, sync: SyncPoint, sampleRate: nat, d: int)
    requires sampleRate > 0 && -0x8000_0000 <= d && d + sampleRate < 0x8000_0000
    ensures var step := LocalInstant(offset, sync, sampleRate, Wrap32(sync.rtp + d + sampleRate))
                      - LocalInstant(offset, sync, sampleRate, Wrap32(sync.rtp + d));
            && (step == NS || step == NS - 1)
            && (step == NS <==> d >= 0 || d + sampleRate <= 0 || TruncDiv(d * NS, sampleRate) * sampleRate == d * NS)
  {
    InstantAt(offset, sync, sampleRate, d);
    InstantAt(offset, sync, sampleRate, d + sampleRate);
    hide LocalInstant, TruncDiv, Wrap32;
    TruncDivShift(d * NS, sampleRate, NS);
    assert (d + sampleRate) * NS == d * NS + NS * sampleRate;
  }

  /** The instant a frame `d` frames from the anchor should ideally play, in
      nanoseconds times the sample rate to keep it exact. */
  function ScaledIdeal(theta: int, sync: SyncPoint, rate: nat, d: int): int {
    (sync.remoteNs - theta) * rate + d * NS
  }

  /** `play` is less than `lo + 1` ns before and `hi + 1` ns after the ideal. */
  predicate CloseTo(play: int, scaledIdeal: int, rate: nat, lo: nat, hi: nat) {
    -((lo + 1) * rate) < play * rate - scaledIdeal < (hi + 1) * rate
  }

  /** End to end: with a constant true offset and correctly paired exchanges the
      computed instant is less than 1 ns plus half of any of the last eight round
      trips, rounded up, from the ideal instant of the frame. */
  lemma PlayTimeError(theta: int, m: ClockModel, i: nat, d: int)
    requires m.Repr() && m.anchor.Some? && m.sampleRate > 0 && -0x8000_0000 <= d < 0x8000_0000
    requires Recent(m.exchanges, i) && WellPaired(theta, m.exchanges)
    ensures m.offset.Some?
    ensures var rtt := RoundTrip(m.exchanges[i]);
            var rtp := Wrap32(m.anchor.value.rtp + d);
            var play := LocalInstant(m.offset.value, m.anchor.value, m.sampleRate, rtp);
            var ideal := ScaledIdeal(theta, m.anchor.value, m.sampleRate, d);
            && CloseTo(play, ideal, m.sampleRate, rtt / 2, (rtt + 1) / 2)
            && (0 <= play < 0x1_0000_0000_0000_0000 ==> m.PlayTime(rtp) == Some(play))
  {
    OffsetError(theta, m, i);
    var rtt := RoundTrip(m.exchanges[i]);
    hide ClockModel.Repr, Samples, WellPaired, Recent, LocalInstant, Wrap32, CloseTo, ScaledIdeal;
    InstantError(theta, m.offset.value, m.anchor.value, m.sampleRate, rtt / 2, (rtt + 1) / 2, d);
  }

  lemma InstantError(theta: int, offset: int, sync: SyncPoint, rate: nat, lo: nat, hi: nat, d: int)
    requires rate > 0 && 0 - lo <= theta - offset <= hi && -0x8000_0000 <= d < 0x8000_0000
    ensures var play := LocalInstant(offset, sync, rate, Wrap32(sync.rtp + d));
            CloseTo(play, ScaledIdeal(theta, sync, rate, d), rate, lo, hi)
  {
    InstantAt(offset, sync, rate, d);
    TruncDivBounds(d * NS, rate);
    hide TruncDiv, LocalInstant, Wrap32;
    ScaledError(sync.remoteNs - theta, theta - offset, TruncDiv(d * NS, rate), d * NS, lo, hi, rate);
  }

  lemma ScaledError(base: int, err: int, t: int, a: int, lo: nat, hi: nat, rate: nat)
    requires rate > 0 && 0 - lo <= err <= hi && 0 - rate < a - t * rate < rate
    ensures var play := base + err + t;
            -((lo + 1) * rate) < play * rate - (base * rate + a) < (hi + 1) * rate
  {
    MulMono(0 - lo, err, rate);
    MulMono(err, hi, rate);
    Distributes(lo, 1, rate);
    Distributes(hi, 1, rate);
    assert (0 - lo) * rate == -(lo * rate);
    Distributes(base + err, t, rate);
    Distributes(base, err, rate);
  }
}
