/** Position reports: where in the track the playing audio is, once a second.
    Durations are exact frame counts; a second is `rate` frames. */
module Position {
  import opened Numbers

  /** A track's extent on the circle of 32-bit timestamps. */
  datatype Track = Track(start: u32, end: u32)

  datatype Report = Report(elapsed: u32, duration: u32)

  function Extent(track: Track, ts: u32, rate: u32): Option<Report> {
    var played, total := Wrap32(ts - track.start), Wrap32(track.end - track.start);
    if rate == 0 || played > total then None else Some(Report(played, total))
  }

  /** What the sender's own progress line reports: saturating, not circular. */
  function SetProgress(start: u32, current: u32, end: u32): Report {
    Report(Max(0, current - start), Max(0, end - start))
  }

  datatype Reporter = Reporter(reported: Option<nat>, log: seq<Report>)

  /** The second of the track a frame count falls in. */
  function Second(frames: nat, rate: nat): nat
    requires rate > 0
  {
    frames / rate
  }

  /** The second that starts no later than the frame and ends after it. */
  lemma SecondSpans(frames: nat, rate: nat)
    requires rate > 0
    ensures Second(frames, rate) * rate <= frames < (Second(frames, rate) + 1) * rate
  {
    assert frames == frames / rate * rate + frames % rate;
    Distributes(frames / rate, 1, rate);
  }

  /** A position before the start of the track reads as its start, an end before it
      as no length. */
  lemma ProgressSaturates(start: u32, current: u32, end: u32)
    ensures var r := SetProgress(start, current, end);
            && (if current >= start then start + r.elapsed == current else r.elapsed == 0)
            && (if end >= start then start + r.duration == end else r.duration == 0)
  {
  }

  function Advance(r: Reporter, track: Option<Track>, ts: u32, rate: u32): Reporter {
    if track == None then r
    else match Extent(track.value, ts, rate)
      case None => r
      case Some(report) =>
        var second := Second(report.elapsed, rate);
        if r.reported == Some(second) then r else Reporter(Some(second), r.log + [report])
  }

  class Position {
    const rate: u32
    var reported: Option<nat>
    var events: seq<Report>

    constructor (rate: u32)
      ensures reported == None && events == [] && this.rate == rate
    {
      this.rate := rate;
      reported, events := None, [];
    }

    method Played(ts: u32, track: Option<Track>)
      modifies this
      ensures Reporter(reported, events) == Advance(Reporter(old(reported), old(events)), track, ts, rate)
    {
      if track == None {
        return;
      }
      var extent := Extent(track.value, ts, rate);
      if extent == None {
        return;
      }
      var second := Second(extent.value.elapsed, rate);
      if reported == Some(second) {
        return;
      }
      reported := Some(second);
      events := events + [extent.value];
    }
  }

  /** `ts` lies on the arc that leads from the start of the track to its end,
      `k` frames along it. */
  ghost predicate OnArc(track: Track, ts: u32, k: u32) {
    ts == Wrap32(track.start + k) && k <= Wrap32(track.end - track.start)
  }

  lemma CircleDistance(start: u32, ts: u32, k: u32)
    ensures ts == Wrap32(start + k) <==> Wrap32(ts - start) == k
  {
  }

  /** A timestamp has a place in the track exactly if it is on the arc, and then
      the place is its distance along it, never past the end. */
  lemma ExtentIffOnArc(track: Track, ts: u32, rate: u32, k: u32)
    ensures Extent(track, ts, rate) == Some(Report(k, Wrap32(track.end - track.start)))
        <==> rate > 0 && OnArc(track, ts, k)
    ensures Extent(track, ts, rate).Some? ==> exists k: u32 :: OnArc(track, ts, k)
  {
    CircleDistance(track.start, ts, k);
    if Extent(track, ts, rate).Some? {
      CircleDistance(track.start, ts, Wrap32(ts - track.start));
      assert OnArc(track, ts, Wrap32(ts - track.start));
    }
  }

  /** Where nothing wraps, playback and the sender's progress line agree. */
  lemma AgreesWithProgressLine(track: Track, ts: u32, rate: u32)
    requires rate > 0 && track.start <= ts <= track.end
    ensures Extent(track, ts, rate) == Some(SetProgress(track.start, ts, track.end))
  {
  }

  /** A report is made only for a timestamp within a stated track, and says how far
      in it lies and how long the track is. */
  lemma ReportsOnlyInTrack(r: Reporter, track: Option<Track>, ts: u32, rate: u32)
    ensures var r' := Advance(r, track, ts, rate);
            r' != r ==>
              && track.Some? && rate > 0
              && exists k: u32 :: OnArc(track.value, ts, k)
                   && r'.log == r.log + [Report(k, Wrap32(track.value.end - track.value.start))]
  {
    if track.Some? {
      var k := Wrap32(ts - track.value.start);
      ExtentIffOnArc(track.value, ts, rate, k);
      hide OnArc;
    }
  }

  /** The reporter after playback has walked through some of a track. */
  function ReportsAt(r: Reporter, track: Track, offsets: seq<nat>, rate: u32): Reporter {
    if offsets == [] then r
    else Advance(ReportsAt(r, track, offsets[..|offsets| - 1], rate), Some(track),
                 Wrap32(track.start + offsets[|offsets| - 1]), rate)
  }

  /** Playback moving forward through the track. */
  ghost predicate Walk(track: Track, offsets: seq<nat>) {
    && (forall i :: 0 <= i < |offsets| ==> offsets[i] <= Wrap32(track.end - track.start))
    && (forall i, j :: 0 <= i <= j < |offsets| ==> offsets[i] <= offsets[j])
  }

  ghost predicate Increasing(log: seq<Report>, rate: nat)
    requires rate > 0
  {
    forall i, j :: 0 <= i < j < |log| ==> Second(log[i].elapsed, rate) < Second(log[j].elapsed, rate)
  }

  ghost predicate Covers(log: seq<Report>, k: nat, rate: nat)
    requires rate > 0
  {
    exists i :: 0 <= i < |log| && Second(log[i].elapsed, rate) == Second(k, rate)
  }

  /** The second of `k` was reported last before the walk, and the walk starts in
      it: the reporter takes it for reported. */
  predicate Suppressed(reported: Option<nat>, offsets: seq<nat>, k: nat, rate: nat)
    requires rate > 0
  {
    && offsets != [] && reported == Some(Second(offsets[0], rate))
    && Second(k, rate) == Second(offsets[0], rate)
  }

  lemma SecondMono(a: nat, b: nat, rate: nat)
    requires rate > 0 && a <= b
    ensures Second(a, rate) <= Second(b, rate)
  {
    var q, q' := a / rate, b / rate;
    assert a == q * rate + a % rate && b == q' * rate + b % rate;
    if q > q' {
      MulMono(q' + 1, q, rate);
    }
  }

  /** One step forward in the track: a report exactly when the second changes. */
  lemma AdvanceInTrack(r: Reporter, track: Track, k: u32, rate: u32)
    requires rate > 0 && k <= Wrap32(track.end - track.start)
    ensures Advance(r, Some(track), Wrap32(track.start + k), rate)
         == if r.reported == Some(Second(k, rate)) then r
            else Reporter(Some(Second(k, rate)), r.log + [Report(k, Wrap32(track.end - track.start))])
  {
    ExtentIffOnArc(track, Wrap32(track.start + k), rate, k);
  }

  /** The reports `log` of a walk begun by a reporter that had last reported
      `before`, and what it now takes for reported. */
  ghost predicate ReportsWell(
      before: Option<nat>, reported: Option<nat>, log: seq<Report>, track: Track, offsets: seq<nat>, rate: nat)
    requires rate > 0
  {
    && Increasing(log, rate)
    && (forall i :: 0 <= i < |log| ==>
          log[i].elapsed in offsets && log[i].elapsed <= log[i].duration == Wrap32(track.end - track.start))
    && (forall k :: k in offsets ==> (Covers(log, k, rate) <==> !Suppressed(before, offsets, k, rate)))
    && reported == (if offsets == [] then before else Some(Second(offsets[|offsets| - 1], rate)))
  }

  lemma SameSecond(
      before: Option<nat>, reported: Option<nat>, log: seq<Report>, track: Track, offsets: seq<nat>, k: nat, rate: nat)
    requires rate > 0 && ReportsWell(before, reported, log, track, offsets, rate)
    requires reported == Some(Second(k, rate))
    ensures ReportsWell(before, reported, log, track, offsets + [k], rate)
  {
    hide Second;
    var all := offsets + [k];
    if offsets == [] {
      forall x | x in all ensures Covers(log, x, rate) <==> !Suppressed(before, all, x, rate) {
        assert x == k;
      }
    } else {
      assert all[0] == offsets[0];
      var last := offsets[|offsets| - 1];
      assert Covers(log, last, rate) <==> !Suppressed(before, offsets, last, rate);
      assert Covers(log, k, rate) <==> Covers(log, last, rate);
    }
  }

  lemma CoversNext(log: seq<Report>, report: Report, k: nat, rate: nat)
    requires rate > 0
    ensures Covers(log + [report], k, rate)
       <==> Covers(log, k, rate) || Second(report.elapsed, rate) == Second(k, rate)
  {
    hide Second;
    if Covers(log, k, rate) {
      var i :| 0 <= i < |log| && Second(log[i].elapsed, rate) == Second(k, rate);
      assert (log + [report])[i] == log[i];
    }
    assert (log + [report])[|log|] == report;
  }

  lemma NewSecond(
      before: Option<nat>, reported: Option<nat>, log: seq<Report>, track: Track, offsets: seq<nat>,
      report: Report, rate: nat)
    requires rate > 0 && ReportsWell(before, reported, log, track, offsets, rate)
    requires reported != Some(Second(report.elapsed, rate))
    requires report.elapsed <= report.duration == Wrap32(track.end - track.start)
    requires forall k :: k in offsets ==> Second(k, rate) < Second(report.elapsed, rate)
    ensures ReportsWell(before, Some(Second(report.elapsed, rate)), log + [report], track,
                        offsets + [report.elapsed], rate)
  {
    hide Second, Covers, Wrap32;
    var all := offsets + [report.elapsed];
    if offsets != [] {
      assert all[0] == offsets[0] && offsets[0] in offsets;
    }
    forall k | k in all ensures Covers(log + [report], k, rate) <==> !Suppressed(before, all, k, rate) {
      CoversNext(log, report, k, rate);
    }
  }

  lemma WalkPrefix(track: Track, offsets: seq<nat>)
    requires Walk(track, offsets) && offsets != []
    ensures var init, k := offsets[..|offsets| - 1], offsets[|offsets| - 1];
            && Walk(track, init) && k <= Wrap32(track.end - track.start)
            && (init != [] ==> init[|init| - 1] <= k)
  {
  }

  lemma ReportsAtNext(r: Reporter, track: Track, offsets: seq<nat>, k: nat, rate: u32)
    ensures ReportsAt(r, track, offsets + [k], rate)
         == Advance(ReportsAt(r, track, offsets, rate), Some(track), Wrap32(track.start + k), rate)
  {
    assert (offsets + [k])[..|offsets|] == offsets;
  }

  lemma SecondsUpTo(track: Track, offsets: seq<nat>, rate: nat)
    requires rate > 0 && Walk(track, offsets) && offsets != []
    ensures forall k :: k in offsets ==> Second(k, rate) <= Second(offsets[|offsets| - 1], rate)
  {
    forall k | k in offsets ensures Second(k, rate) <= Second(offsets[|offsets| - 1], rate) {
      var i :| 0 <= i < |offsets| && offsets[i] == k;
      SecondMono(k, offsets[|offsets| - 1], rate);
    }
  }

  lemma LastReported(
      before: Option<nat>, reported: Option<nat>, log: seq<Report>, track: Track, offsets: seq<nat>, rate: nat)
    requires rate > 0 && ReportsWell(before, reported, log, track, offsets, rate) && offsets != []
    ensures reported == Some(Second(offsets[|offsets| - 1], rate))
  {
  }

  /** One step on keeps the reports of a walk in order. */
  lemma NextOffset(r: Reporter, r0: Reporter, track: Track, offsets: seq<nat>, k: nat, rate: u32)
    requires rate > 0 && Walk(track, offsets + [k]) && r.log <= r0.log
    requires ReportsWell(r.reported, r0.reported, r0.log[|r.log|..], track, offsets, rate)
    ensures var r1 := Advance(r0, Some(track), Wrap32(track.start + k), rate);
            && r.log <= r1.log
            && ReportsWell(r.reported, r1.reported, r1.log[|r.log|..], track, offsets + [k], rate)
  {
    hide Walk, Second, Advance, Increasing, Covers, Wrap32, Suppressed, ReportsWell;
    WalkPrefix(track, offsets + [k]);
    assert (offsets + [k])[..|offsets|] == offsets;
    AdvanceInTrack(r0, track, k, rate);
    var log := r0.log[|r.log|..];
    if r0.reported == Some(Second(k, rate)) {
      SameSecond(r.reported, r0.reported, log, track, offsets, k, rate);
    } else {
      var report := Report(k, Wrap32(track.end - track.start));
      if offsets != [] {
        SecondsUpTo(track, offsets, rate);
        SecondMono(offsets[|offsets| - 1], k, rate);
        LastReported(r.reported, r0.reported, log, track, offsets, rate);
      }
      assert (r0.log + [report])[|r.log|..] == log + [report];
      NewSecond(r.reported, r0.reported, log, track, offsets, report, rate);
    }
  }

  /** While playback moves forward through one track, from whatever the reporter
      last reported, the new reports are strictly increasing and lie within the
      track, and each second reached is reported exactly once; the only exception
      is the walk's first second, if it is the very one last reported. */
  lemma {:induction false} EachSecondOnce(r: Reporter, track: Track, offsets: seq<nat>, rate: u32)
    requires rate > 0 && Walk(track, offsets)
    ensures var r' := ReportsAt(r, track, offsets, rate);
            r.log <= r'.log && ReportsWell(r.reported, r'.reported, r'.log[|r.log|..], track, offsets, rate)
  {
    if offsets != [] {
      hide Walk, ReportsAt, Second, Advance, Wrap32, ReportsWell;
      var init, k := offsets[..|offsets| - 1], offsets[|offsets| - 1];
      assert init + [k] == offsets;
      WalkPrefix(track, offsets);
      EachSecondOnce(r, track, init, rate);
      ReportsAtNext(r, track, init, k, rate);
      NextOffset(r, ReportsAt(r, track, init, rate), track, init, k, rate);
    }
  }

  /** The exception is met in practice: the reporter outlives the track, so a track
      that starts in the second its predecessor stopped in goes unreported until
      the next second. */
  lemma NextTrackUnreported(a: Track, b: Track, rate: u32)
    requires rate > 0
    ensures var first := ReportsAt(Reporter(None, []), a, [0], rate);
            && |first.log| == 1
            && ReportsAt(first, b, [0], rate) == first
  {
    var r := Reporter(None, []);
    AdvanceInTrack(r, a, 0, rate);
    var none: seq<nat> := [];
    ReportsAtNext(r, a, none, 0, rate);
    assert none + [0] == [0];
    var first := ReportsAt(r, a, [0], rate);
    AdvanceInTrack(first, b, 0, rate);
    ReportsAtNext(first, b, none, 0, rate);
  }
}
