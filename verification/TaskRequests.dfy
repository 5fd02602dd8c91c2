/** The audio task's own resend requests: the throttling laws, said of the
    requests it sends. */
module TaskRequests {
  import opened Numbers
  import Jitter = JitterModel
  import opened AudioTask
  import opened Resend

  /** The service ticks of a run, each with the gaps it finds. */
  function TicksOf(start: Jitter.Buffer, framesPerPacket: u32, decrypt: Frame -> Frame, inputs: seq<Input>): seq<Tick>
    requires Jitter.Valid(start)
  {
    if inputs == [] then []
    else
      var init, last := inputs[..|inputs| - 1], inputs[|inputs| - 1];
      TicksOf(start, framesPerPacket, decrypt, init)
      + if last.Service? then [Tick(last.now, GapsSeen(TaskOf(start, framesPerPacket, decrypt, init)))] else []
  }

  /** The gaps left once what is ready has been released. */
  function GapsSeen(t: Task): seq<int>
    requires Jitter.Valid(t.buffer)
  {
    Jitter.WrapAll(Jitter.Missing(Jitter.PopReady(t.buffer, Jitter.MAX_LEAD).buffer))
  }

  function DueAt(ticks: seq<Tick>, k: nat): seq<int>
    requires k < |ticks|
  {
    Serve(Before(ticks, k), ticks[k].missing, ticks[k].now).due
  }

  /** What the first `k` ticks ask for. */
  function AskedBy(ticks: seq<Tick>, k: nat): seq<ResendRequest>
    requires k <= |ticks|
  {
    if k == 0 then [] else AskedBy(ticks, k - 1) + RequestsAt(ticks[k - 1].now, DueAt(ticks, k - 1))
  }

  lemma {:induction false} AskedPrefix(some: seq<Tick>, ticks: seq<Tick>, k: nat)
    requires some <= ticks && k <= |some|
    ensures Before(some, k) == Before(ticks, k) && AskedBy(some, k) == AskedBy(ticks, k)
  {
    if k > 0 {
      AskedPrefix(some, ticks, k - 1);
    }
  }

  lemma AskedNext(ticks: seq<Tick>, k: nat)
    requires k < |ticks|
    ensures var served := Serve(Before(ticks, k), ticks[k].missing, ticks[k].now);
            && Before(ticks, k + 1) == served.last
            && AskedBy(ticks, k + 1) == AskedBy(ticks, k) + RequestsAt(ticks[k].now, served.due)
            && |AskedBy(ticks, k + 1)| == |AskedBy(ticks, k)| + |DueAt(ticks, k)|
  {
  }

  lemma NothingAskedYet()
    ensures Before([], 0) == map[] && AskedBy([], 0) == []
  {
  }

  /** Between flushes the audio task's tracker and requests are those of its service
      ticks. */
  lemma {:induction false} TaskServesTicks(
      start: Jitter.Buffer, framesPerPacket: u32, decrypt: Frame -> Frame, inputs: seq<Input>)
    requires Jitter.Valid(start) && FlushFree(inputs)
    ensures var t := TaskOf(start, framesPerPacket, decrypt, inputs);
            var ticks := TicksOf(start, framesPerPacket, decrypt, inputs);
            t.tracked == Before(ticks, |ticks|) && t.requests == AskedBy(ticks, |ticks|)
  {
    if inputs != [] {
      hide Serve, Step, RequestsAt, GapsSeen, Before, AskedBy, TaskOf, TicksOf;
      var init, last := inputs[..|inputs| - 1], inputs[|inputs| - 1];
      TaskNext(start, framesPerPacket, decrypt, inputs);
      TaskServesTicks(start, framesPerPacket, decrypt, init);
      var t := TaskOf(start, framesPerPacket, decrypt, init);
      var ticks := TicksOf(start, framesPerPacket, decrypt, init);
      if last.Service? {
        var tick := Tick(last.now, GapsSeen(t));
        AskedPrefix(ticks, ticks + [tick], |ticks|);
        AskedNext(ticks + [tick], |ticks|);
        TickServed(t, framesPerPacket, decrypt, last.now);
      } else {
        OthersAskNothing(t, framesPerPacket, decrypt, last);
        assert ticks + [] == ticks;
      }
    } else {
      NothingAskedYet();
    }
  }

  lemma TaskNext(start: Jitter.Buffer, framesPerPacket: u32, decrypt: Frame -> Frame, inputs: seq<Input>)
    requires Jitter.Valid(start) && inputs != []
    ensures var init, last := inputs[..|inputs| - 1], inputs[|inputs| - 1];
            var t := TaskOf(start, framesPerPacket, decrypt, init);
            && TaskOf(start, framesPerPacket, decrypt, inputs) == Step(t, framesPerPacket, decrypt, last)
            && TicksOf(start, framesPerPacket, decrypt, inputs)
               == TicksOf(start, framesPerPacket, decrypt, init)
                + if last.Service? then [Tick(last.now, GapsSeen(t))] else []
  {
    hide Step, GapsSeen;
  }

  lemma TickServed(t: Task, framesPerPacket: u32, decrypt: Frame -> Frame, now: nat)
    requires Jitter.Valid(t.buffer)
    ensures var t' := Step(t, framesPerPacket, decrypt, Service(now));
            var served := Serve(t.tracked, GapsSeen(t), now);
            t'.tracked == served.last && t'.requests == t.requests + RequestsAt(now, served.due)
  {
    hide Serve, CommandsOf, RequestsAt, Jitter.PopReady;
  }

  lemma OthersAskNothing(t: Task, framesPerPacket: u32, decrypt: Frame -> Frame, input: Input)
    requires Jitter.Valid(t.buffer) && !input.Service? && !input.Flush?
    ensures var t' := Step(t, framesPerPacket, decrypt, input);
            t'.tracked == t.tracked && t'.requests == t.requests
  {
    hide CommandsOf, Jitter.PopReady, Jitter.Insert, Jitter.Place;
  }

  // ----- Which tick a request was sent at -----

  ghost predicate AskedOnce(s: Served, now: nat) {
    && (forall i, j :: 0 <= i < j < |s.due| ==> s.due[i] != s.due[j])
    && (forall n :: n in s.due ==> n in s.last && s.last[n] == now)
  }

  lemma RequestOnce(s: Served, number: int, now: nat)
    requires AskedOnce(s, now)
    ensures AskedOnce(Request(s, number, now), now)
  {
    if number in s.due {
      assert !Ready(s.last, number, now);
    }
  }

  /** One call asks for a number at most once, however often it is listed. */
  lemma {:induction false} DueOnce(last: map<int, nat>, missing: seq<int>, now: nat)
    ensures AskedOnce(ServeAll(last, missing, now), now)
  {
    if missing != [] {
      DueOnce(last, missing[..|missing| - 1], now);
      RequestOnce(ServeAll(last, missing[..|missing| - 1], now), missing[|missing| - 1], now);
    }
  }

  lemma DueAtDiffers(ticks: seq<Tick>, i: nat, a: nat, b: nat)
    requires i < |ticks| && a < b < |DueAt(ticks, i)|
    ensures DueAt(ticks, i)[a] != DueAt(ticks, i)[b]
  {
    DueOnce(Retain(Before(ticks, i), ticks[i].missing), ticks[i].missing, ticks[i].now);
  }

  lemma {:induction false} AskedGrows(ticks: seq<Tick>, i: nat, k: nat)
    requires i <= k <= |ticks|
    ensures AskedBy(ticks, i) <= AskedBy(ticks, k)
  {
    if i < k {
      AskedGrows(ticks, i, k - 1);
    }
  }

  /** Request `x` is one of those tick `i` sends. */
  ghost predicate SentAt(ticks: seq<Tick>, x: nat, i: nat) {
    && i < |ticks|
    && |AskedBy(ticks, i)| <= x < |AskedBy(ticks, i)| + |DueAt(ticks, i)|
    && x < |AskedBy(ticks, |ticks|)|
    && AskedBy(ticks, |ticks|)[x] == ResendRequest(ticks[i].now, DueAt(ticks, i)[x - |AskedBy(ticks, i)|])
  }

  lemma {:induction false} TickOf(ticks: seq<Tick>, k: nat, x: nat) returns (i: nat)
    requires k <= |ticks| && x < |AskedBy(ticks, k)|
    ensures i < k && SentAt(ticks, x, i)
  {
    hide DueAt;
    if x < |AskedBy(ticks, k - 1)| {
      i := TickOf(ticks, k - 1, x);
    } else {
      i := k - 1;
      AskedGrows(ticks, k, |ticks|);
      assert AskedBy(ticks, |ticks|)[x] == AskedBy(ticks, k)[x];
    }
  }

  lemma SentIsRequested(ticks: seq<Tick>, x: nat, i: nat)
    requires SentAt(ticks, x, i)
    ensures var request := AskedBy(ticks, |ticks|)[x];
            Requested(ticks, i, request.number) && request.at == ticks[i].now
  {
  }

  /** Requests are sent tick by tick, and no number twice at one tick. */
  lemma SentInOrder(ticks: seq<Tick>, x: nat, y: nat, i: nat, j: nat)
    requires x < y && SentAt(ticks, x, i) && SentAt(ticks, y, j)
    requires AskedBy(ticks, |ticks|)[x].number == AskedBy(ticks, |ticks|)[y].number
    ensures i < j
  {
    hide AskedBy, DueAt;
    if j < i {
      AskedGrows(ticks, j + 1, i);
      AskedNext(ticks, j);
    } else if i == j {
      DueAtDiffers(ticks, i, x - |AskedBy(ticks, i)|, y - |AskedBy(ticks, i)|);
    }
  }

  lemma {:induction false} RequestedIsAsked(ticks: seq<Tick>, i: nat, number: int)
    requires i < |ticks| && Requested(ticks, i, number)
    ensures ResendRequest(ticks[i].now, number) in AskedBy(ticks, |ticks|)
  {
    var due := DueAt(ticks, i);
    var d :| 0 <= d < |due| && due[d] == number;
    AskedGrows(ticks, i + 1, |ticks|);
    assert RequestsAt(ticks[i].now, due)[d] == ResendRequest(ticks[i].now, number);
    assert AskedBy(ticks, i + 1)[|AskedBy(ticks, i)| + d] == ResendRequest(ticks[i].now, number);
  }

  // ----- The laws -----

  /** A gap is asked for at the first tick since the flush that finds it. */
  lemma AskedWhenFirstSeen(
      start: Jitter.Buffer, framesPerPacket: u32, decrypt: Frame -> Frame, inputs: seq<Input>, k: nat, number: int)
    requires Jitter.Valid(start) && FlushFree(inputs)
    requires var ticks := TicksOf(start, framesPerPacket, decrypt, inputs);
             && Nondecreasing(ticks) && k < |ticks| && number in ticks[k].missing
             && forall i :: 0 <= i < k ==> number !in ticks[i].missing
    ensures ResendRequest(TicksOf(start, framesPerPacket, decrypt, inputs)[k].now, number)
         in TaskOf(start, framesPerPacket, decrypt, inputs).requests
  {
    hide TaskOf, TicksOf, AskedBy;
    TaskServesTicks(start, framesPerPacket, decrypt, inputs);
    var ticks := TicksOf(start, framesPerPacket, decrypt, inputs);
    FirstReportIsRequested(ticks, k, number);
    RequestedIsAsked(ticks, k, number);
  }

  /** A gap once asked for and found by every tick up to `j`, past the 80 ms, has
      been asked for again within them and one tick spacing. */
  lemma AskedAgain(
      start: Jitter.Buffer, framesPerPacket: u32, decrypt: Frame -> Frame, inputs: seq<Input>,
      i: nat, j: nat, number: int, spacing: nat) returns (at: nat)
    requires Jitter.Valid(start) && FlushFree(inputs)
    requires var ticks := TicksOf(start, framesPerPacket, decrypt, inputs);
             && Nondecreasing(ticks) && i < j < |ticks|
             && MissingThroughout(ticks, i, j, number) && Requested(ticks, i, number)
             && ticks[j].now - ticks[i].now >= 80_000_000
             && forall t :: i <= t < j ==> ticks[t + 1].now - ticks[t].now <= spacing
    ensures ResendRequest(at, number) in TaskOf(start, framesPerPacket, decrypt, inputs).requests
    ensures var first := TicksOf(start, framesPerPacket, decrypt, inputs)[i].now;
            first < at < first + 80_000_000 + spacing
  {
    hide TaskOf, TicksOf, AskedBy;
    TaskServesTicks(start, framesPerPacket, decrypt, inputs);
    var ticks := TicksOf(start, framesPerPacket, decrypt, inputs);
    var k := PersistentGapIsRerequested(ticks, i, j, number, spacing);
    RequestedIsAsked(ticks, k, number);
    RequestsAreSpaced(ticks, i, k, number);
    at := ticks[k].now;
  }

  /** A flush forgets what was asked for: the first tick after it that finds a gap
      asks for it, however recently that was done before the flush. */
  lemma FlushRestartsBackoff(
      start: Jitter.Buffer, framesPerPacket: u32, decrypt: Frame -> Frame,
      before: seq<Input>, to: Option<u16>, after: seq<Input>, k: nat, number: int)
    requires Jitter.Valid(start) && FlushFree(after)
    requires var ticks := TicksOf(Jitter.Reset(to), framesPerPacket, decrypt, after);
             && Nondecreasing(ticks) && k < |ticks| && number in ticks[k].missing
             && forall i :: 0 <= i < k ==> number !in ticks[i].missing
    ensures var all := TaskOf(start, framesPerPacket, decrypt, before + [Flush(to)] + after);
            var t := TaskOf(start, framesPerPacket, decrypt, before);
            && t.requests <= all.requests
            && ResendRequest(TicksOf(Jitter.Reset(to), framesPerPacket, decrypt, after)[k].now, number)
               in all.requests[|t.requests|..]
  {
    hide TaskOf, TicksOf;
    FlushStartsOver(start, framesPerPacket, decrypt, before, to, after);
    AskedWhenFirstSeen(Jitter.Reset(to), framesPerPacket, decrypt, after, k, number);
  }

  lemma ServeOne(number: int, now: nat)
    ensures Serve(map[], [number], now).due == [number]
  {
    assert [number][..0] == [];
    assert Retain(map[], [number]) == map[];
    assert ServeAll(map[], [], now) == Served(map[], []);
    assert ServeAll(map[], [number], now) == Request(Served(map[], []), number, now);
  }

  lemma GapHeard(n: u16, framesPerPacket: u32, decrypt: Frame -> Frame, ts: u32, payload: Frame)
    ensures var t := TaskOf(Jitter.Armed(n), framesPerPacket, decrypt, [Audio(Wrap16(n + 1), ts, payload)]);
            t.tracked == map[] && t.requests == [] && GapsSeen(t) == [n]
  {
    var audio := [Audio(Wrap16(n + 1), ts, payload)];
    assert audio[..0] == [];
    SeqDiffIsDistance(n + 1, n);
    hide SeqDiff;
    assert Jitter.Place(Jitter.Armed(n), Wrap16(n + 1)) == n + 1;
    var live := Jitter.Live(n, n + 1, map[n + 1 := decrypt(payload)]);
    assert Jitter.PopReady(live, Jitter.MAX_LEAD) == Jitter.Popped(live, []);
    assert TaskOf(Jitter.Armed(n), framesPerPacket, decrypt, audio).buffer == live;
    assert Jitter.Gaps(live.held, n + 2, n + 1) == [] && Jitter.Gaps(live.held, n + 1, n + 1) == [];
    assert Jitter.Missing(live) == [n];
  }

  lemma GapAsked(n: u16, now: nat, framesPerPacket: u32, decrypt: Frame -> Frame, ts: u32, payload: Frame)
    ensures var inputs := [Audio(Wrap16(n + 1), ts, payload), Service(now)];
            TaskOf(Jitter.Armed(n), framesPerPacket, decrypt, inputs).requests == [ResendRequest(now, n)]
  {
    hide Step, Serve, GapsSeen;
    var audio, both := [Audio(Wrap16(n + 1), ts, payload)], [Audio(Wrap16(n + 1), ts, payload), Service(now)];
    assert both[..1] == audio;
    GapHeard(n, framesPerPacket, decrypt, ts, payload);
    TickServed(TaskOf(Jitter.Armed(n), framesPerPacket, decrypt, audio), framesPerPacket, decrypt, now);
    ServeOne(n, now);
  }

  /** So the 80 ms are not a minimum spacing across a flush: the same number, asked
      for twice at the same instant. */
  lemma AskedTwiceAtOnce(n: u16, now: nat, framesPerPacket: u32, decrypt: Frame -> Frame, ts: u32, payload: Frame)
    ensures var half := [Audio(Wrap16(n + 1), ts, payload), Service(now)];
            TaskOf(Jitter.Armed(n), framesPerPacket, decrypt, half + [Flush(Some(n))] + half).requests
            == [ResendRequest(now, n), ResendRequest(now, n)]
  {
    hide TaskOf;
    var half := [Audio(Wrap16(n + 1), ts, payload), Service(now)];
    GapAsked(n, now, framesPerPacket, decrypt, ts, payload);
    FlushStartsOver(Jitter.Armed(n), framesPerPacket, decrypt, half, Some(n), half);
  }
}
