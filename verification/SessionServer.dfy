/** Many connections on one slot and one event channel: who may stream, and what
    order the host sees their events in. */
module SessionServer {
  import opened Numbers
  import opened Events
  import opened Session

  datatype World = World(taken: bool, sessions: map<int, State>, log: seq<Sent>)

  datatype Step = Connect(id: int, peer: string) | Act(id: int, request: Request)

  predicate Enabled(w: World, step: Step) {
    match step
    case Connect(id, _) => id !in w.sessions
    case Act(id, request) => id in w.sessions && Accepts(w.sessions[id], request)
  }

  function Next(w: World, step: Step): World
    requires Enabled(w, step)
  {
    match step
    case Connect(id, peer) => w.(sessions := w.sessions[id := Fresh(peer)])
    case Act(id, request) =>
      var o := Handle(w.sessions[id], w.taken, request);
      World(o.taken,
            if request.Disconnect? then w.sessions - {id} else w.sessions[id := o.state],
            w.log + SentBy(id, o.events))
  }

  const EMPTY: World := World(false, map[], [])

  /** Any run; a step that cannot be taken is skipped. */
  function RunOf(steps: seq<Step>): World {
    if steps == [] then EMPTY
    else
      var w := RunOf(steps[..|steps| - 1]);
      if Enabled(w, steps[|steps| - 1]) then Next(w, steps[|steps| - 1]) else w
  }

  // ----- Exclusive streaming -----

  predicate Holds(w: World, id: int) {
    id in w.sessions && w.sessions[id].holdsSlot
  }

  predicate Streams(w: World, id: int) {
    id in w.sessions && w.sessions[id].streaming
  }

  /** Inside TEARDOWN: the slot is released, the end not yet reported. */
  predicate Leaving(w: World, id: int) {
    id in w.sessions && w.sessions[id].phase.Closing?
  }

  predicate Starting(w: World, id: int) {
    id in w.sessions && w.sessions[id].phase.Binding?
  }

  /** The flag is set exactly when some session holds the slot, and then only
      one does; a session that streams or is about to holds it, unless it has
      released it on its way out. */
  ghost predicate Exclusive(w: World) {
    && (w.taken <==> exists id :: Holds(w, id))
    && (forall i, j :: Holds(w, i) && Holds(w, j) ==> i == j)
    && (forall id :: Starting(w, id) ==> Holds(w, id))
    && (forall id :: Streams(w, id) && !Leaving(w, id) ==> Holds(w, id))
    && (forall id :: Leaving(w, id) ==> !Holds(w, id))
  }

  lemma ExclusiveStep(w: World, step: Step)
    requires Exclusive(w) && Enabled(w, step)
    ensures Exclusive(Next(w, step))
  {
    var w', id := Next(w, step), step.id;
    assert forall j :: j != id ==>
      (j in w'.sessions <==> j in w.sessions) && (j in w.sessions ==> w'.sessions[j] == w.sessions[j]);
    assert forall j :: j != id ==> (Holds(w', j) <==> Holds(w, j));
    assert forall j :: j != id ==> (Starting(w', j) <==> Starting(w, j));
    assert forall j :: j != id ==> (Streams(w', j) <==> Streams(w, j));
    assert forall j :: j != id ==> (Leaving(w', j) <==> Leaving(w, j));
    assert Holds(w, id) ==> forall j :: Holds(w, j) ==> j == id;
    if w.taken {
      var h :| Holds(w, h);
      assert h != id ==> Holds(w', h);
    }
    assert Holds(w', id) || !Holds(w', id);
  }

  lemma {:induction false} AlwaysExclusive(steps: seq<Step>)
    ensures Exclusive(RunOf(steps))
  {
    if steps != [] {
      var init := steps[..|steps| - 1];
      AlwaysExclusive(init);
      if Enabled(RunOf(init), steps[|steps| - 1]) {
        ExclusiveStep(RunOf(init), steps[|steps| - 1]);
      }
    }
  }

  /** A SETUP is refused for lack of the slot exactly if another connection holds
      it, whether that one streams or not. */
  lemma SetupRefusedIff(steps: seq<Step>, id: int, transportOk: bool)
    requires Enabled(RunOf(steps), Act(id, Setup(transportOk))) && RunOf(steps).sessions[id].params.Some?
    ensures Handle(RunOf(steps).sessions[id], RunOf(steps).taken, Setup(transportOk)).status == Some(453)
       <==> exists j :: j != id && Holds(RunOf(steps), j)
  {
    AlwaysExclusive(steps);
    var w := RunOf(steps);
    hide RunOf;
    if w.taken {
      var h :| Holds(w, h);
      if h == id {
        assert forall j :: Holds(w, j) ==> j == id;
      }
    }
    if w.sessions[id].holdsSlot {
      assert Holds(w, id);
    }
  }

  predicate Frees(step: Step, id: int) {
    step == Act(id, Teardown) || step == Act(id, Disconnect)
  }

  lemma {:induction false} HolderStays(before: seq<Step>, more: seq<Step>, id: int)
    requires Holds(RunOf(before), id)
    requires forall i :: 0 <= i < |more| ==> !Frees(more[i], id)
    ensures Holds(RunOf(before + more), id)
  {
    if more == [] {
      assert before + more == before;
    } else {
      var init := more[..|more| - 1];
      HolderStays(before, init, id);
      assert (before + more)[..|before + more| - 1] == before + init;
    }
  }

  /** A SETUP that fails on its transport takes the free slot and keeps it, however
      the run goes on, until its connection tears down or disconnects. Nobody else
      streams in that time, but for one on its way out, and every other
      connection's SETUP is refused. */
  lemma FailedSetupKeepsSlot(before: seq<Step>, id: int, more: seq<Step>, other: int, transportOk: bool)
    requires !RunOf(before).taken && Enabled(RunOf(before), Act(id, Setup(false)))
    requires RunOf(before).sessions[id].params.Some?
    requires forall i :: 0 <= i < |more| ==> !Frees(more[i], id)
    requires other != id
    ensures Handle(RunOf(before).sessions[id], RunOf(before).taken, Setup(false)).status == Some(400)
    ensures var w := RunOf((before + [Act(id, Setup(false))]) + more);
            && Holds(w, id)
            && (Streams(w, other) ==> Leaving(w, other))
            && (Enabled(w, Act(other, Setup(transportOk))) ==>
                  Handle(w.sessions[other], w.taken, Setup(transportOk)).status
                  == if w.sessions[other].params.None? then Some(455) else Some(453))
  {
    var failed := before + [Act(id, Setup(false))];
    RunNext(before, Act(id, Setup(false)));
    HolderStays(failed, more, id);
    AlwaysExclusive(failed + more);
    var w := RunOf(failed + more);
    hide RunOf;
    assert Holds(w, other) ==> other == id;
  }

  // ----- Bracketing of events -----

  ghost predicate LatchesKinds(w: World) {
    forall id :: id in w.sessions ==>
      && (w.sessions[id].pendingMetadata.Some? ==> w.sessions[id].pendingMetadata.value.Metadata?)
      && (w.sessions[id].pendingArtwork.Some? ==> w.sessions[id].pendingArtwork.value.Artwork?)
  }

  /** The log is bracketed, and the open interval is that of the session that
      streams, if one does. */
  ghost predicate Ordered(w: World) {
    && Bracketed(w.log)
    && (forall id :: Streams(w, id) ==> Owner(w.log) == Some(id))
    && (Owner(w.log).Some? ==> Streams(w, Owner(w.log).value))
    && LatchesKinds(w)
  }

  /** A session starts while another one that streams has released the slot but
      not yet reported its end. */
  ghost predicate Races(w: World, step: Step) {
    && Enabled(w, step) && step.Act? && step.request == Bound(true)
    && exists j :: j != step.id && Streams(w, j) && Leaving(w, j)
  }

  lemma OnlyStreamer(w: World, id: int, j: int)
    requires Exclusive(w) && Enabled(w, Act(id, Bound(true))) && !Races(w, Act(id, Bound(true))) && Streams(w, j)
    ensures j == id
  {
    assert Starting(w, id) && Holds(w, id);
    assert Leaving(w, j) || Holds(w, j);
  }

  /** A start and what was latched fit where no other interval is open. */
  lemma StartFits(log: seq<Sent>, id: int, started: Event, more: seq<Event>)
    requires Bracketed(log) && (Owner(log) == None || Owner(log) == Some(id))
    requires started.SessionStarted? && Inside(more)
    ensures var log' := log + SentBy(id, [started] + more);
            Bracketed(log') && Owner(log') == Some(id)
  {
    Extend(log, Sent(id, started));
    ExtendInside(log + [Sent(id, started)], id, more);
    assert log + SentBy(id, [started] + more) == (log + [Sent(id, started)]) + SentBy(id, more);
  }

  lemma StartKeepsOrder(w: World, id: int)
    requires Exclusive(w) && Ordered(w) && Enabled(w, Act(id, Bound(true))) && !Races(w, Act(id, Bound(true)))
    ensures Ordered(Next(w, Act(id, Bound(true))))
  {
    var st := w.sessions[id];
    var o := Handle(st, w.taken, Bound(true));
    assert Starting(w, id) && Holds(w, id);
    forall j | Streams(w, j) ensures j == id {
      OnlyStreamer(w, id, j);
    }
    var more := Listed(st.pendingMetadata) + Listed(st.pendingArtwork);
    assert o.events == [o.events[0]] + more;
    StartFits(w.log, id, o.events[0], more);
    hide Bracketed, Owner, Inside, SentBy;
    var w' := Next(w, Act(id, Bound(true)));
    assert forall j :: Streams(w', j) ==> j == id || Streams(w, j);
    assert Streams(w', id);
  }

  lemma EndKeepsOrder(w: World, id: int, r: Request)
    requires Ordered(w) && Enabled(w, Act(id, r)) && (r.TeardownReport? || r.Disconnect?)
    ensures Ordered(Next(w, Act(id, r)))
  {
    var st := w.sessions[id];
    var w' := Next(w, Act(id, r));
    assert forall j :: Streams(w', j) ==> j != id && Streams(w, j);
    assert forall j :: Streams(w, j) && j != id ==> Streams(w', j);
    if st.streaming {
      assert Streams(w, id);
      Extend(w.log, Sent(id, SessionEnded));
      assert w.log + SentBy(id, Ending(st)) == w.log + [Sent(id, SessionEnded)];
    } else {
      assert w.log + SentBy(id, []) == w.log;
    }
  }

  /** Requests that neither start nor end a session leave streaming alone and
      send what fits where they are. */
  lemma OtherRequests(st: State, taken: bool, r: Request)
    requires Accepts(st, r) && r != Bound(true) && !r.TeardownReport? && !r.Disconnect?
    ensures var o := Handle(st, taken, r);
            && o.state.streaming == st.streaming
            && Inside(o.events) && (st.streaming || Unbound(o.events))
            && (o.state.pendingMetadata == st.pendingMetadata
                || (o.state.pendingMetadata.Some? && o.state.pendingMetadata.value.Metadata?))
            && (o.state.pendingArtwork == st.pendingArtwork
                || (o.state.pendingArtwork.Some? && o.state.pendingArtwork.value.Artwork?))
  {
  }

  lemma OtherKeepsOrder(w: World, id: int, r: Request)
    requires Ordered(w) && Enabled(w, Act(id, r)) && r != Bound(true) && !r.TeardownReport? && !r.Disconnect?
    ensures Ordered(Next(w, Act(id, r)))
  {
    OtherRequests(w.sessions[id], w.taken, r);
    hide Handle, Bracketed, Owner, MayFollow, Inside, Unbound;
    var w' := Next(w, Act(id, r));
    assert forall j :: Streams(w', j) <==> Streams(w, j);
    InsideKeepsOrder(w, w', id, Handle(w.sessions[id], w.taken, r).events);
  }

  lemma InsideKeepsOrder(w: World, w': World, id: int, events: seq<Event>)
    requires Ordered(w) && LatchesKinds(w') && w'.log == w.log + SentBy(id, events)
    requires Inside(events) && (Streams(w, id) || Unbound(events))
    requires forall j :: Streams(w', j) <==> Streams(w, j)
    ensures Ordered(w')
  {
    hide Inside, Unbound, Bracketed, Owner, LatchesKinds;
    ExtendInside(w.log, id, events);
  }

  lemma ConnectKeepsOrder(w: World, id: int, peer: string)
    requires Ordered(w) && Enabled(w, Connect(id, peer))
    ensures Ordered(Next(w, Connect(id, peer)))
  {
    assert forall j :: Streams(Next(w, Connect(id, peer)), j) <==> Streams(w, j);
  }

  lemma StepKeepsOrder(w: World, step: Step)
    requires Exclusive(w) && Ordered(w) && Enabled(w, step) && !Races(w, step)
    ensures Ordered(Next(w, step))
  {
    hide Ordered, Exclusive, Races, Next;
    match step
    case Connect(id, peer) => ConnectKeepsOrder(w, id, peer);
    case Act(id, r) =>
      if r == Bound(true) {
        StartKeepsOrder(w, id);
      } else if r.TeardownReport? || r.Disconnect? {
        EndKeepsOrder(w, id, r);
      } else {
        OtherKeepsOrder(w, id, r);
      }
  }

  /** A racing start lands inside the other session's open interval. */
  lemma RaceBreaksOrder(w: World, step: Step)
    requires Ordered(w) && Races(w, step)
    ensures !Bracketed(Next(w, step).log)
  {
    var id := step.id;
    var o := Handle(w.sessions[id], w.taken, step.request);
    var j :| j != id && Streams(w, j) && Leaving(w, j);
    assert Owner(w.log) == Some(j);
    var started := Sent(id, o.events[0]);
    Extend(w.log, started);
    assert !Bracketed(w.log + [started]);
    var rest := SentBy(id, o.events)[1..];
    assert Next(w, step).log == (w.log + [started]) + rest;
    if Bracketed((w.log + [started]) + rest) {
      BracketedPrefix(w.log + [started], rest);
    }
  }

  ghost predicate RaceFree(steps: seq<Step>) {
    forall k :: 0 <= k < |steps| ==> !Races(RunOf(steps[..k]), steps[k])
  }

  lemma RaceFreePrefix(steps: seq<Step>)
    requires steps != []
    ensures RaceFree(steps)
       <==> RaceFree(steps[..|steps| - 1]) && !Races(RunOf(steps[..|steps| - 1]), steps[|steps| - 1])
  {
    hide Races, RunOf;
    var init := steps[..|steps| - 1];
    assert forall k :: 0 <= k < |init| ==> init[..k] == steps[..k] && init[k] == steps[k];
    if RaceFree(steps) {
      forall k | 0 <= k < |init| ensures !Races(RunOf(init[..k]), init[k]) {
        assert !Races(RunOf(steps[..k]), steps[k]);
      }
    }
  }

  lemma LogGrows(w: World, step: Step)
    requires Enabled(w, step)
    ensures w.log <= Next(w, step).log
  {
  }

  /** Over every run of requests and disconnects on any number of connections,
      the host sees bracketed events (metadata, artwork and progress inside
      their own session's interval, intervals of different sessions apart, each
      ended once) exactly if no session starts in the gap another one's TEARDOWN
      leaves between releasing the slot and reporting its end. */
  lemma {:induction false} BracketedIffRaceFree(steps: seq<Step>)
    ensures Bracketed(RunOf(steps).log) <==> RaceFree(steps)
    ensures RaceFree(steps) ==> Ordered(RunOf(steps))
  {
    if steps != [] {
      var init, step := steps[..|steps| - 1], steps[|steps| - 1];
      var w := RunOf(init);
      BracketedIffRaceFree(init);
      RaceFreePrefix(steps);
      AlwaysExclusive(init);
      hide RaceFree, Ordered, Exclusive, Races;
      if Enabled(w, step) {
        LogGrows(w, step);
        var w' := Next(w, step);
        assert w.log + w'.log[|w.log|..] == w'.log;
        if Bracketed(w'.log) {
          BracketedPrefix(w.log, w'.log[|w.log|..]);
        }
        if RaceFree(init) {
          if Races(w, step) {
            RaceBreaksOrder(w, step);
          } else {
            StepKeepsOrder(w, step);
            OrderedIsBracketed(w');
          }
        }
      } else {
        OnlyEnabledRaces(w, step);
      }
    }
  }

  lemma OrderedIsBracketed(w: World)
    requires Ordered(w)
    ensures Bracketed(w.log)
  {
  }

  lemma OnlyEnabledRaces(w: World, step: Step)
    requires !Enabled(w, step)
    ensures !Races(w, step)
  {
  }

  /** TEARDOWN in one piece: nothing between its two halves. */
  ghost predicate AtomicTeardowns(steps: seq<Step>) {
    forall k :: 0 <= k < |steps| && steps[k].Act? && steps[k].request.Teardown? ==>
      k + 1 < |steps| && steps[k + 1] == Act(steps[k].id, TeardownReport)
  }

  lemma {:induction false} OnlyTheLastLeaves(steps: seq<Step>, k: nat, j: int)
    requires AtomicTeardowns(steps) && k <= |steps| && Leaving(RunOf(steps[..k]), j)
    ensures k > 0 && steps[k - 1] == Act(j, Teardown)
  {
    if k > 0 {
      assert steps[..k][..k - 1] == steps[..k - 1];
      var w, step := RunOf(steps[..k - 1]), steps[k - 1];
      if step != Act(j, Teardown) {
        assert Leaving(w, j);
        OnlyTheLastLeaves(steps, k - 1, j);
      }
    }
  }

  /** With TEARDOWN in one piece, every run is bracketed. */
  lemma AtomicTeardownsBracket(steps: seq<Step>)
    requires AtomicTeardowns(steps)
    ensures Bracketed(RunOf(steps).log) && Ordered(RunOf(steps))
  {
    forall k | 0 <= k < |steps| ensures !Races(RunOf(steps[..k]), steps[k]) {
      if Races(RunOf(steps[..k]), steps[k]) {
        var j :| j != steps[k].id && Streams(RunOf(steps[..k]), j) && Leaving(RunOf(steps[..k]), j);
        OnlyTheLastLeaves(steps, k, j);
      }
    }
    BracketedIffRaceFree(steps);
  }

  lemma RunNext(steps: seq<Step>, step: Step)
    requires Enabled(RunOf(steps), step)
    ensures RunOf(steps + [step]) == Next(RunOf(steps), step)
  {
    assert (steps + [step])[..|steps|] == steps;
  }

  /** A run in which one sender streams. */
  lemma OneStreams(p: Params, peer: string) returns (steps: seq<Step>)
    ensures var w := RunOf(steps);
            && w.taken && w.sessions.Keys == {0}
            && w.sessions[0].phase.Ready? && w.sessions[0].holdsSlot && w.sessions[0].streaming
  {
    assert RunOf([]) == EMPTY;
    hide RunOf;
    RunNext([], Connect(0, peer));
    RunNext([] + [Connect(0, peer)], Act(0, Announce(Some(p), 400)));
    var s2 := [] + [Connect(0, peer)] + [Act(0, Announce(Some(p), 400))];
    RunNext(s2, Act(0, Setup(true)));
    RunNext(s2 + [Act(0, Setup(true))], Act(0, Bound(true)));
    steps := s2 + [Act(0, Setup(true))] + [Act(0, Bound(true))];
  }

  /** A run in which a second sender is about to start while the first is inside
      its TEARDOWN. */
  lemma TwoRace(p: Params, peer: string) returns (steps: seq<Step>)
    ensures Starting(RunOf(steps), 1) && Streams(RunOf(steps), 0) && Leaving(RunOf(steps), 0)
  {
    var s0 := OneStreams(p, peer);
    hide RunOf;
    RunNext(s0, Connect(1, peer));
    var s1 := s0 + [Connect(1, peer)];
    RunNext(s1, Act(1, Announce(Some(p), 400)));
    var s2 := s1 + [Act(1, Announce(Some(p), 400))];
    RunNext(s2, Act(0, Teardown));
    var s3 := s2 + [Act(0, Teardown)];
    RunNext(s3, Act(1, Setup(true)));
    steps := s3 + [Act(1, Setup(true))];
  }

  /** The gap is real: that second sender starts before the first has ended. */
  lemma TeardownCanOverlap(p: Params, peer: string) returns (steps: seq<Step>)
    ensures !Bracketed(RunOf(steps).log)
  {
    var racing := TwoRace(p, peer);
    RacingRun(racing, 1, 0);
    steps := racing + [Act(1, Bound(true))];
  }

  /** And when the first then reports its end, no interval is open although the
      second streams. */
  lemma RaceHidesStream(p: Params, peer: string) returns (steps: seq<Step>)
    ensures Streams(RunOf(steps), 1) && Owner(RunOf(steps).log) == None
  {
    var racing := TwoRace(p, peer);
    hide RunOf;
    RunNext(racing, Act(1, Bound(true)));
    var started := racing + [Act(1, Bound(true))];
    var w := RunOf(started);
    assert Streams(w, 1) && Streams(w, 0) && Leaving(w, 0);
    RunNext(started, Act(0, TeardownReport));
    steps := started + [Act(0, TeardownReport)];
    assert RunOf(steps).log == w.log + [Sent(0, SessionEnded)];
    Extend(w.log, Sent(0, SessionEnded));
  }

  lemma RacingRun(steps: seq<Step>, id: int, other: int)
    requires Starting(RunOf(steps), id) && id != other
    requires Streams(RunOf(steps), other) && Leaving(RunOf(steps), other)
    ensures !Bracketed(RunOf(steps + [Act(id, Bound(true))]).log)
  {
    var all := steps + [Act(id, Bound(true))];
    assert Races(RunOf(steps), Act(id, Bound(true)));
    assert all[..|steps|] == steps && all[|steps|] == Act(id, Bound(true));
    assert !RaceFree(all);
    BracketedIffRaceFree(all);
  }
}
