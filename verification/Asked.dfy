/** What connections ask the host to show, and that this is what the events state. */
module Asked {
  import opened Numbers
  import opened Events
  import opened Session
  import opened SessionServer

  /** A request to show something, as the event it stands for. */
  function Description(r: Request, k: Kind): Option<Event> {
    match k
    case OfTrack => if r.SetMetadata? then Some(Metadata(r.title, r.artist, r.album)) else None
    case OfCover => if r.SetArtwork? then Some(Artwork(r.contentType, r.data)) else None
  }

  /** The last such request connection `id` was granted, since it connected and since
      its last session ended. */
  function By(steps: seq<Step>, id: int, k: Kind): Option<Sent> {
    if steps == [] then None
    else
      var init, step := steps[..|steps| - 1], steps[|steps| - 1];
      var w := RunOf(init);
      if !Enabled(w, step) || step.id != id then By(init, id, k)
      else match step
        case Connect(_, _) => None
        case Act(_, r) =>
          if Description(r, k).Some? then Some(Sent(id, Description(r, k).value))
          else if (r.TeardownReport? || r.Disconnect?) && Streams(w, id) then None
          else By(init, id, k)
  }

  function Pending(st: State, k: Kind): Option<Event> {
    match k
    case OfTrack => st.pendingMetadata
    case OfCover => st.pendingArtwork
  }

  function SentIf(id: int, e: Option<Event>): Option<Sent> {
    if e.Some? then Some(Sent(id, e.value)) else None
  }

  /** What a connection was asked to show is stated if it streams, and latched
      otherwise. */
  ghost predicate Kept(w: World, id: int, k: Kind, asked: Option<Sent>) {
    id in w.sessions ==>
      if w.sessions[id].streaming then OpenStated(w.log, k) == asked && Pending(w.sessions[id], k) == None
      else SentIf(id, Pending(w.sessions[id], k)) == asked
  }

  /** Another connection's step changes nothing of it. */
  lemma OthersLeaveIt(w: World, step: Step, id: int, k: Kind, asked: Option<Sent>)
    requires Exclusive(w) && Ordered(w) && Enabled(w, step) && !Races(w, step) && step.id != id
    requires Kept(w, id, k, asked)
    ensures Kept(Next(w, step), id, k, asked)
  {
    var w' := Next(w, step);
    if Streams(w, id) && step.Act? {
      var j, r := step.id, step.request;
      assert !Streams(w, j);
      var o := Handle(w.sessions[j], w.taken, r);
      if r == Bound(true) {
        OnlyStreamer(w, j, id);
      } else if r.TeardownReport? || r.Disconnect? {
        assert w.log + SentBy(j, []) == w.log;
      } else {
        OtherRequests(w.sessions[j], w.taken, r);
        StatedStays(w.log, j, o.events, k);
      }
    }
  }

  /** A start replays what was latched. */
  lemma StartStates(w: World, id: int, k: Kind, asked: Option<Sent>)
    requires Exclusive(w) && Ordered(w) && !Races(w, Act(id, Bound(true))) && Enabled(w, Act(id, Bound(true)))
    requires Kept(w, id, k, asked)
    ensures Kept(Next(w, Act(id, Bound(true))), id, k, asked)
  {
    var st := w.sessions[id];
    var o := Handle(st, w.taken, Bound(true));
    var started := o.events[0];
    assert o.events == [started] + Listed(st.pendingMetadata) + Listed(st.pendingArtwork);
    if !st.streaming {
      NoOwner(w, id);
      NothingOpen(w.log, k);
    }
    Replays(w.log, id, started, st.pendingMetadata, st.pendingArtwork, k);
    assert w.log + SentBy(id, o.events) == Next(w, Act(id, Bound(true))).log;
  }

  lemma NoOwner(w: World, id: int)
    requires Exclusive(w) && Ordered(w) && !Races(w, Act(id, Bound(true))) && Enabled(w, Act(id, Bound(true)))
    requires !Streams(w, id)
    ensures Owner(w.log) == None
  {
    if Owner(w.log).Some? {
      OnlyStreamer(w, id, Owner(w.log).value);
    }
  }

  lemma NothingOpen(log: seq<Sent>, k: Kind)
    requires Bracketed(log) && Owner(log) == None
    ensures OpenStated(log, k) == None
  {
    StatedByOwner(log);
    if OpenStated(log, k).Some? {
      assert IsStated(log, OpenStated(log, k).value);
    }
  }

  lemma Replays(log: seq<Sent>, id: int, started: Event, m: Option<Event>, a: Option<Event>, k: Kind)
    requires started.SessionStarted?
    requires (m.Some? ==> m.value.Metadata?) && (a.Some? ==> a.value.Artwork?)
    ensures var pending := if k.OfTrack? then m else a;
            OpenStated(log + SentBy(id, [started] + Listed(m) + Listed(a)), k)
            == if pending.Some? then Some(Sent(id, pending.value)) else OpenStated(log, k)
  {
    var log1 := log + [Sent(id, started)];
    var log2 := log1 + SentBy(id, Listed(m));
    StatedNext(log, Sent(id, started), k);
    if m.Some? {
      assert log2 == log1 + [Sent(id, m.value)];
      StatedNext(log1, Sent(id, m.value), k);
    } else {
      assert log2 == log1;
    }
    var all := log + SentBy(id, [started] + Listed(m) + Listed(a));
    if a.Some? {
      assert all == log2 + [Sent(id, a.value)];
      StatedNext(log2, Sent(id, a.value), k);
    } else {
      assert all == log2;
    }
  }

  /** What a request other than a start does for descriptions of a kind. */
  lemma RequestShows(st: State, taken: bool, r: Request, k: Kind)
    requires Accepts(st, r) && r != Bound(true)
    ensures var o, asked := Handle(st, taken, r), Description(r, k);
            if asked.Some? then
              && o.state.streaming == st.streaming
              && (if st.streaming then o.events == [asked.value] && Pending(o.state, k) == Pending(st, k)
                  else o.events == [] && Pending(o.state, k) == asked)
            else if r.TeardownReport? || r.Disconnect? then
              !o.state.streaming && o.events == Ending(st) && Pending(o.state, k) == Pending(st, k)
            else
              && o.state.streaming == st.streaming && Pending(o.state, k) == Pending(st, k)
              && forall i :: 0 <= i < |o.events| ==> !IsOf(o.events[i], k) && !o.events[i].SessionEnded?
  {
    hide Millis;
  }

  lemma OneMore(log: seq<Sent>, id: int, e: Event, k: Kind)
    ensures OpenStated(log + SentBy(id, [e]), k)
         == if IsOf(e, k) then Some(Sent(id, e)) else if e.SessionEnded? then None else OpenStated(log, k)
  {
    assert log + SentBy(id, [e]) == log + [Sent(id, e)];
    StatedNext(log, Sent(id, e), k);
  }

  /** The connection's other requests. */
  lemma OwnRequests(w: World, id: int, r: Request, k: Kind, asked: Option<Sent>)
    requires Ordered(w) && Enabled(w, Act(id, r)) && r != Bound(true) && Kept(w, id, k, asked)
    ensures var asked' := if Description(r, k).Some? then Some(Sent(id, Description(r, k).value))
                          else if (r.TeardownReport? || r.Disconnect?) && Streams(w, id) then None
                          else asked;
            Kept(Next(w, Act(id, r)), id, k, asked')
  {
    var st := w.sessions[id];
    RequestShows(st, w.taken, r, k);
    hide Handle, Ordered, Accepts, OpenStated;
    var events := Handle(st, w.taken, r).events;
    if Description(r, k).Some? {
      DescriptionIs(r, k);
      if st.streaming {
        OneMore(w.log, id, Description(r, k).value, k);
      } else {
        assert w.log + SentBy(id, []) == w.log;
      }
    } else if r.TeardownReport? || r.Disconnect? {
      if st.streaming {
        OneMore(w.log, id, SessionEnded, k);
      } else {
        assert w.log + SentBy(id, []) == w.log;
      }
    } else {
      StatedStays(w.log, id, events, k);
    }
  }

  lemma DescriptionIs(r: Request, k: Kind)
    ensures Description(r, k).Some? ==> IsOf(Description(r, k).value, k) && !r.TeardownReport? && !r.Disconnect?
  {
  }

  /** In every run in which no session starts inside another's TEARDOWN, what a
      streaming connection was last asked to show is what the log states, and what
      any other was last asked is latched. */
  lemma {:induction false} StatedIsAsked(steps: seq<Step>, id: int, k: Kind)
    requires RaceFree(steps)
    ensures Kept(RunOf(steps), id, k, By(steps, id, k))
    ensures Streams(RunOf(steps), id) ==> OpenStated(RunOf(steps).log, k) == By(steps, id, k)
  {
    if steps != [] {
      var init, step := steps[..|steps| - 1], steps[|steps| - 1];
      var w := RunOf(init);
      RaceFreePrefix(steps);
      StatedIsAsked(init, id, k);
      AlwaysExclusive(init);
      BracketedIffRaceFree(init);
      hide RaceFree, Ordered, Exclusive, Races, Next, Kept;
      if Enabled(w, step) {
        if step.id != id {
          OthersLeaveIt(w, step, id, k, By(init, id, k));
        } else {
          match step
          case Connect(_, peer) => FreshKept(w, id, peer, k);
          case Act(_, r) =>
            if r == Bound(true) {
              StartStates(w, id, k, By(init, id, k));
            } else {
              OwnRequests(w, id, r, k, By(init, id, k));
            }
        }
      }
      StreamsKept(RunOf(steps), id, k, By(steps, id, k));
    }
  }

  lemma FreshKept(w: World, id: int, peer: string, k: Kind)
    requires Enabled(w, Connect(id, peer))
    ensures Kept(Next(w, Connect(id, peer)), id, k, None)
  {
  }

  lemma StreamsKept(w: World, id: int, k: Kind, asked: Option<Sent>)
    requires Kept(w, id, k, asked)
    ensures Streams(w, id) ==> OpenStated(w.log, k) == asked
  {
  }
}
