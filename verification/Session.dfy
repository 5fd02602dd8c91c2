/** The per-connection session state machine, its slot and its event channel. */
module Session {
  import opened Numbers
  import opened Events
  import Position

  datatype Params = Params(sampleRate: u32, channels: nat)

  /** Between requests, waiting at SETUP for the sockets to bind, or inside
      TEARDOWN after the slot is released and before the end is reported. */
  datatype Phase = Ready | Binding(params: Params) | Closing

  datatype State = State(
    peer: string,
    phase: Phase,
    params: Option<Params>,
    holdsSlot: bool,
    streaming: bool,
    pendingMetadata: Option<Event>,
    pendingArtwork: Option<Event>,
    track: Option<Position.Track>)

  /** What a connection brings, requests cut where other connections may run.
      `Announce(None)` is one whose format or key is rejected with `refusal`. */
  datatype Request =
    | Announce(params: Option<Params>, refusal: nat)
    | Setup(transportOk: bool)
    | Bound(ok: bool)
    | Teardown
    | TeardownReport
    | Flush
    | SetMetadata(title: Option<string>, artist: Option<string>, album: Option<string>)
    | SetArtwork(contentType: string, data: seq<byte>)
    | SetVolume(db: real)
    | SetProgress(start: u32, current: u32, end: u32)
    | Disconnect

  /** The new state and slot, what is sent to the host, and the response status
      (none while the request goes on). */
  datatype Outcome = Outcome(state: State, taken: bool, events: seq<Event>, status: Option<nat>)

  function Fresh(peer: string): State {
    State(peer, Ready, None, false, false, None, None, None)
  }

  predicate Accepts(st: State, r: Request) {
    match r
    case Bound(_) => st.phase.Binding?
    case TeardownReport => st.phase.Closing?
    case Disconnect => !st.phase.Closing?
    case _ => st.phase.Ready?
  }

  function Millis(frames: int, rate: u32): nat
    requires frames >= 0
  {
    if rate == 0 then 0 else frames * 1000 / rate
  }

  function ProgressEvent(start: u32, current: u32, end: u32, rate: u32): Event {
    var report := Position.SetProgress(start, current, end);
    Progress(Millis(report.elapsed, rate), Millis(report.duration, rate))
  }

  function Listed(e: Option<Event>): seq<Event> {
    if e.Some? then [e.value] else []
  }

  function Ending(st: State): seq<Event> {
    if st.streaming then [SessionEnded] else []
  }

  function Handle(st: State, taken: bool, r: Request): Outcome
    requires Accepts(st, r)
  {
    match r
    case Announce(params, refusal) =>
      if params.Some? then Outcome(st.(params := params), taken, [], Some(200))
      else Outcome(st, taken, [], Some(refusal))
    case Setup(transportOk) =>
      if st.params.None? then Outcome(st, taken, [], Some(455))
      else if !st.holdsSlot && taken then Outcome(st, taken, [], Some(453))
      else
        var held := st.(holdsSlot := true);
        var taken' := taken || !st.holdsSlot;
        if !transportOk then Outcome(held, taken', [], Some(400))
        else Outcome(held.(phase := Binding(st.params.value)), taken', [], None)
    case Bound(ok) =>
      var ready := st.(phase := Ready);
      if !ok then Outcome(ready, taken, [], Some(500))
      else
        var started := SessionStarted(st.phase.params.sampleRate, st.phase.params.channels, st.peer);
        Outcome(ready.(streaming := true, pendingMetadata := None, pendingArtwork := None), taken,
                [started] + Listed(st.pendingMetadata) + Listed(st.pendingArtwork), Some(200))
    case Teardown =>
      Outcome(st.(holdsSlot := false, phase := Closing), taken && !st.holdsSlot, [], None)
    case TeardownReport =>
      Outcome(st.(phase := Ready, track := None, streaming := false), taken, Ending(st), Some(200))
    case Flush => Outcome(st, taken, [Flushed], Some(200))
    case SetMetadata(title, artist, album) =>
      var e := Metadata(title, artist, album);
      if st.streaming then Outcome(st, taken, [e], Some(200))
      else Outcome(st.(pendingMetadata := Some(e)), taken, [], Some(200))
    case SetArtwork(contentType, data) =>
      var e := Artwork(contentType, data);
      if st.streaming then Outcome(st, taken, [e], Some(200))
      else Outcome(st.(pendingArtwork := Some(e)), taken, [], Some(200))
    case SetVolume(db) => Outcome(st, taken, [Volume(db)], Some(200))
    case SetProgress(start, current, end) =>
      if st.params.None? || !st.streaming then Outcome(st, taken, [], Some(200))
      else Outcome(st.(track := Some(Position.Track(start, end))), taken,
                   [ProgressEvent(start, current, end, st.params.value.sampleRate)], Some(200))
    case Disconnect =>
      Outcome(st.(track := None, streaming := false, holdsSlot := false), taken && !st.holdsSlot, Ending(st), None)
  }

  /** The flag shared by all connections. */
  class SessionSlot {
    var taken: bool

    constructor ()
      ensures !taken
    {
      taken := false;
    }

    method TryAcquire() returns (acquired: bool)
      modifies this
      ensures acquired == !old(taken) && taken
    {
      acquired := !taken;
      if acquired {
        taken := true;
      }
    }

    method Release()
      modifies this
      ensures !taken
    {
      taken := false;
    }
  }

  /** The host's event channel. */
  class EventChannel {
    var log: seq<Sent>

    constructor ()
      ensures log == []
    {
      log := [];
    }

    method Send(id: int, event: Event)
      modifies this
      ensures log == old(log) + [Sent(id, event)]
    {
      log := log + [Sent(id, event)];
    }
  }

  class Connection {
    const id: int
    const peer: string
    const slot: SessionSlot
    const events: EventChannel
    var phase: Phase
    var params: Option<Params>
    var holdsSlot: bool
    var streaming: bool
    var pendingMetadata: Option<Event>
    var pendingArtwork: Option<Event>
    var track: Option<Position.Track>

    function Value(): State
      reads this
    {
      State(peer, phase, params, holdsSlot, streaming, pendingMetadata, pendingArtwork, track)
    }

    constructor (id: int, peer: string, slot: SessionSlot, events: EventChannel)
      ensures Value() == Fresh(peer)
      ensures this.id == id && this.slot == slot && this.events == events
    {
      this.id, this.peer, this.slot, this.events := id, peer, slot, events;
      phase, params, holdsSlot, streaming := Ready, None, false, false;
      pendingMetadata, pendingArtwork, track := None, None, None;
    }

    /** SETUP up to its await: refuse, or take the slot and go on to bind. */
    method HandleSetup(transportOk: bool) returns (status: Option<nat>)
      requires phase.Ready?
      modifies this, slot
      ensures Outcome(Value(), slot.taken, [], status) == Handle(old(Value()), old(slot.taken), Setup(transportOk))
    {
      if params == None {
        return Some(455);
      }
      if !holdsSlot {
        var acquired := slot.TryAcquire();
        if !acquired {
          return Some(453);
        }
        holdsSlot := true;
      }
      if !transportOk {
        return Some(400);
      }
      phase := Binding(params.value);
      status := None;
    }

    /** SETUP after its await: the session starts and what was latched follows. */
    method FinishSetup(ok: bool) returns (status: Option<nat>)
      requires phase.Binding?
      modifies this, events
      ensures var o := Handle(old(Value()), slot.taken, Bound(ok));
              && Value() == o.state && slot.taken == o.taken && status == o.status
              && events.log == old(events.log) + SentBy(id, o.events)
    {
      var format := phase.params;
      phase := Ready;
      if !ok {
        return Some(500);
      }
      events.Send(id, SessionStarted(format.sampleRate, format.channels, peer));
      streaming := true;
      if pendingMetadata.Some? {
        events.Send(id, pendingMetadata.value);
      }
      if pendingArtwork.Some? {
        events.Send(id, pendingArtwork.value);
      }
      pendingMetadata, pendingArtwork := None, None;
      status := Some(200);
    }

    method HandleAnnounce(announced: Option<Params>, refusal: nat) returns (status: Option<nat>)
      requires phase.Ready?
      modifies this
      ensures Outcome(Value(), slot.taken, [], status) == Handle(old(Value()), slot.taken, Announce(announced, refusal))
    {
      if announced == None {
        return Some(refusal);
      }
      params := announced;
      status := Some(200);
    }

    /** TEARDOWN's first half: the slot is free for others from here on. */
    method ReleaseSlot()
      requires phase.Ready?
      modifies this, slot
      ensures Outcome(Value(), slot.taken, [], None) == Handle(old(Value()), old(slot.taken), Teardown)
    {
      if holdsSlot {
        slot.Release();
        holdsSlot := false;
      }
      phase := Closing;
    }

    /** Report the end once per started session. */
    method EndSession()
      modifies this, events
      ensures Value() == old(Value()).(track := None, streaming := false)
      ensures events.log == old(events.log) + SentBy(id, Ending(old(Value())))
    {
      track := None;
      if streaming {
        streaming := false;
        events.Send(id, SessionEnded);
      }
    }

    /** TEARDOWN's second half. */
    method ReportTeardown() returns (status: Option<nat>)
      requires phase.Closing?
      modifies this, events
      ensures var o := Handle(old(Value()), slot.taken, TeardownReport);
              && Value() == o.state && slot.taken == o.taken && status == o.status
              && events.log == old(events.log) + SentBy(id, o.events)
    {
      EndSession();
      phase := Ready;
      status := Some(200);
    }

    method HandleFlush() returns (status: Option<nat>)
      requires phase.Ready?
      modifies events
      ensures var o := Handle(Value(), slot.taken, Flush);
              && Value() == o.state && slot.taken == o.taken && status == o.status
              && events.log == old(events.log) + SentBy(id, o.events)
    {
      events.Send(id, Flushed);
      status := Some(200);
    }

    /** Deliver inside a session; before it, keep the latest of each kind. */
    method SendSessionEvent(e: Event)
      requires phase.Ready? && (e.Metadata? || e.Artwork?)
      modifies this, events
      ensures var r := if e.Metadata? then SetMetadata(e.title, e.artist, e.album)
                       else SetArtwork(e.contentType, e.data);
              var o := Handle(old(Value()), slot.taken, r);
              && Value() == o.state && slot.taken == o.taken
              && events.log == old(events.log) + SentBy(id, o.events)
    {
      if streaming {
        events.Send(id, e);
      } else if e.Artwork? {
        pendingArtwork := Some(e);
      } else {
        pendingMetadata := Some(e);
      }
    }

    method HandleVolume(db: real)
      requires phase.Ready?
      modifies events
      ensures var o := Handle(Value(), slot.taken, SetVolume(db));
              && Value() == o.state && slot.taken == o.taken
              && events.log == old(events.log) + SentBy(id, o.events)
    {
      events.Send(id, Volume(db));
    }

    method HandleProgress(start: u32, current: u32, end: u32)
      requires phase.Ready?
      modifies this, events
      ensures var o := Handle(old(Value()), slot.taken, SetProgress(start, current, end));
              && Value() == o.state && slot.taken == o.taken
              && events.log == old(events.log) + SentBy(id, o.events)
    {
      if params == None || !streaming {
        return;
      }
      track := Some(Position.Track(start, end));
      events.Send(id, ProgressEvent(start, current, end, params.value.sampleRate));
    }

    /** Dropping the session: report the end, then let the slot guard go. */
    method Drop()
      requires !phase.Closing?
      modifies this, slot, events
      ensures var o := Handle(old(Value()), old(slot.taken), Disconnect);
              && Value() == o.state && slot.taken == o.taken
              && events.log == old(events.log) + SentBy(id, o.events)
    {
      EndSession();
      if holdsSlot {
        slot.Release();
        holdsSlot := false;
      }
    }
  }

  // ----- Latched metadata -----

  /** Requests of one connection, each with whether the slot was taken. */
  datatype Seen = Seen(request: Request, taken: bool)

  datatype SessionRun = SessionRun(state: State, events: seq<Event>)

  /** A connection's own history; a request it cannot make then is skipped. */
  function RunSession(st: State, seen: seq<Seen>): SessionRun {
    if seen == [] then SessionRun(st, [])
    else
      var r := RunSession(st, seen[..|seen| - 1]);
      var s := seen[|seen| - 1];
      if !Accepts(r.state, s.request) then r
      else
        var o := Handle(r.state, s.taken, s.request);
        SessionRun(o.state, r.events + o.events)
  }

  predicate NeverStarts(seen: seq<Seen>) {
    forall i :: 0 <= i < |seen| ==> seen[i].request != Bound(true)
  }

  /** The last metadata and the last artwork a connection could push. */
  function LastMetadata(st: State, seen: seq<Seen>): Option<Event> {
    if seen == [] then st.pendingMetadata
    else
      var init, r := seen[..|seen| - 1], seen[|seen| - 1].request;
      if r.SetMetadata? && Accepts(RunSession(st, init).state, r)
      then Some(Metadata(r.title, r.artist, r.album)) else LastMetadata(st, init)
  }

  function LastArtwork(st: State, seen: seq<Seen>): Option<Event> {
    if seen == [] then st.pendingArtwork
    else
      var init, r := seen[..|seen| - 1], seen[|seen| - 1].request;
      if r.SetArtwork? && Accepts(RunSession(st, init).state, r)
      then Some(Artwork(r.contentType, r.data)) else LastArtwork(st, init)
  }

  /** Until a session starts, whatever else is asked of it, only the latest
      metadata and the latest artwork are kept, and nothing but volume and flush
      events is sent. */
  lemma {:induction false} LatestIsLatched(st: State, seen: seq<Seen>)
    requires !st.streaming && NeverStarts(seen)
    ensures var r := RunSession(st, seen);
            && !r.state.streaming
            && r.state.pendingMetadata == LastMetadata(st, seen)
            && r.state.pendingArtwork == LastArtwork(st, seen)
            && Unbound(r.events)
  {
    if seen != [] {
      LatestIsLatched(st, seen[..|seen| - 1]);
    }
  }

  /** When it does start, they follow the start at once, in that order, once:
      nothing stays latched. */
  lemma LatchedIsReplayedOnce(st: State, seen: seq<Seen>, taken: bool)
    requires !st.streaming && NeverStarts(seen)
    requires RunSession(st, seen).state.phase.Binding?
    ensures var params := RunSession(st, seen).state.phase.params;
            var r := RunSession(st, seen + [Seen(Bound(true), taken)]);
            && r.events == RunSession(st, seen).events
                 + [SessionStarted(params.sampleRate, params.channels, RunSession(st, seen).state.peer)]
                 + Listed(LastMetadata(st, seen)) + Listed(LastArtwork(st, seen))
            && r.state.streaming && r.state.pendingMetadata == None && r.state.pendingArtwork == None
  {
    LatestIsLatched(st, seen);
    var all := seen + [Seen(Bound(true), taken)];
    assert all[..|all| - 1] == seen;
    var r := RunSession(st, seen);
    var o := Handle(r.state, taken, Bound(true));
    assert r.events + o.events
        == r.events + [o.events[0]] + Listed(LastMetadata(st, seen)) + Listed(LastArtwork(st, seen));
  }

  // ----- Starts and ends -----

  /** The last start has not been followed by an end. */
  predicate Open(events: seq<Event>) {
    events != []
    && var last := events[|events| - 1];
       last.SessionStarted? || (!last.SessionEnded? && Open(events[..|events| - 1]))
  }

  /** Starts and ends take turns, a start first. */
  predicate TakeTurns(events: seq<Event>) {
    events == []
    || (var init, last := events[..|events| - 1], events[|events| - 1];
        TakeTurns(init) && (last.SessionStarted? ==> !Open(init)) && (last.SessionEnded? ==> Open(init)))
  }

  lemma TurnsNext(events: seq<Event>, e: Event)
    ensures Open(events + [e]) <==> e.SessionStarted? || (!e.SessionEnded? && Open(events))
    ensures TakeTurns(events + [e])
        <==> (TakeTurns(events) && (e.SessionStarted? ==> !Open(events)) && (e.SessionEnded? ==> Open(events)))
  {
    assert (events + [e])[..|events|] == events;
  }

  lemma {:induction false} InsideTakesNoTurn(events: seq<Event>, more: seq<Event>)
    requires Inside(more)
    ensures Open(events + more) == Open(events) && TakeTurns(events + more) == TakeTurns(events)
  {
    if more == [] {
      assert events + more == events;
    } else {
      var init := more[..|more| - 1];
      InsideTakesNoTurn(events, init);
      assert events + more == (events + init) + [more[|more| - 1]];
      TurnsNext(events + init, more[|more| - 1]);
    }
  }

  /** A SETUP finishes on a session that already streams. */
  predicate Restarts(st: State, r: Request) {
    r == Bound(true) && Accepts(st, r) && st.streaming
  }

  ghost predicate NeverRestarts(st: State, seen: seq<Seen>) {
    forall k :: 0 <= k < |seen| ==> !Restarts(RunSession(st, seen[..k]).state, seen[k].request)
  }

  lemma NeverRestartsNext(st: State, seen: seq<Seen>)
    requires seen != []
    ensures NeverRestarts(st, seen)
        <==> (NeverRestarts(st, seen[..|seen| - 1])
              && !Restarts(RunSession(st, seen[..|seen| - 1]).state, seen[|seen| - 1].request))
  {
    hide Restarts, RunSession;
    var init := seen[..|seen| - 1];
    forall k | 0 <= k < |init| ensures init[..k] == seen[..k] && init[k] == seen[k] {
    }
    if NeverRestarts(st, seen) {
      forall k | 0 <= k < |init| ensures !Restarts(RunSession(st, init[..k]).state, init[k].request) {
        assert !Restarts(RunSession(st, seen[..k]).state, seen[k].request);
      }
    }
  }

  ghost predicate LatchesInside(st: State) {
    Inside(Listed(st.pendingMetadata)) && Inside(Listed(st.pendingArtwork))
  }

  lemma StartTurns(st: State, taken: bool, events: seq<Event>)
    requires Accepts(st, Bound(true)) && LatchesInside(st) && (Open(events) <==> st.streaming)
    ensures var o := Handle(st, taken, Bound(true));
            && LatchesInside(o.state) && Open(events + o.events)
            && (TakeTurns(events + o.events) <==> TakeTurns(events) && !st.streaming)
  {
    hide Open, TakeTurns;
    var o := Handle(st, taken, Bound(true));
    var more := Listed(st.pendingMetadata) + Listed(st.pendingArtwork);
    assert events + o.events == (events + [o.events[0]]) + more;
    TurnsNext(events, o.events[0]);
    InsideTakesNoTurn(events + [o.events[0]], more);
  }

  lemma EndTurns(st: State, events: seq<Event>)
    requires Open(events) <==> st.streaming
    ensures !Open(events + Ending(st)) && (TakeTurns(events + Ending(st)) <==> TakeTurns(events))
  {
    hide Open, TakeTurns;
    if st.streaming {
      TurnsNext(events, SessionEnded);
    } else {
      assert events + [] == events;
    }
  }

  lemma OthersStayInside(st: State, taken: bool, r: Request)
    requires Accepts(st, r) && LatchesInside(st) && r != Bound(true) && !r.TeardownReport? && !r.Disconnect?
    ensures var o := Handle(st, taken, r);
            LatchesInside(o.state) && Inside(o.events) && o.state.streaming == st.streaming
  {
  }

  /** How one request continues a session's events. */
  lemma RequestTurns(st: State, taken: bool, r: Request, events: seq<Event>)
    requires Accepts(st, r) && LatchesInside(st) && (Open(events) <==> st.streaming)
    ensures var o := Handle(st, taken, r);
            && LatchesInside(o.state) && (Open(events + o.events) <==> o.state.streaming)
            && (TakeTurns(events + o.events) <==> TakeTurns(events) && !Restarts(st, r))
  {
    hide Open, TakeTurns, LatchesInside, Inside;
    if r == Bound(true) {
      StartTurns(st, taken, events);
    } else if r.TeardownReport? || r.Disconnect? {
      EndTurns(st, events);
      assert LatchesInside(Handle(st, taken, r).state) by { SameLatches(st, Handle(st, taken, r).state); }
    } else {
      OthersStayInside(st, taken, r);
      hide Handle;
      InsideTakesNoTurn(events, Handle(st, taken, r).events);
    }
  }

  lemma SameLatches(st: State, st': State)
    requires LatchesInside(st)
    requires st.pendingMetadata == st'.pendingMetadata && st.pendingArtwork == st'.pendingArtwork
    ensures LatchesInside(st')
  {
  }

  /** Over any history of a connection, starts and ends take turns, so that each
      start is ended once, exactly if no SETUP finishes on a session that already
      streams. */
  lemma {:induction false} TurnsIffNeverRestarted(peer: string, seen: seq<Seen>)
    ensures var r := RunSession(Fresh(peer), seen);
            && (TakeTurns(r.events) <==> NeverRestarts(Fresh(peer), seen))
            && (Open(r.events) <==> r.state.streaming) && LatchesInside(r.state)
  {
    if seen != [] {
      var init, last := seen[..|seen| - 1], seen[|seen| - 1];
      TurnsIffNeverRestarted(peer, init);
      NeverRestartsNext(Fresh(peer), seen);
      hide NeverRestarts, TakeTurns, Open, LatchesInside;
      var r := RunSession(Fresh(peer), init);
      if Accepts(r.state, last.request) {
        RequestTurns(r.state, last.taken, last.request, r.events);
      }
    }
  }

  /** The history of a sender that sets up twice and then tears down: two starts and
      one end. */
  lemma RestartedEndsOnce(peer: string, p: Params)
    ensures var setup := [Seen(Setup(true), false), Seen(Bound(true), true)];
            var seen := [Seen(Announce(Some(p), 400), false)] + setup + setup
                      + [Seen(Teardown, true), Seen(TeardownReport, false)];
            var started := SessionStarted(p.sampleRate, p.channels, peer);
            RunSession(Fresh(peer), seen).events == [started, started, SessionEnded]
  {
    var a, s, b := Seen(Announce(Some(p), 400), false), Seen(Setup(true), false), Seen(Bound(true), true);
    var started := SessionStarted(p.sampleRate, p.channels, peer);
    var seen := [a, s, b, s, b, Seen(Teardown, true), Seen(TeardownReport, false)];
    assert seen == [a] + [s, b] + [s, b] + [Seen(Teardown, true), Seen(TeardownReport, false)];
    var idle := Fresh(peer).(params := Some(p));
    var streaming := idle.(holdsSlot := true, streaming := true);
    hide RunSession, Handle, Accepts;
    Announces(peer, seen, p);
    SetsUp(Fresh(peer), seen, 1, SessionRun(idle, []), p);
    assert RunSession(Fresh(peer), seen[..3]) == SessionRun(streaming, [started]);
    SetsUp(Fresh(peer), seen, 3, SessionRun(streaming, [started]), p);
    TearsDown(Fresh(peer), seen, 5, SessionRun(streaming, [started, started]));
    assert seen[..7] == seen;
  }

  lemma Announces(peer: string, seen: seq<Seen>, p: Params)
    requires |seen| > 0 && seen[0] == Seen(Announce(Some(p), 400), false)
    ensures RunSession(Fresh(peer), seen[..1]) == SessionRun(Fresh(peer).(params := Some(p)), [])
  {
    assert RunSession(Fresh(peer), seen[..0]) == SessionRun(Fresh(peer), []);
    RunSessionNext(Fresh(peer), seen, 0);
  }

  lemma SetsUp(st: State, seen: seq<Seen>, k: nat, r: SessionRun, p: Params)
    requires k + 2 <= |seen| && RunSession(st, seen[..k]) == r
    requires seen[k] == Seen(Setup(true), false) && seen[k + 1].request == Bound(true)
    requires r.state.phase.Ready? && r.state.params == Some(p)
    requires r.state.pendingMetadata == None && r.state.pendingArtwork == None
    ensures RunSession(st, seen[..k + 2])
         == SessionRun(r.state.(holdsSlot := true, streaming := true),
                       r.events + [SessionStarted(p.sampleRate, p.channels, r.state.peer)])
  {
    hide RunSession;
    RunSessionNext(st, seen, k);
    assert RunSession(st, seen[..k + 1]) == SessionRun(r.state.(holdsSlot := true, phase := Binding(p)), r.events);
    RunSessionNext(st, seen, k + 1);
  }

  lemma TearsDown(st: State, seen: seq<Seen>, k: nat, r: SessionRun)
    requires k + 2 <= |seen| && RunSession(st, seen[..k]) == r
    requires seen[k].request == Teardown && seen[k + 1].request == TeardownReport
    requires r.state.phase.Ready? && r.state.streaming
    ensures RunSession(st, seen[..k + 2]).events == r.events + [SessionEnded]
  {
    hide RunSession;
    RunSessionNext(st, seen, k);
    assert RunSession(st, seen[..k + 1]) == SessionRun(r.state.(holdsSlot := false, phase := Closing), r.events);
    RunSessionNext(st, seen, k + 1);
  }

  lemma RunSessionNext(st: State, seen: seq<Seen>, k: nat)
    requires k < |seen|
    ensures var r := RunSession(st, seen[..k]);
            RunSession(st, seen[..k + 1])
            == if Accepts(r.state, seen[k].request)
               then var o := Handle(r.state, seen[k].taken, seen[k].request); SessionRun(o.state, r.events + o.events)
               else r
  {
    hide Handle;
    assert seen[..k + 1][..k] == seen[..k];
  }
}
