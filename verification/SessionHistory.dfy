/** A connection's events and answers, told from its requests alone. */
module SessionHistory {
  import opened Numbers
  import opened Events
  import opened Session
  import Position

  /** Where a connection stands between its requests: the format it last announced,
      whether its SETUP waits for sockets and with which format, whether it is
      inside its TEARDOWN, and whether it holds the slot and streams. */
  datatype Standing = Standing(
    announced: Option<Params>,
    waiting: Option<Params>,
    leaving: bool,
    holds: bool,
    streams: bool)

  const NEW: Standing := Standing(None, None, false, false, false)

  function Stand(seen: seq<Seen>): Standing {
    if seen == [] then NEW else StandNext(Stand(seen[..|seen| - 1]), seen[|seen| - 1])
  }

  function StandNext(at: Standing, s: Seen): Standing {
    if !Takes(at, s.request) then at
    else match s.request
      case Announce(params, _) => if params.Some? then at.(announced := params) else at
      case Setup(ok) =>
        if at.announced.None? || (s.taken && !at.holds) then at
        else at.(holds := true, waiting := if ok then at.announced else None)
      case Bound(ok) => at.(waiting := None, streams := ok || at.streams)
      case Teardown => at.(holds := false, leaving := true)
      case TeardownReport => at.(leaving := false, streams := false)
      case Disconnect => at.(holds := false, streams := false)
      case _ => at
  }

  /** Requests come one at a time; SETUP and TEARDOWN are finished before the next,
      but for a connection that breaks during SETUP. */
  predicate Takes(at: Standing, r: Request) {
    if r.Bound? then at.waiting.Some?
    else if r.TeardownReport? then at.leaving
    else if r.Disconnect? then !at.leaving
    else at.waiting.None? && !at.leaving
  }

  /** The last description of a kind taken while not streaming, since a session last
      started. */
  function Latched(seen: seq<Seen>, k: Kind): Option<Event> {
    if seen == [] then None
    else LatchedNext(Stand(seen[..|seen| - 1]), Latched(seen[..|seen| - 1], k), seen[|seen| - 1].request, k)
  }

  function LatchedNext(at: Standing, before: Option<Event>, r: Request, k: Kind): Option<Event> {
    if !Takes(at, r) then before
    else if r == Bound(true) then None
    else if k.OfTrack? && r.SetMetadata? && !at.streams then Some(Metadata(r.title, r.artist, r.album))
    else if k.OfCover? && r.SetArtwork? && !at.streams then Some(Artwork(r.contentType, r.data))
    else before
  }

  /** The track of the last position taken while streaming, until the session ends. */
  function TrackTaken(seen: seq<Seen>): Option<Position.Track> {
    if seen == [] then None
    else TrackNext(Stand(seen[..|seen| - 1]), TrackTaken(seen[..|seen| - 1]), seen[|seen| - 1].request)
  }

  function TrackNext(at: Standing, before: Option<Position.Track>, r: Request): Option<Position.Track> {
    if !Takes(at, r) then before
    else if r.SetProgress? && at.streams && at.announced.Some? then Some(Position.Track(r.start, r.end))
    else if r.TeardownReport? || r.Disconnect? then None
    else before
  }

  function Saturating(a: u32, b: u32): nat {
    if a >= b then a - b else 0
  }

  /** What the host hears of one request, with these descriptions latched. */
  function SaidAt(peer: string, at: Standing, track: Option<Event>, cover: Option<Event>, r: Request): seq<Event> {
    if !Takes(at, r) then []
    else match r
      case Bound(ok) =>
        if !ok then []
        else [SessionStarted(at.waiting.value.sampleRate, at.waiting.value.channels, peer)]
             + Listed(track) + Listed(cover)
      case SetMetadata(title, artist, album) => if at.streams then [Metadata(title, artist, album)] else []
      case SetArtwork(contentType, data) => if at.streams then [Artwork(contentType, data)] else []
      case SetVolume(db) => [Volume(db)]
      case SetProgress(start, current, end) =>
        if !at.streams || at.announced.None? then []
        else
          var rate := at.announced.value.sampleRate;
          [Progress(Millis(Saturating(current, start), rate), Millis(Saturating(end, start), rate))]
      case Flush => [Flushed]
      case TeardownReport => if at.streams then [SessionEnded] else []
      case Disconnect => if at.streams then [SessionEnded] else []
      case _ => []
  }

  function Said(peer: string, seen: seq<Seen>): seq<Event> {
    if seen == [] then []
    else
      var init := seen[..|seen| - 1];
      Said(peer, init)
      + SaidAt(peer, Stand(init), Latched(init, OfTrack), Latched(init, OfCover), seen[|seen| - 1].request)
  }

  /** The status a request is answered with, if it is. */
  function Answer(at: Standing, r: Request, taken: bool): Option<nat> {
    match r
    case Announce(params, refusal) => if params.Some? then Some(200) else Some(refusal)
    case Setup(ok) =>
      if at.announced.None? then Some(455)
      else if taken && !at.holds then Some(453)
      else if ok then None
      else Some(400)
    case Bound(ok) => if ok then Some(200) else Some(500)
    case Teardown => None
    case Disconnect => None
    case _ => Some(200)
  }

  /** Milliseconds rounded down, and none where there is no rate. */
  lemma MillisSpan(frames: nat, rate: u32)
    ensures rate > 0 ==> Millis(frames, rate) * rate <= frames * 1000 < (Millis(frames, rate) + 1) * rate
    ensures rate == 0 ==> Millis(frames, rate) == 0
  {
    if rate > 0 {
      var x := frames * 1000;
      assert x == x / rate * rate + x % rate;
      Distributes(x / rate, 1, rate);
    }
  }

  /** The session state that goes with a history. */
  ghost predicate Agrees(st: State, at: Standing, m: Option<Event>, a: Option<Event>, track: Option<Position.Track>) {
    && StandsAt(st, at)
    && st.pendingMetadata == m && st.pendingArtwork == a && st.track == track
  }

  predicate StandsAt(st: State, at: Standing) {
    && st.params == at.announced
    && st.phase == (if at.waiting.Some? then Binding(at.waiting.value) else if at.leaving then Closing else Ready)
    && (at.waiting.Some? ==> !at.leaving)
    && st.holdsSlot == at.holds && st.streaming == at.streams
  }

  lemma NewAgrees(peer: string)
    ensures Agrees(Fresh(peer), NEW, None, None, None)
  {
  }

  lemma TakesIff(st: State, at: Standing, m: Option<Event>, a: Option<Event>, track: Option<Position.Track>, r: Request)
    requires Agrees(st, at, m, a, track)
    ensures Accepts(st, r) <==> Takes(at, r)
  {
  }

  /** One request taken: what is said and answered. */
  lemma HandledSays(
      st: State, at: Standing, m: Option<Event>, a: Option<Event>, track: Option<Position.Track>, s: Seen)
    requires Takes(at, s.request) && Accepts(st, s.request) && Agrees(st, at, m, a, track)
    ensures var o := Handle(st, s.taken, s.request);
            o.events == SaidAt(st.peer, at, m, a, s.request) && o.status == Answer(at, s.request, s.taken)
  {
    hide Millis;
  }

  lemma HandledStands(st: State, at: Standing, s: Seen)
    requires Takes(at, s.request) && Accepts(st, s.request) && StandsAt(st, at)
    ensures StandsAt(Handle(st, s.taken, s.request).state, StandNext(at, s))
  {
    hide Millis, ProgressEvent;
  }

  lemma HandledLatches(st: State, at: Standing, s: Seen)
    requires Takes(at, s.request) && Accepts(st, s.request) && StandsAt(st, at)
    ensures var o := Handle(st, s.taken, s.request);
            && o.state.peer == st.peer
            && o.state.pendingMetadata == LatchedNext(at, st.pendingMetadata, s.request, OfTrack)
            && o.state.pendingArtwork == LatchedNext(at, st.pendingArtwork, s.request, OfCover)
            && o.state.track == TrackNext(at, st.track, s.request)
  {
    hide Millis, ProgressEvent;
  }

  /** And what is remembered. */
  lemma HandledKeeps(
      st: State, at: Standing, m: Option<Event>, a: Option<Event>, track: Option<Position.Track>, s: Seen)
    requires Takes(at, s.request) && Accepts(st, s.request) && Agrees(st, at, m, a, track)
    ensures var o := Handle(st, s.taken, s.request);
            && o.state.peer == st.peer
            && Agrees(o.state, StandNext(at, s), LatchedNext(at, m, s.request, OfTrack),
                      LatchedNext(at, a, s.request, OfCover), TrackNext(at, track, s.request))
  {
    HandledStands(st, at, s);
    HandledLatches(st, at, s);
    hide Handle, StandNext, StandsAt, LatchedNext, TrackNext, Takes, Accepts;
  }

  lemma NotTaken(
      peer: string, at: Standing, m: Option<Event>, a: Option<Event>, track: Option<Position.Track>, s: Seen)
    requires !Takes(at, s.request)
    ensures SaidAt(peer, at, m, a, s.request) == []
    ensures StandNext(at, s) == at && TrackNext(at, track, s.request) == track
    ensures LatchedNext(at, m, s.request, OfTrack) == m && LatchedNext(at, a, s.request, OfCover) == a
  {
  }

  /** Over every history of a connection, the host hears exactly what its requests
      call for, and each is answered accordingly: while it streams each description
      and position at once, volume and flushes always, and the latest descriptions
      from before right after a start. */
  lemma {:induction false} HistoryIsSaid(peer: string, seen: seq<Seen>)
    ensures var r := RunSession(Fresh(peer), seen);
            && r.events == Said(peer, seen) && r.state.peer == peer
            && r.state.track == TrackTaken(seen)
            && Agrees(r.state, Stand(seen), Latched(seen, OfTrack), Latched(seen, OfCover), TrackTaken(seen))
  {
    if seen == [] {
      NewAgrees(peer);
    } else {
      hide Agrees, Handle, Accepts, Takes, StandNext, LatchedNext, TrackNext, SaidAt;
      var init, s := seen[..|seen| - 1], seen[|seen| - 1];
      HistoryIsSaid(peer, init);
      var st := RunSession(Fresh(peer), init).state;
      var at, m, a, track := Stand(init), Latched(init, OfTrack), Latched(init, OfCover), TrackTaken(init);
      TakesIff(st, at, m, a, track, s.request);
      if Accepts(st, s.request) {
        HandledSays(st, at, m, a, track, s);
        HandledKeeps(st, at, m, a, track, s);
      } else {
        NotTaken(peer, at, m, a, track, s);
        assert Said(peer, init) + [] == Said(peer, init);
      }
      TrackAgrees(RunSession(Fresh(peer), seen).state, seen);
    }
  }

  lemma TrackAgrees(st: State, seen: seq<Seen>)
    requires Agrees(st, Stand(seen), Latched(seen, OfTrack), Latched(seen, OfCover), TrackTaken(seen))
    ensures st.track == TrackTaken(seen)
  {
  }

  /** And each request it takes is answered with the status its standing calls for. */
  lemma AnsweredByStanding(peer: string, seen: seq<Seen>, s: Seen)
    requires Accepts(RunSession(Fresh(peer), seen).state, s.request)
    ensures Handle(RunSession(Fresh(peer), seen).state, s.taken, s.request).status
         == Answer(Stand(seen), s.request, s.taken)
  {
    HistoryIsSaid(peer, seen);
    hide RunSession, Stand, Latched, TrackTaken;
    var st := RunSession(Fresh(peer), seen).state;
    TakesIff(st, Stand(seen), Latched(seen, OfTrack), Latched(seen, OfCover), TrackTaken(seen), s.request);
    HandledSays(st, Stand(seen), Latched(seen, OfTrack), Latched(seen, OfCover), TrackTaken(seen), s);
  }
}
