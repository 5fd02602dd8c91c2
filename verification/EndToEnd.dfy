/** From the sessions' events to the dashboards: what is published and what the
    screens end up showing. */
module EndToEnd {
  import opened Numbers
  import Events
  import Session
  import Sessions = SessionServer
  import Asked
  import opened Protocol
  import opened Fanout

  /** Base64 encoding is a library call. */
  type Encoder = Bytes -> string

  function ToMessage(encode: Encoder, e: Events.Event): (m: Message)
    ensures !m.Whole?
  {
    match e
    case SessionStarted(rate, channels, peer) => Message.SessionStarted(SessionInfo(rate, channels, peer))
    case Volume(db) => Message.Volume(db)
    case Metadata(title, artist, album) => Message.Metadata(Track(title, artist, album))
    case Artwork(contentType, data) => ArtworkSent(Artwork.Artwork(contentType, encode(data)))
    case Progress(elapsedMs, durationMs) => ProgressSent(Progress.Progress(elapsedMs, durationMs))
    case Flushed => Message.Flushed
    case SessionEnded => Message.SessionEnded
  }

  /** The receiver's side of the dashboard socket. */
  class Publisher {
    const snapshot: SnapshotCell
    var changes: seq<Message>

    constructor (receiver: ReceiverInfo)
      ensures fresh(snapshot) && snapshot.Value() == Blank(receiver) && changes == []
    {
      snapshot := new SnapshotCell(receiver);
      changes := [];
    }

    /** Apply, then send. */
    method Publish(encode: Encoder, e: Events.Event)
      modifies this, snapshot
      ensures snapshot.Value() == Applied(old(snapshot.Value()), ToMessage(encode, e))
      ensures changes == old(changes) + [ToMessage(encode, e)]
    {
      var m := ToMessage(encode, e);
      snapshot.Apply(m);
      changes := changes + [m];
    }
  }

  function MessagesOf(encode: Encoder, log: seq<Events.Sent>): (ms: seq<Message>)
    ensures |ms| == |log| && Changes(ms)
  {
    if log == [] then []
    else MessagesOf(encode, log[..|log| - 1]) + [ToMessage(encode, log[|log| - 1].event)]
  }

  /** Publishing a log event by event leaves the snapshot at the log's fold and
      has sent exactly its messages. */
  method PublishAll(encode: Encoder, receiver: ReceiverInfo, log: seq<Events.Sent>)
    returns (snapshot: Snapshot, sent: seq<Message>)
    ensures snapshot == Fold(Blank(receiver), MessagesOf(encode, log)) && sent == MessagesOf(encode, log)
  {
    var publisher := new Publisher(receiver);
    for i := 0 to |log|
      invariant fresh(publisher) && fresh(publisher.snapshot)
      invariant publisher.snapshot.Value() == Fold(Blank(receiver), MessagesOf(encode, log[..i]))
      invariant publisher.changes == MessagesOf(encode, log[..i])
    {
      assert log[..i + 1][..i] == log[..i];
      FoldConcat(Blank(receiver), MessagesOf(encode, log[..i]), [ToMessage(encode, log[i].event)]);
      publisher.Publish(encode, log[i].event);
    }
    assert log[..|log|] == log;
    snapshot, sent := publisher.snapshot.Value(), publisher.changes;
  }

  function SessionOf(start: Option<Events.Sent>): Option<SessionInfo> {
    if start.Some? && start.value.event.SessionStarted? then
      var e := start.value.event;
      Some(SessionInfo(e.rate, e.channels, e.peer))
    else None
  }

  function TrackOf(metadata: Option<Events.Sent>): Option<Track> {
    if metadata.Some? && metadata.value.event.Metadata? then
      var e := metadata.value.event;
      Some(Track(e.title, e.artist, e.album))
    else None
  }

  /** Empty artwork is the sender's clear. */
  function ArtworkOf(encode: Encoder, artwork: Option<Events.Sent>): Option<Artwork> {
    if artwork.Some? && artwork.value.event.Artwork? then
      var data := encode(artwork.value.event.data);
      if data == "" then None else Some(Artwork.Artwork(artwork.value.event.contentType, data))
    else None
  }

  function ProgressOf(e: Option<Events.Event>): Option<Progress> {
    if e.Some? && e.value.Progress? then Some(Progress.Progress(e.value.elapsedMs, e.value.durationMs)) else None
  }

  /** A snapshot has the session, track, artwork and volume last stated since the
      previous session ended, a session exactly while an interval is open, and the
      position last reported since a flush or a session's end. */
  ghost predicate Follows(encode: Encoder, receiver: ReceiverInfo, s: Snapshot, log: seq<Events.Sent>) {
    && s.receiver == receiver
    && s.session == SessionOf(Events.OpenStart(log)) && (s.session.Some? <==> Events.Owner(log).Some?)
    && s.track == TrackOf(Events.OpenStated(log, Events.OfTrack))
    && s.artwork == ArtworkOf(encode, Events.OpenStated(log, Events.OfCover))
    && s.volumeDb == Events.OpenVolume(log)
    && s.progress == ProgressOf(Events.OpenProgress(log))
  }

  lemma FollowsNext(encode: Encoder, receiver: ReceiverInfo, s: Snapshot, log: seq<Events.Sent>, e: Events.Sent)
    requires Follows(encode, receiver, s, log)
    ensures Follows(encode, receiver, Applied(s, ToMessage(encode, e.event)), log + [e])
  {
    assert (log + [e])[..|log|] == log;
  }

  /** The published snapshot follows the log in that way, event by event. */
  lemma {:induction false} SnapshotFollowsLog(encode: Encoder, receiver: ReceiverInfo, log: seq<Events.Sent>)
    ensures Follows(encode, receiver, Fold(Blank(receiver), MessagesOf(encode, log)), log)
  {
    if log != [] {
      hide Follows, Applied;
      var init, last := log[..|log| - 1], log[|log| - 1];
      SnapshotFollowsLog(encode, receiver, init);
      FoldNext(Blank(receiver), MessagesOf(encode, init), ToMessage(encode, last.event));
      FollowsNext(encode, receiver, Fold(Blank(receiver), MessagesOf(encode, init)), init, last);
      assert init + [last] == log;
    }
  }

  /** In any run of the fan-out that has published what a channel carried, a
      dashboard with nothing left on its way shows a session exactly while an
      interval is open: the format and peer of its last start, and the track,
      artwork and volume last stated; and the position last reported, whenever no
      flush has followed it. */
  lemma DashboardFollowsLog(
      encode: Encoder, decode: Decoder, receiver: ReceiverInfo,
      channel: seq<Events.Sent>, log: seq<Events.Sent>, steps: seq<Step>, s: Server, id: nat)
    requires Leads(decode, Start(receiver), steps, s) && s.history == MessagesOf(encode, channel)
    requires Events.Carries(channel, log)
    requires id in s.clients && DrainedClient(s, s.clients[id])
    ensures var d := s.clients[id].display;
            && d.name == receiver.name
            && d.session == SessionOf(Events.OpenStart(log)) && (d.session.Some? <==> Events.Owner(log).Some?)
            && Track(d.title, d.artist, d.album) == TrackOr(TrackOf(Events.OpenStated(log, Events.OfTrack)))
            && d.artwork == ShownArtwork(decode, ArtworkOf(encode, Events.OpenStated(log, Events.OfCover)))
            && (Events.OpenVolume(log).Some? ==> d.volumeDb == Events.OpenVolume(log))
            && (Events.OpenProgress(channel).Some? ==> d.progress == ProgressOf(Events.OpenProgress(channel)))
  {
    hide Leads;
    DrainedMirrors(decode, receiver, steps, s, id);
    StartStays(decode, Start(receiver), steps, s);
    SnapshotFollowsLog(encode, receiver, channel);
    Events.CarriesSame(channel, log);
    OpenProgressIs(channel);
  }

  lemma {:induction false} OpenProgressIs(log: seq<Events.Sent>)
    ensures Events.OpenProgress(log).Some? ==> Events.OpenProgress(log).value.Progress?
  {
    if log != [] {
      OpenProgressIs(log[..|log| - 1]);
    }
  }

  /** Encoded and decoded by the same rules, the picture shown is, byte for byte, the
      one the sender sent, and none exactly if it cleared it or sent none. */
  lemma ArtworkArrives(encode: Encoder, decode: Decoder, artwork: Option<Events.Sent>)
    requires forall data :: decode(encode(data)) == Some(data)
    requires forall data :: encode(data) == "" <==> data == []
    requires artwork.Some? ==> artwork.value.event.Artwork?
    ensures ShownArtwork(decode, ArtworkOf(encode, artwork))
         == if artwork.Some? && artwork.value.event.data != []
            then Some(Picture(artwork.value.event.contentType, artwork.value.event.data)) else None
  {
  }

  /** End to end: in any run of the sessions in which none starts inside another's
      TEARDOWN, with position reports anywhere, a dashboard with nothing left on
      its way shows a session exactly while some connection streams: the format
      and peer of that connection's last start, the track and artwork it was last
      asked to show, or none, and the position last reported. */
  lemma DashboardShowsTheStream(
      encode: Encoder, decode: Decoder, receiver: ReceiverInfo,
      requests: seq<Sessions.Step>, channel: seq<Events.Sent>, steps: seq<Step>, s: Server, id: nat)
    requires Sessions.RaceFree(requests)
    requires Leads(decode, Start(receiver), steps, s)
    requires s.history == MessagesOf(encode, channel) && Events.Carries(channel, Sessions.RunOf(requests).log)
    requires id in s.clients && DrainedClient(s, s.clients[id])
    ensures var w := Sessions.RunOf(requests);
            var d := s.clients[id].display;
            && d.name == receiver.name
            && (d.session.Some? <==> exists c :: Sessions.Streams(w, c))
            && (Events.OpenVolume(w.log).Some? ==> d.volumeDb == Events.OpenVolume(w.log))
            && (Events.OpenProgress(channel).Some? ==> d.progress == ProgressOf(Events.OpenProgress(channel)))
            && (forall c :: Sessions.Streams(w, c) ==> ShowsConnection(encode, decode, d, requests, c))
            && (!d.session.Some? ==> Track(d.title, d.artist, d.album) == Track(None, None, None) && d.artwork == None)
  {
    hide Leads, DrainedClient, Sessions.RunOf, Sessions.RaceFree, Events.Carries;
    var w := Sessions.RunOf(requests);
    Sessions.BracketedIffRaceFree(requests);
    DashboardFollowsLog(encode, decode, receiver, channel, w.log, steps, s, id);
    Events.StatedByOwner(w.log);
    if Events.Owner(w.log).Some? {
      assert Sessions.Streams(w, Events.Owner(w.log).value);
    } else {
      NothingStated(w.log);
    }
    forall c | Sessions.Streams(w, c) ensures ShowsConnection(encode, decode, s.clients[id].display, requests, c) {
      assert Events.IsStated(w.log, Events.OpenStart(w.log).value);
      Asked.StatedIsAsked(requests, c, Events.OfTrack);
      Asked.StatedIsAsked(requests, c, Events.OfCover);
    }
  }

  lemma NothingStated(log: seq<Events.Sent>)
    requires Events.Bracketed(log) && Events.Owner(log) == None
    ensures forall k :: Events.OpenStated(log, k) == None
  {
    Events.StatedByOwner(log);
    forall k ensures Events.OpenStated(log, k) == None {
      if Events.OpenStated(log, k).Some? {
        assert Events.IsStated(log, Events.OpenStated(log, k).value);
      }
    }
  }

  /** The display is that of connection `c`: its last start, and the track and
      artwork of the last requests to show any. */
  predicate ShowsConnection(encode: Encoder, decode: Decoder, d: Display, requests: seq<Sessions.Step>, c: int) {
    var start := Events.OpenStart(Sessions.RunOf(requests).log);
    && start.Some? && start.value.id == c && d.session == SessionOf(start)
    && Track(d.title, d.artist, d.album) == TrackOr(TrackOf(Asked.By(requests, c, Events.OfTrack)))
    && d.artwork == ShownArtwork(decode, ArtworkOf(encode, Asked.By(requests, c, Events.OfCover)))
  }

  /** The condition matters: after such a start, once the first session has ended,
      dashboards show no session although one streams. */
  lemma RaceBlanksDashboard(p: Session.Params, peer: string) returns (requests: seq<Sessions.Step>)
    ensures exists c :: Sessions.Streams(Sessions.RunOf(requests), c)
    ensures forall encode: Encoder, decode: Decoder, receiver: ReceiverInfo, channel: seq<Events.Sent>,
                   steps: seq<Step>, s: Server, id: nat ::
              Leads(decode, Start(receiver), steps, s) && s.history == MessagesOf(encode, channel)
              && Events.Carries(channel, Sessions.RunOf(requests).log)
              && id in s.clients && DrainedClient(s, s.clients[id])
              ==> s.clients[id].display.session == None
  {
    requests := Sessions.RaceHidesStream(p, peer);
    var w := Sessions.RunOf(requests);
    assert Sessions.Streams(w, 1);
    forall encode: Encoder, decode: Decoder, receiver: ReceiverInfo, channel: seq<Events.Sent>,
           steps: seq<Step>, s: Server, id: nat |
        Leads(decode, Start(receiver), steps, s) && s.history == MessagesOf(encode, channel)
        && Events.Carries(channel, w.log)
        && id in s.clients && DrainedClient(s, s.clients[id])
      ensures s.clients[id].display.session == None
    {
      DashboardFollowsLog(encode, decode, receiver, channel, w.log, steps, s, id);
    }
  }

  /** Nothing but its messages changes what the server started from. */
  lemma {:induction false} StartStays(decode: Decoder, from: Server, steps: seq<Step>, to: Server)
    requires Leads(decode, from, steps, to)
    ensures to.blank == from.blank
    decreases steps
  {
    if steps != [] {
      StartStays(decode, Next(decode, from, steps[0]), steps[1..], to);
    }
  }
}
