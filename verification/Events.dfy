/** Session events as the host receives them, in order, each with the session
    that sent it. Durations are whole milliseconds. */
module Events {
  import opened Numbers

  datatype Event =
    | SessionStarted(rate: u32, channels: nat, peer: string)
    | Volume(db: real)
    | Metadata(title: Option<string>, artist: Option<string>, album: Option<string>)
    | Artwork(contentType: string, data: seq<byte>)
    | Progress(elapsedMs: nat, durationMs: nat)
    | Flushed
    | SessionEnded

  datatype Sent = Sent(id: int, event: Event)

  /** The session whose streaming interval is open at the end of a log. */
  function Owner(log: seq<Sent>): Option<int> {
    if log == [] then None
    else
      var last := log[|log| - 1];
      if last.event.SessionStarted? then Some(last.id)
      else if last.event.SessionEnded? then None
      else Owner(log[..|log| - 1])
  }

  /** An event may follow: nobody starts while another session's interval is
      open, and only the session whose interval is open ends it or describes
      what it plays. */
  predicate MayFollow(owner: Option<int>, e: Sent) {
    match e.event
    case SessionStarted(_, _, _) => owner == None || owner == Some(e.id)
    case SessionEnded => owner == Some(e.id)
    case Metadata(_, _, _) => owner == Some(e.id)
    case Artwork(_, _) => owner == Some(e.id)
    case Progress(_, _) => owner == Some(e.id)
    case Volume(_) => true
    case Flushed => true
  }

  predicate Bracketed(log: seq<Sent>) {
    log == [] || (Bracketed(log[..|log| - 1]) && MayFollow(Owner(log[..|log| - 1]), log[|log| - 1]))
  }

  lemma Extend(log: seq<Sent>, e: Sent)
    ensures Bracketed(log + [e]) <==> Bracketed(log) && MayFollow(Owner(log), e)
    ensures Owner(log + [e]) == if e.event.SessionStarted? then Some(e.id)
                                else if e.event.SessionEnded? then None
                                else Owner(log)
  {
    assert (log + [e])[..|log|] == log;
  }

  lemma {:induction false} BracketedPrefix(log: seq<Sent>, more: seq<Sent>)
    requires Bracketed(log + more)
    ensures Bracketed(log)
  {
    if more == [] {
      assert log + more == log;
    } else {
      assert (log + more)[..|log + more| - 1] == log + more[..|more| - 1];
      BracketedPrefix(log, more[..|more| - 1]);
    }
  }

  function SentBy(id: int, events: seq<Event>): seq<Sent> {
    seq(|events|, i requires 0 <= i < |events| => Sent(id, events[i]))
  }

  /** Events that neither open nor close an interval. */
  predicate Inside(events: seq<Event>) {
    forall i :: 0 <= i < |events| ==> !events[i].SessionStarted? && !events[i].SessionEnded?
  }

  predicate Unbound(events: seq<Event>) {
    forall i :: 0 <= i < |events| ==> events[i].Volume? || events[i].Flushed?
  }

  /** Such events from the open session, or unbound ones from any, fit in. */
  lemma {:induction false} ExtendInside(log: seq<Sent>, id: int, events: seq<Event>)
    requires Bracketed(log) && Inside(events) && (Owner(log) == Some(id) || Unbound(events))
    ensures Bracketed(log + SentBy(id, events)) && Owner(log + SentBy(id, events)) == Owner(log)
  {
    if events == [] {
      assert log + SentBy(id, events) == log;
    } else {
      var init, e := events[..|events| - 1], events[|events| - 1];
      ExtendInside(log, id, init);
      assert log + SentBy(id, events) == (log + SentBy(id, init)) + [Sent(id, e)];
      Extend(log + SentBy(id, init), Sent(id, e));
    }
  }

  // ----- What a log states -----

  /** The two kinds of description a session gives of what it plays. */
  datatype Kind = OfTrack | OfCover

  predicate IsOf(e: Event, k: Kind) {
    match k
    case OfTrack => e.Metadata?
    case OfCover => e.Artwork?
  }

  /** The last description of a kind since the previous session ended, with who sent
      it. */
  function OpenStated(log: seq<Sent>, k: Kind): Option<Sent> {
    if log == [] then None
    else
      var last := log[|log| - 1];
      if IsOf(last.event, k) then Some(last)
      else if last.event.SessionEnded? then None
      else OpenStated(log[..|log| - 1], k)
  }

  /** The last start since the previous session ended. */
  function OpenStart(log: seq<Sent>): Option<Sent> {
    if log == [] then None
    else
      var last := log[|log| - 1];
      if last.event.SessionStarted? then Some(last)
      else if last.event.SessionEnded? then None
      else OpenStart(log[..|log| - 1])
  }

  /** The volume last set since the previous session ended. */
  function OpenVolume(log: seq<Sent>): Option<real> {
    if log == [] then None
    else
      var e := log[|log| - 1].event;
      if e.Volume? then Some(e.db)
      else if e.SessionEnded? then None
      else OpenVolume(log[..|log| - 1])
  }

  /** The position last reported since a flush or a session's end. */
  function OpenProgress(log: seq<Sent>): Option<Event> {
    if log == [] then None
    else
      var e := log[|log| - 1].event;
      if e.Progress? then Some(e)
      else if e.Flushed? || e.SessionEnded? then None
      else OpenProgress(log[..|log| - 1])
  }

  predicate IsStated(log: seq<Sent>, sent: Sent) {
    OpenStart(log) == Some(sent) || OpenStated(log, OfTrack) == Some(sent) || OpenStated(log, OfCover) == Some(sent)
  }

  /** In a bracketed log what is stated was sent by the session whose interval is
      open. */
  lemma {:induction false} StatedByOwner(log: seq<Sent>)
    requires Bracketed(log)
    ensures OpenStart(log).Some? <==> Owner(log).Some?
    ensures OpenStart(log).Some? ==> OpenStart(log).value.event.SessionStarted?
    ensures forall sent :: IsStated(log, sent) ==> Owner(log) == Some(sent.id)
  {
    if log != [] {
      StatedByOwner(log[..|log| - 1]);
    }
  }

  lemma StatedNext(log: seq<Sent>, e: Sent, k: Kind)
    ensures OpenStated(log + [e], k)
         == if IsOf(e.event, k) then Some(e) else if e.event.SessionEnded? then None else OpenStated(log, k)
  {
    assert (log + [e])[..|log|] == log;
  }

  /** Events that describe nothing of a kind and end nothing leave it as stated. */
  lemma {:induction false} StatedStays(log: seq<Sent>, id: int, events: seq<Event>, k: Kind)
    requires forall i :: 0 <= i < |events| ==> !IsOf(events[i], k) && !events[i].SessionEnded?
    ensures OpenStated(log + SentBy(id, events), k) == OpenStated(log, k)
  {
    if events == [] {
      assert log + SentBy(id, events) == log;
    } else {
      var init, e := events[..|events| - 1], events[|events| - 1];
      StatedStays(log, id, init, k);
      assert log + SentBy(id, events) == (log + SentBy(id, init)) + [Sent(id, e)];
      StatedNext(log + SentBy(id, init), Sent(id, e), k);
    }
  }

  // ----- The host's channel -----

  /** The channel carries a log's events in order, and position reports of the
      playback threads anywhere in between. */
  predicate Carries(channel: seq<Sent>, log: seq<Sent>)
    decreases channel
  {
    if channel == [] then log == []
    else
      var init, last := channel[..|channel| - 1], channel[|channel| - 1];
      || (last.event.Progress? && Carries(init, log))
      || (log != [] && last == log[|log| - 1] && Carries(init, log[..|log| - 1]))
  }

  /** They state the same but for the position. */
  lemma {:induction false} CarriesSame(channel: seq<Sent>, log: seq<Sent>)
    requires Carries(channel, log)
    ensures Owner(channel) == Owner(log) && OpenStart(channel) == OpenStart(log)
    ensures OpenVolume(channel) == OpenVolume(log)
    ensures forall k :: OpenStated(channel, k) == OpenStated(log, k)
    decreases channel
  {
    if channel != [] {
      var init, last := channel[..|channel| - 1], channel[|channel| - 1];
      if last.event.Progress? && Carries(init, log) {
        CarriesSame(init, log);
      } else {
        CarriesSame(init, log[..|log| - 1]);
      }
    }
  }
}
