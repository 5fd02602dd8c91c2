/** The dashboard wire messages, the snapshot they fold into, and the display
    that shows them. */
module Protocol {
  import opened Numbers

  datatype ReceiverInfo = ReceiverInfo(name: string, version: string)
  datatype SessionInfo = SessionInfo(rate: nat, channels: nat, peer: string)
  datatype Track = Track(title: Option<string>, artist: Option<string>, album: Option<string>)
  datatype Progress = Progress(elapsedMs: nat, durationMs: nat)
  datatype Artwork = Artwork(contentType: string, dataBase64: string)

  datatype Snapshot = Snapshot(
    receiver: ReceiverInfo,
    session: Option<SessionInfo>,
    track: Option<Track>,
    volumeDb: Option<real>,
    progress: Option<Progress>,
    artwork: Option<Artwork>)

  datatype Message =
    | Whole(snapshot: Snapshot)
    | SessionStarted(session: SessionInfo)
    | Metadata(track: Track)
    | ArtworkSent(artwork: Artwork)
    | Volume(db: real)
    | ProgressSent(progress: Progress)
    | Flushed
    | SessionEnded

  /** A snapshot that knows only its receiver. */
  function Blank(receiver: ReceiverInfo): Snapshot {
    Snapshot(receiver, None, None, None, None, None)
  }

  function Applied(s: Snapshot, m: Message): Snapshot {
    match m
    case Whole(snapshot) => snapshot
    case SessionStarted(session) => s.(session := Some(session))
    case Metadata(track) => s.(track := Some(track))
    case ArtworkSent(artwork) => s.(artwork := if artwork.dataBase64 == "" then None else Some(artwork))
    case Volume(db) => s.(volumeDb := Some(db))
    case ProgressSent(progress) => s.(progress := Some(progress))
    case Flushed => s.(progress := None)
    case SessionEnded => Blank(s.receiver)
  }

  function Fold(s: Snapshot, ms: seq<Message>): Snapshot
    decreases ms
  {
    if ms == [] then s else Fold(Applied(s, ms[0]), ms[1..])
  }

  /** The snapshot the receiver keeps behind its mutex, overwritten in place. */
  class SnapshotCell {
    var receiver: ReceiverInfo
    var session: Option<SessionInfo>
    var track: Option<Track>
    var volumeDb: Option<real>
    var progress: Option<Progress>
    var artwork: Option<Artwork>

    function Value(): Snapshot
      reads this
    {
      Snapshot(receiver, session, track, volumeDb, progress, artwork)
    }

    constructor (receiver: ReceiverInfo)
      ensures Value() == Blank(receiver)
    {
      this.receiver := receiver;
      session, track, volumeDb, progress, artwork := None, None, None, None, None;
    }

    method Apply(m: Message)
      modifies this
      ensures Value() == Applied(old(Value()), m)
    {
      match m {
        case Whole(s) =>
          receiver, session, track := s.receiver, s.session, s.track;
          volumeDb, progress, artwork := s.volumeDb, s.progress, s.artwork;
        case SessionStarted(info) => session := Some(info);
        case Metadata(t) => track := Some(t);
        case ArtworkSent(a) =>
          artwork := None;
          if a.dataBase64 != "" {
            artwork := Some(a);
          }
        case Volume(db) => volumeDb := Some(db);
        case ProgressSent(p) => progress := Some(p);
        case Flushed => progress := None;
        case SessionEnded =>
          session, track, volumeDb, progress, artwork := None, None, None, None, None;
      }
    }
  }

  // ----- Absorption: replaying what a snapshot already contains -----

  predicate Changes(ms: seq<Message>) {
    forall i :: 0 <= i < |ms| ==> !ms[i].Whole?
  }

  datatype Field = Session | CurrentTrack | VolumeDb | Position | Cover

  predicate Writes(m: Message, f: Field) {
    match f
    case Session => m.SessionStarted? || m.SessionEnded?
    case CurrentTrack => m.Metadata? || m.SessionEnded?
    case VolumeDb => m.Volume? || m.SessionEnded?
    case Position => m.ProgressSent? || m.Flushed? || m.SessionEnded?
    case Cover => m.ArtworkSent? || m.SessionEnded?
  }

  predicate SameField(s: Snapshot, t: Snapshot, f: Field) {
    match f
    case Session => s.session == t.session
    case CurrentTrack => s.track == t.track
    case VolumeDb => s.volumeDb == t.volumeDb
    case Position => s.progress == t.progress
    case Cover => s.artwork == t.artwork
  }

  predicate Written(ms: seq<Message>, f: Field) {
    exists i :: 0 <= i < |ms| && Writes(ms[i], f)
  }

  lemma {:induction false} FoldConcat(s: Snapshot, xs: seq<Message>, ys: seq<Message>)
    ensures Fold(s, xs + ys) == Fold(Fold(s, xs), ys)
    decreases xs
  {
    if xs == [] {
      assert xs + ys == ys;
    } else {
      assert (xs + ys)[1..] == xs[1..] + ys;
      FoldConcat(Applied(s, xs[0]), xs[1..], ys);
    }
  }

  /** Changes set the fields they write to values of their own and leave the
      others alone. */
  lemma {:induction false} WrittenAgree(s: Snapshot, t: Snapshot, ms: seq<Message>, f: Field)
    requires Changes(ms)
    ensures Fold(s, ms).receiver == s.receiver
    ensures Written(ms, f) || SameField(s, t, f) ==> SameField(Fold(s, ms), Fold(t, ms), f)
    ensures !Written(ms, f) ==> SameField(Fold(s, ms), s, f)
    decreases ms
  {
    if ms != [] {
      WrittenAgree(Applied(s, ms[0]), Applied(t, ms[0]), ms[1..], f);
      WrittenAgree(Applied(t, ms[0]), Applied(s, ms[0]), ms[1..], f);
      assert Written(ms, f) <==> Writes(ms[0], f) || Written(ms[1..], f) by {
        if Written(ms, f) && !Writes(ms[0], f) {
          var i :| 0 <= i < |ms| && Writes(ms[i], f);
          assert ms[1..][i - 1] == ms[i];
        }
        if Written(ms[1..], f) {
          var i :| 0 <= i < |ms[1..]| && Writes(ms[1..][i], f);
          assert ms[i + 1] == ms[1..][i];
        }
      }
    }
  }

  /** Applying changes twice is applying them once. */
  lemma FoldIdempotent(s: Snapshot, ms: seq<Message>)
    requires Changes(ms)
    ensures Fold(Fold(s, ms), ms) == Fold(s, ms)
  {
    var t := Fold(s, ms);
    forall f: Field ensures SameField(Fold(t, ms), t, f) && Fold(t, ms).receiver == t.receiver {
      WrittenAgree(t, s, ms, f);
      WrittenAgree(s, t, ms, f);
    }
    var u := Fold(t, ms);
    assert SameField(u, t, Session) && SameField(u, t, CurrentTrack) && SameField(u, t, VolumeDb)
        && SameField(u, t, Position) && SameField(u, t, Cover);
  }

  /** Replaying any suffix of a history on the snapshot of the whole history
      changes nothing. */
  lemma SuffixAbsorbed(s: Snapshot, history: seq<Message>, k: nat)
    requires Changes(history) && k <= |history|
    ensures Fold(Fold(s, history), history[k..]) == Fold(s, history)
  {
    assert history[..k] + history[k..] == history;
    FoldConcat(s, history[..k], history[k..]);
    FoldIdempotent(Fold(s, history[..k]), history[k..]);
  }

  // ----- The display -----

  type Bytes = seq<byte>

  datatype Picture = Picture(contentType: string, data: Bytes)

  datatype Connection = Connecting | Connected | Disconnected

  datatype Display = Display(
    connection: Connection,
    name: string,
    session: Option<SessionInfo>,
    title: Option<string>,
    artist: Option<string>,
    album: Option<string>,
    volumeDb: Option<real>,
    progress: Option<Progress>,
    artwork: Option<Picture>)

  /** Base64 decoding is a library call: any partial function will do. */
  type Decoder = string -> Option<Bytes>

  function DecodeArtwork(decode: Decoder, a: Artwork): Option<Picture> {
    if a.dataBase64 == "" then None
    else match decode(a.dataBase64)
      case Some(data) => Some(Picture(a.contentType, data))
      case None => None
  }

  function TrackOr(track: Option<Track>): Track {
    if track.Some? then track.value else Track(None, None, None)
  }

  function ShownArtwork(decode: Decoder, artwork: Option<Artwork>): Option<Picture> {
    if artwork.Some? then DecodeArtwork(decode, artwork.value) else None
  }

  function Show(decode: Decoder, d: Display, m: Message): Display {
    match m
    case Whole(s) =>
      var track := TrackOr(s.track);
      Display(d.connection, s.receiver.name, s.session, track.title, track.artist, track.album,
              s.volumeDb, s.progress, ShownArtwork(decode, s.artwork))
    case SessionStarted(session) => d.(session := Some(session))
    case Metadata(track) => d.(title := track.title, artist := track.artist, album := track.album)
    case ArtworkSent(artwork) => d.(artwork := DecodeArtwork(decode, artwork))
    case Volume(db) => d.(volumeDb := Some(db))
    case ProgressSent(progress) => d.(progress := Some(progress))
    case Flushed => d
    case SessionEnded =>
      d.(session := None, title := None, artist := None, album := None, progress := None, artwork := None)
  }

  function ShowAll(decode: Decoder, d: Display, ms: seq<Message>): Display
    decreases ms
  {
    if ms == [] then d else ShowAll(decode, Show(decode, d, ms[0]), ms[1..])
  }

  datatype Update = LinkUp | LinkDown | Received(message: Message)

  function Updated(decode: Decoder, d: Display, update: Update): Display {
    match update
    case LinkUp => d.(connection := Connected)
    case LinkDown => d.(connection := Disconnected)
    case Received(m) => Show(decode, d, m)
  }

  function UpdateAll(decode: Decoder, d: Display, updates: seq<Update>): Display {
    if updates == [] then d
    else Updated(decode, UpdateAll(decode, d, updates[..|updates| - 1]), updates[|updates| - 1])
  }

  function LastLink(updates: seq<Update>, first: Connection): Connection {
    if updates == [] then first
    else match updates[|updates| - 1]
      case LinkUp => Connected
      case LinkDown => Disconnected
      case Received(_) => LastLink(updates[..|updates| - 1], first)
  }

  function MessagesIn(updates: seq<Update>): seq<Message> {
    if updates == [] then []
    else
      var u := updates[|updates| - 1];
      MessagesIn(updates[..|updates| - 1]) + if u.Received? then [u.message] else []
  }

  /** Links and messages do not mix: the connection shown is the last link's, and
      everything else what the messages alone would show. */
  lemma {:induction false} LinksAndMessages(decode: Decoder, d: Display, updates: seq<Update>)
    ensures UpdateAll(decode, d, updates)
         == ShowAll(decode, d, MessagesIn(updates)).(connection := LastLink(updates, d.connection))
  {
    if updates != [] {
      var init, u := updates[..|updates| - 1], updates[|updates| - 1];
      LinksAndMessages(decode, d, init);
      if u.Received? {
        ShowAllNext(decode, d, MessagesIn(init), u.message);
        ShowIgnoresLink(decode, ShowAll(decode, d, MessagesIn(init)), u.message, LastLink(init, d.connection));
      } else {
        assert MessagesIn(init) + [] == MessagesIn(init);
      }
    }
  }

  lemma ShowIgnoresLink(decode: Decoder, d: Display, m: Message, link: Connection)
    ensures Show(decode, d.(connection := link), m) == Show(decode, d, m).(connection := link)
  {
  }

  class NowPlaying {
    var connection: Connection
    var name: string
    var session: Option<SessionInfo>
    var title: Option<string>
    var artist: Option<string>
    var album: Option<string>
    var volumeDb: Option<real>
    var progress: Option<Progress>
    var artwork: Option<Picture>

    function Value(): Display
      reads this
    {
      Display(connection, name, session, title, artist, album, volumeDb, progress, artwork)
    }

    constructor ()
      ensures Value() == Display(Connecting, "", None, None, None, None, None, None, None)
    {
      connection, name, session := Connecting, "", None;
      title, artist, album := None, None, None;
      volumeDb, progress, artwork := None, None, None;
    }

    method Apply(decode: Decoder, update: Update)
      modifies this
      ensures Value() == Updated(decode, old(Value()), update)
    {
      match update {
        case LinkUp => connection := Connected;
        case LinkDown => connection := Disconnected;
        case Received(m) => ApplyMessage(decode, m);
      }
    }

    method ApplyMessage(decode: Decoder, m: Message)
      modifies this
      ensures Value() == Show(decode, old(Value()), m)
    {
      match m {
        case Whole(s) => ApplySnapshot(decode, s);
        case SessionStarted(info) => session := Some(info);
        case Metadata(t) => title, artist, album := t.title, t.artist, t.album;
        case ArtworkSent(a) => artwork := DecodeArtwork(decode, a);
        case Volume(db) => volumeDb := Some(db);
        case ProgressSent(p) => progress := Some(p);
        case Flushed =>
        case SessionEnded =>
          session, title, artist, album, progress, artwork := None, None, None, None, None, None;
      }
    }

    method ApplySnapshot(decode: Decoder, s: Snapshot)
      modifies this
      ensures Value() == Show(decode, old(Value()), Whole(s))
    {
      name := s.receiver.name;
      session := s.session;
      var track := TrackOr(s.track);
      title, artist, album := track.title, track.artist, track.album;
      volumeDb := s.volumeDb;
      progress := s.progress;
      artwork := ShownArtwork(decode, s.artwork);
    }
  }

  /** The display shows what the snapshot knows: the same name, session, track
      and artwork, and the same volume and position whenever these are known. */
  ghost predicate Shows(decode: Decoder, d: Display, s: Snapshot) {
    && d.name == s.receiver.name
    && d.session == s.session
    && Track(d.title, d.artist, d.album) == TrackOr(s.track)
    && d.artwork == ShownArtwork(decode, s.artwork)
    && (s.volumeDb.Some? ==> d.volumeDb == s.volumeDb)
    && (s.progress.Some? ==> d.progress == s.progress)
  }

  /** Every message keeps the simulation; a snapshot establishes it. */
  lemma ShowsStep(decode: Decoder, d: Display, s: Snapshot, m: Message)
    requires Shows(decode, d, s) || m.Whole?
    ensures Shows(decode, Show(decode, d, m), Applied(s, m))
  {
  }

  lemma {:induction false} ShowsRun(decode: Decoder, d: Display, s: Snapshot, ms: seq<Message>)
    requires Shows(decode, d, s) || (ms != [] && ms[0].Whole?)
    ensures Shows(decode, ShowAll(decode, d, ms), Fold(s, ms))
    decreases ms
  {
    if ms != [] {
      ShowsStep(decode, d, s, ms[0]);
      ShowsRun(decode, Show(decode, d, ms[0]), Applied(s, ms[0]), ms[1..]);
    }
  }

  // ----- When display and snapshot differ -----

  /** The two fields a display keeps longer than the server. */
  datatype Kept = KeptPosition | KeptVolume

  /** Messages that decide such a field for both of them. */
  predicate Decides(m: Message, k: Kept) {
    match k
    case KeptPosition => m.Whole? || m.ProgressSent? || m.SessionEnded?
    case KeptVolume => m.Whole? || m.Volume?
  }

  /** Of these, the ones that leave it known. */
  predicate Gives(m: Message, k: Kept) {
    match k
    case KeptPosition => m.ProgressSent? || (m.Whole? && m.snapshot.progress.Some?)
    case KeptVolume => m.Volume? || (m.Whole? && m.snapshot.volumeDb.Some?)
  }

  /** Messages on which the server forgets it and the display does not. */
  predicate Forgets(m: Message, k: Kept) {
    match k
    case KeptPosition => m.Flushed?
    case KeptVolume => m.SessionEnded?
  }

  /** Nothing from `i` on decides the field. */
  ghost predicate Undecided(ms: seq<Message>, i: nat, k: Kept) {
    forall j :: i <= j < |ms| ==> !Decides(ms[j], k)
  }

  /** The last message to decide the field gives it; `first` says whether it was
      known before any did. */
  ghost predicate LastGives(ms: seq<Message>, k: Kept, first: bool) {
    || (first && Undecided(ms, 0, k))
    || exists r :: 0 <= r < |ms| && Gives(ms[r], k) && Undecided(ms, r + 1, k)
  }

  /** The server was told to forget a field that was known, and nothing has decided
      it since. */
  ghost predicate Lingers(ms: seq<Message>, k: Kept, first: bool) {
    exists f :: 0 <= f < |ms| && Forgets(ms[f], k) && Undecided(ms, f + 1, k) && LastGives(ms[..f], k, first)
  }

  lemma UndecidedNext(ms: seq<Message>, m: Message, i: nat, k: Kept)
    requires i <= |ms|
    ensures Undecided(ms + [m], i, k) <==> Undecided(ms, i, k) && !Decides(m, k)
  {
    assert (ms + [m])[|ms|] == m;
    forall j | i <= j < |ms| ensures (ms + [m])[j] == ms[j] {
    }
    if Undecided(ms + [m], i, k) {
      forall j | i <= j < |ms| ensures !Decides(ms[j], k) {
        assert !Decides((ms + [m])[j], k);
      }
    }
  }

  lemma LastGivesNext(ms: seq<Message>, m: Message, k: Kept, first: bool)
    ensures LastGives(ms + [m], k, first) <==> if Decides(m, k) then Gives(m, k) else LastGives(ms, k, first)
  {
    hide Undecided, Gives;
    var all := ms + [m];
    assert all[|ms|] == m;
    assert Undecided(all, |ms| + 1, k) by { NoneLeft(all, k); }
    UndecidedNext(ms, m, 0, k);
    assert Gives(m, k) ==> Decides(m, k) by { GivesDecides(m, k); }
    forall r | 0 <= r < |ms|
      ensures all[r] == ms[r] && (Undecided(all, r + 1, k) <==> Undecided(ms, r + 1, k) && !Decides(m, k))
    {
      UndecidedNext(ms, m, r + 1, k);
    }
    if r :| 0 <= r < |ms| && Gives(ms[r], k) && Undecided(ms, r + 1, k) {
      assert Gives(all[r], k);
    }
    if r :| 0 <= r < |all| && Gives(all[r], k) && Undecided(all, r + 1, k) {
      if r < |ms| {
        assert Gives(ms[r], k);
      }
    }
  }

  lemma NoneLeft(ms: seq<Message>, k: Kept)
    ensures Undecided(ms, |ms|, k)
  {
  }

  lemma GivesDecides(m: Message, k: Kept)
    ensures Gives(m, k) ==> Decides(m, k)
    ensures Decides(m, k) ==> !Forgets(m, k)
  {
  }

  lemma LingersNext(ms: seq<Message>, m: Message, k: Kept, first: bool)
    ensures Lingers(ms + [m], k, first)
        <==> (!Decides(m, k) && (Lingers(ms, k, first) || (Forgets(m, k) && LastGives(ms, k, first))))
  {
    hide Undecided, LastGives, Decides, Forgets;
    var all := ms + [m];
    assert all[|ms|] == m && all[..|ms|] == ms;
    NoneLeft(all, k);
    GivesDecides(m, k);
    forall f | 0 <= f < |ms|
      ensures all[f] == ms[f] && all[..f] == ms[..f]
      ensures Undecided(all, f + 1, k) <==> Undecided(ms, f + 1, k) && !Decides(m, k)
    {
      UndecidedNext(ms, m, f + 1, k);
    }
    if f :| 0 <= f < |ms| && Forgets(ms[f], k) && Undecided(ms, f + 1, k) && LastGives(ms[..f], k, first) {
      assert !Decides(m, k) ==> Forgets(all[f], k) && Undecided(all, f + 1, k) && LastGives(all[..f], k, first);
    }
    if Forgets(m, k) && LastGives(ms, k, first) {
      assert Forgets(all[|ms|], k) && LastGives(all[..|ms|], k, first);
    }
    if f :| 0 <= f < |all| && Forgets(all[f], k) && Undecided(all, f + 1, k) && LastGives(all[..f], k, first) {
      if f < |ms| {
        assert Forgets(ms[f], k) && Undecided(ms, f + 1, k) && LastGives(ms[..f], k, first);
      }
    }
  }

  /** Display and snapshot agree on the field. */
  predicate Same(d: Display, s: Snapshot, k: Kept) {
    match k
    case KeptPosition => d.progress == s.progress
    case KeptVolume => d.volumeDb == s.volumeDb
  }

  predicate Shown(d: Display, k: Kept) {
    match k
    case KeptPosition => d.progress.Some?
    case KeptVolume => d.volumeDb.Some?
  }

  predicate Known(s: Snapshot, k: Kept) {
    match k
    case KeptPosition => s.progress.Some?
    case KeptVolume => s.volumeDb.Some?
  }

  /** One message's effect on a kept field. */
  lemma KeptStep(decode: Decoder, d: Display, s: Snapshot, m: Message, k: Kept)
    requires Known(s, k) ==> Same(d, s, k)
    ensures var d', s' := Show(decode, d, m), Applied(s, m);
            && (Known(s', k) ==> Same(d', s', k))
            && (Shown(d', k) <==> if Decides(m, k) then Gives(m, k) else Shown(d, k))
            && (Same(d', s', k) <==> Decides(m, k) || if Forgets(m, k) then !Shown(d, k) else Same(d, s, k))
  {
  }

  lemma {:induction false} ShowAllNext(decode: Decoder, d: Display, ms: seq<Message>, m: Message)
    ensures ShowAll(decode, d, ms + [m]) == Show(decode, ShowAll(decode, d, ms), m)
    decreases ms
  {
    if ms == [] {
      assert [m][1..] == [];
      assert ms + [m] == [m];
    } else {
      assert (ms + [m])[1..] == ms[1..] + [m];
      ShowAllNext(decode, Show(decode, d, ms[0]), ms[1..], m);
    }
  }

  lemma FoldNext(s: Snapshot, ms: seq<Message>, m: Message)
    ensures Fold(s, ms + [m]) == Applied(Fold(s, ms), m)
  {
    FoldConcat(s, ms, [m]);
    var t := Fold(s, ms);
    assert Fold(t, [m]) == Fold(Applied(t, m), [m][1..]);
    assert [m][1..] == [];
  }

  /** After any messages, on top of agreement: the display shows a field exactly if
      the last message to decide it gave it, and it differs from the server's
      exactly if the server was told to forget it then and nothing has decided it
      since. */
  lemma {:induction false} DiffersIffLingers(decode: Decoder, d: Display, s: Snapshot, ms: seq<Message>, k: Kept)
    requires Same(d, s, k)
    ensures var d', s' := ShowAll(decode, d, ms), Fold(s, ms);
            && (Known(s', k) ==> Same(d', s', k))
            && (Shown(d', k) <==> LastGives(ms, k, Shown(d, k)))
            && (!Same(d', s', k) <==> Lingers(ms, k, Shown(d, k)))
  {
    if ms == [] {
      NoneLeft([], k);
    } else {
      hide Lingers, LastGives, Shown, Known, Same, Decides, Gives, Forgets;
      var init, m := ms[..|ms| - 1], ms[|ms| - 1];
      assert ms == init + [m];
      DiffersIffLingers(decode, d, s, init, k);
      ShowAllNext(decode, d, init, m);
      FoldNext(s, init, m);
      KeptStep(decode, ShowAll(decode, d, init), Fold(s, init), m, k);
      LastGivesNext(init, m, k, Shown(d, k));
      LingersNext(init, m, k, Shown(d, k));
      GivesDecides(m, k);
      LingersShows(init, k, Shown(d, k));
    }
  }

  /** What lingers was given and is still shown. */
  lemma {:induction false} LingersShows(ms: seq<Message>, k: Kept, first: bool)
    ensures Lingers(ms, k, first) ==> LastGives(ms, k, first)
  {
    if ms != [] {
      hide Lingers, LastGives, Decides, Gives, Forgets;
      var init, m := ms[..|ms| - 1], ms[|ms| - 1];
      assert ms == init + [m];
      LingersShows(init, k, first);
      LastGivesNext(init, m, k, first);
      LingersNext(init, m, k, first);
    }
  }
}
