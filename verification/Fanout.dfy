/** The dashboard fan-out as a protocol: one publisher that applies and then
    sends, a bounded channel that drops its oldest messages, and clients that
    subscribe before they ask for a snapshot and are resynced when they lag. */
module Fanout {
  import opened Numbers
  import opened Protocol

  const CHANNEL_CAPACITY: nat := 64

  /** Where a client's server task is: before its first snapshot, forwarding,
      or told by the channel that it fell behind and not yet resynced. */
  datatype Phase = Subscribed | Forwarding | Lagged

  /** The latest snapshot put on a client's socket: how many messages it contains,
      and which one the channel hands over next after it. */
  datatype Sync = Sync(contains: nat, from: nat)

  /** `next` is the first message its channel receiver has not handed over and
      `inflight` is what is on the socket. `copy` is a client that keeps a
      snapshot; `display` is one that keeps what the screen shows. */
  datatype Client = Client(
    phase: Phase,
    next: nat,
    inflight: seq<Message>,
    synced: bool,
    copy: Snapshot,
    display: Display,
    latest: Sync)

  /** Messages applied so far, how many of them are sent, and the clients. */
  datatype Server = Server(blank: Snapshot, history: seq<Message>, sent: nat, clients: map<nat, Client>)

  datatype Step =
    | Publish(message: Message)
    | Send
    | Subscribe(id: nat, copy: Snapshot, display: Display)
    | SendSnapshot(id: nat)
    | Forward(id: nat)
    | FallBehind(id: nat)
    | Resync(id: nat)
    | Deliver(id: nat)
    | Disconnect(id: nat)

  function Current(s: Server): Snapshot {
    Fold(s.blank, s.history)
  }

  /** The oldest message the channel still holds. */
  function Oldest(s: Server): nat {
    if s.sent > CHANNEL_CAPACITY then s.sent - CHANNEL_CAPACITY else 0
  }

  predicate ClientCan(s: Server, c: Client, step: Step) {
    match step
    case SendSnapshot(_) => c.phase.Subscribed?
    case Forward(_) => c.phase.Forwarding? && Oldest(s) <= c.next < s.sent
    case FallBehind(_) => c.phase.Forwarding? && c.next < Oldest(s)
    case Resync(_) => c.phase.Lagged?
    case Deliver(_) => c.inflight != []
    case _ => false
  }

  predicate Enabled(s: Server, step: Step) {
    match step
    // one event task publishes: it sends each message before applying the next
    case Publish(message) => s.sent == |s.history| && !message.Whole?
    case Send => s.sent < |s.history|
    case Subscribe(id, _, _) => id !in s.clients
    case Disconnect(id) => id in s.clients
    case _ => step.id in s.clients && ClientCan(s, s.clients[step.id], step)
  }

  function WithSnapshot(s: Server, c: Client): Client {
    c.(phase := Forwarding, inflight := c.inflight + [Whole(Current(s))], latest := Sync(|s.history|, c.next))
  }

  /** What a client's own step does to it. */
  function ClientNext(decode: Decoder, s: Server, c: Client, step: Step): Client
    requires s.sent <= |s.history| && ClientCan(s, c, step)
  {
    match step
    case SendSnapshot(_) => WithSnapshot(s, c)
    case Forward(_) => c.(next := c.next + 1, inflight := c.inflight + [s.history[c.next]])
    case FallBehind(_) => c.(phase := Lagged, next := Oldest(s))
    case Resync(_) => WithSnapshot(s, c)
    case Deliver(_) =>
      var m := c.inflight[0];
      c.(inflight := c.inflight[1..], synced := c.synced || m.Whole?,
         copy := Applied(c.copy, m), display := Show(decode, c.display, m))
  }

  function Next(decode: Decoder, s: Server, step: Step): Server
    requires s.sent <= |s.history| && Enabled(s, step)
  {
    match step
    case Publish(message) => s.(history := s.history + [message])
    case Send => s.(sent := s.sent + 1)
    case Subscribe(id, copy, display) =>
      s.(clients := s.clients[id := Client(Subscribed, s.sent, [], false, copy, display, Sync(0, 0))])
    case Disconnect(id) => s.(clients := s.clients - {id})
    case _ => s.(clients := s.clients[step.id := ClientNext(decode, s, s.clients[step.id], step)])
  }

  // ----- The invariant -----

  /** What is on its way to a client: the socket, then what the channel has yet
      to hand over, dropped or not. */
  function Pending(s: Server, c: Client): seq<Message>
    requires c.next <= |s.history|
  {
    c.inflight + s.history[c.next..]
  }

  ghost predicate ClientOk(decode: Decoder, s: Server, c: Client) {
    && c.next <= s.sent <= |s.history|
    && (c.phase.Subscribed? ==> c.inflight == [] && !c.synced)
    && (!c.phase.Subscribed? ==> c.synced || (c.inflight != [] && c.inflight[0].Whole?))
    && (c.synced ==> Shows(decode, c.display, c.copy))
    && (c.phase.Forwarding? ==> Fold(c.copy, Pending(s, c)) == Current(s))
  }

  ghost predicate Inv(decode: Decoder, s: Server) {
    && Changes(s.history)
    && s.sent <= |s.history| <= s.sent + 1
    && forall id :: id in s.clients ==> ClientOk(decode, s, s.clients[id])
  }

  function Start(receiver: ReceiverInfo): Server {
    Server(Blank(receiver), [], 0, map[])
  }

  lemma PublishKeeps(decode: Decoder, s: Server, m: Message, c: Client)
    requires Inv(decode, s) && Enabled(s, Publish(m)) && ClientOk(decode, s, c)
    ensures ClientOk(decode, Next(decode, s, Publish(m)), c)
  {
    var s' := Next(decode, s, Publish(m));
    assert s'.history[c.next..] == s.history[c.next..] + [m];
    assert Pending(s', c) == Pending(s, c) + [m];
    FoldConcat(c.copy, Pending(s, c), [m]);
    FoldConcat(s.blank, s.history, [m]);
  }

  /** A snapshot put on the socket covers everything the channel still owes. */
  lemma SnapshotCovers(s: Server, c: Client)
    requires Changes(s.history) && c.next <= |s.history|
    ensures Fold(c.copy, c.inflight + [Whole(Current(s))] + s.history[c.next..]) == Current(s)
  {
    var whole := [Whole(Current(s))];
    FoldConcat(c.copy, c.inflight + whole, s.history[c.next..]);
    FoldConcat(c.copy, c.inflight, whole);
    SuffixAbsorbed(s.blank, s.history, c.next);
  }

  lemma ClientStepKeeps(decode: Decoder, s: Server, c: Client, step: Step)
    requires Inv(decode, s) && ClientOk(decode, s, c) && ClientCan(s, c, step)
    ensures ClientOk(decode, s, ClientNext(decode, s, c, step))
  {
    var c' := ClientNext(decode, s, c, step);
    match step {
      case SendSnapshot(_) => SnapshotCovers(s, c);
      case Resync(_) => SnapshotCovers(s, c);
      case Forward(_) =>
        assert s.history[c.next..] == [s.history[c.next]] + s.history[c.next + 1..];
        assert Pending(s, c') == Pending(s, c);
      case FallBehind(_) =>
      case Deliver(_) =>
        ShowsStep(decode, c.display, c.copy, c.inflight[0]);
        assert Pending(s, c) == [c.inflight[0]] + Pending(s, c');
        assert Pending(s, c)[1..] == Pending(s, c');
    }
  }

  lemma ClientIgnores(decode: Decoder, s: Server, s': Server, c: Client)
    requires ClientOk(decode, s, c)
    requires s'.history == s.history && s'.blank == s.blank && s.sent <= s'.sent <= |s.history|
    ensures ClientOk(decode, s', c)
  {
  }

  lemma StepKeeps(decode: Decoder, s: Server, step: Step)
    requires Inv(decode, s) && Enabled(s, step)
    ensures Inv(decode, Next(decode, s, step))
  {
    var s' := Next(decode, s, step);
    forall id | id in s'.clients ensures ClientOk(decode, s', s'.clients[id]) {
      hide ClientOk;
      if step.Publish? {
        PublishKeeps(decode, s, step.message, s.clients[id]);
      } else if id in s.clients && s'.clients[id] == s.clients[id] {
        ClientIgnores(decode, s, s', s.clients[id]);
      } else if step.Subscribe? {
        FreshClient(decode, s', s'.clients[id]);
      } else {
        ClientStepKeeps(decode, s, s.clients[id], step);
        ClientIgnores(decode, s, s', s'.clients[id]);
      }
    }
  }

  lemma FreshClient(decode: Decoder, s: Server, c: Client)
    requires c.phase.Subscribed? && c.next == s.sent <= |s.history| && c.inflight == [] && !c.synced
    ensures ClientOk(decode, s, c)
  {
  }

  // ----- Runs -----

  /** `s` is what a run of enabled steps leads to. */
  ghost predicate Leads(decode: Decoder, from: Server, steps: seq<Step>, to: Server)
    decreases steps
  {
    if steps == [] then from == to
    else
      && from.sent <= |from.history| && Enabled(from, steps[0])
      && Leads(decode, Next(decode, from, steps[0]), steps[1..], to)
  }

  lemma {:induction false} RunKeeps(decode: Decoder, from: Server, steps: seq<Step>, to: Server)
    requires Inv(decode, from) && Leads(decode, from, steps, to)
    ensures Inv(decode, to)
    decreases steps
  {
    if steps != [] {
      StepKeeps(decode, from, steps[0]);
      RunKeeps(decode, Next(decode, from, steps[0]), steps[1..], to);
    }
  }

  /** In every run, however publishing, subscribing, forwarding, overflow,
      resync and delivery interleave: a client that has been sent its snapshot
      and has no unresolved lag ends up, once what is on its way has arrived,
      with exactly the server's snapshot, and its display shows that. */
  lemma Convergence(decode: Decoder, receiver: ReceiverInfo, steps: seq<Step>, s: Server, id: nat)
    requires Leads(decode, Start(receiver), steps, s)
    requires id in s.clients && s.clients[id].phase.Forwarding?
    ensures var c := s.clients[id];
            && c.next <= |s.history|
            && Fold(c.copy, Pending(s, c)) == Current(s)
            && Shows(decode, ShowAll(decode, c.display, Pending(s, c)), Current(s))
  {
    RunKeeps(decode, Start(receiver), steps, s);
    var c := s.clients[id];
    assert ClientOk(decode, s, c);
    if !c.synced {
      assert Pending(s, c)[0] == c.inflight[0];
    }
    ShowsRun(decode, c.display, c.copy, Pending(s, c));
  }

  predicate DrainedClient(s: Server, c: Client) {
    c.phase.Forwarding? && c.inflight == [] && c.next == |s.history|
  }

  /** Nothing on its way: the client is the server's mirror. */
  lemma DrainedMirrors(decode: Decoder, receiver: ReceiverInfo, steps: seq<Step>, s: Server, id: nat)
    requires Leads(decode, Start(receiver), steps, s)
    requires id in s.clients && DrainedClient(s, s.clients[id])
    ensures s.clients[id].copy == Current(s) && Shows(decode, s.clients[id].display, Current(s))
  {
    Convergence(decode, receiver, steps, s, id);
    assert Pending(s, s.clients[id]) == [];
  }

  /** A client is told that it fell behind exactly if more than 64 messages are sent
      that it has not been handed, and then goes on with the oldest 64. */
  lemma BehindIff(decode: Decoder, s: Server, c: Client, id: nat)
    requires s.sent <= |s.history|
    ensures ClientCan(s, c, FallBehind(id)) <==> c.phase.Forwarding? && s.sent - c.next > 64
    ensures ClientCan(s, c, FallBehind(id)) ==> ClientNext(decode, s, c, FallBehind(id)).next == s.sent - 64
  {
  }

  /** What has been handed to a client is never handed to it again. */
  lemma {:induction false} NeverGoesBack(
      decode: Decoder, from: Server, steps: seq<Step>, to: Server, id: nat, floor: nat)
    requires Inv(decode, from) && Leads(decode, from, steps, to) && Disconnect(id) !in steps
    requires id in from.clients && floor <= from.clients[id].next
    requires !from.clients[id].phase.Subscribed? ==> floor <= from.clients[id].latest.from
    ensures id in to.clients && floor <= to.clients[id].next
    ensures !to.clients[id].phase.Subscribed? ==> floor <= to.clients[id].latest.from
    decreases steps
  {
    if steps != [] {
      var next := Next(decode, from, steps[0]);
      StepKeeps(decode, from, steps[0]);
      assert ClientOk(decode, from, from.clients[id]);
      assert Disconnect(id) !in steps[1..] && steps[0] != Disconnect(id);
      NeverGoesBack(decode, next, steps[1..], to, id, floor);
    }
  }

  /** A new client is handed only messages sent after it subscribed: what came before
      reaches it in its snapshot. */
  lemma HearsOnlyNew(
      decode: Decoder, from: Server, id: nat, copy: Snapshot, display: Display, steps: seq<Step>, to: Server)
    requires Inv(decode, from) && Enabled(from, Subscribe(id, copy, display)) && Disconnect(id) !in steps
    requires Leads(decode, Next(decode, from, Subscribe(id, copy, display)), steps, to)
    ensures id in to.clients && from.sent <= to.clients[id].next
    ensures !to.clients[id].phase.Subscribed? ==> from.sent <= to.clients[id].latest.from
  {
    StepKeeps(decode, from, Subscribe(id, copy, display));
    NeverGoesBack(decode, Next(decode, from, Subscribe(id, copy, display)), steps, to, id, from.sent);
  }

  // ----- Every client catches up -----

  /** How much a client still has to do; each of its own steps makes it less. */
  function Work(s: Server, c: Client): nat
    requires c.next <= s.sent
  {
    3 * (s.sent - c.next) + (if c.phase.Forwarding? then 0 else 2) + |c.inflight|
  }

  predicate OwnStep(step: Step, id: nat) {
    && (step.SendSnapshot? || step.Forward? || step.FallBehind? || step.Resync? || step.Deliver?)
    && step.id == id
  }

  /** The client's next step, if it has one. */
  function Turn(s: Server, id: nat): Option<Step>
    requires id in s.clients
  {
    var c := s.clients[id];
    if c.phase.Subscribed? then Some(SendSnapshot(id))
    else if c.phase.Lagged? then Some(Resync(id))
    else if c.next < Oldest(s) then Some(FallBehind(id))
    else if c.next < s.sent then Some(Forward(id))
    else if c.inflight != [] then Some(Deliver(id))
    else None
  }

  /** Any step of a client makes its work less, so no client can keep the server
      busy for ever. */
  lemma ClientProgress(decode: Decoder, s: Server, c: Client, step: Step)
    requires c.next <= s.sent <= |s.history| && ClientCan(s, c, step)
    ensures var c' := ClientNext(decode, s, c, step);
            c'.next <= s.sent && Work(s, c') < Work(s, c)
  {
  }

  /** And a client has no step left exactly if it has everything that was sent and
      nothing on its way. */
  lemma NoTurnIff(decode: Decoder, s: Server, id: nat)
    requires Inv(decode, s) && id in s.clients
    ensures var c := s.clients[id];
            && (Turn(s, id) == None <==> c.phase.Forwarding? && c.next == s.sent && c.inflight == [])
            && (Turn(s, id).Some? ==> OwnStep(Turn(s, id).value, id) && Enabled(s, Turn(s, id).value))
            && (Turn(s, id) == None ==> forall step :: OwnStep(step, id) ==> !Enabled(s, step))
  {
    assert ClientOk(decode, s, s.clients[id]);
  }

  /** From any reachable state with nothing left to send, a connected client that
      is served long enough mirrors the server: lag and overflow do not keep it
      from catching up. */
  lemma {:induction false} CatchesUp(decode: Decoder, s: Server, id: nat) returns (steps: seq<Step>, s': Server)
    requires Inv(decode, s) && s.sent == |s.history| && id in s.clients
    ensures Leads(decode, s, steps, s') && |steps| <= Work(s, s.clients[id])
    ensures forall i :: 0 <= i < |steps| ==> OwnStep(steps[i], id)
    ensures Current(s') == Current(s) && id in s'.clients && s'.clients.Keys == s.clients.Keys
    ensures s'.clients[id].copy == Current(s) && Shows(decode, s'.clients[id].display, Current(s))
    decreases Work(s, s.clients[id])
  {
    var turn := Turn(s, id);
    var c := s.clients[id];
    assert ClientOk(decode, s, c);
    if turn == None {
      steps, s' := [], s;
      assert Pending(s, c) == [];
    } else {
      var step := turn.value;
      ClientProgress(decode, s, c, step);
      StepKeeps(decode, s, step);
      var t := Next(decode, s, step);
      var rest;
      rest, s' := CatchesUp(decode, t, id);
      steps := [step] + rest;
      assert steps[1..] == rest;
    }
  }

  // ----- When a display differs from the server -----

  /** What a client has received and is owed since its latest snapshot, that
      included. */
  function Since(s: Server, c: Client): seq<Message>
    requires c.latest.contains <= |s.history| && c.latest.from <= c.next <= |s.history|
  {
    [Whole(Fold(s.blank, s.history[..c.latest.contains]))] + s.history[c.latest.from..c.next]
  }

  /** A client that forwards will show what it would if it had received just that. */
  ghost predicate ShowsSince(decode: Decoder, s: Server, c: Client) {
    c.phase.Forwarding? ==>
      && c.latest.from <= c.latest.contains <= |s.history| && c.latest.from <= c.next <= |s.history|
      && ShowAll(decode, c.display, c.inflight) == ShowAll(decode, c.display, Since(s, c))
  }

  /** A snapshot replaces all but the connection, which messages leave alone. */
  lemma {:induction false} SnapshotReplaces(decode: Decoder, d: Display, ms: seq<Message>, whole: Snapshot)
    ensures Show(decode, ShowAll(decode, d, ms), Whole(whole)) == Show(decode, d, Whole(whole))
    decreases ms
  {
    if ms != [] {
      SnapshotReplaces(decode, Show(decode, d, ms[0]), ms[1..], whole);
    }
  }

  lemma ShowsSinceSnapshot(decode: Decoder, s: Server, c: Client)
    requires c.next <= |s.history|
    ensures ShowsSince(decode, s, WithSnapshot(s, c))
  {
    hide Show;
    var c' := WithSnapshot(s, c);
    assert s.history[..|s.history|] == s.history;
    assert Since(s, c') == [Whole(Current(s))] + [];
    SnapshotReplaces(decode, c.display, c.inflight, Current(s));
    ShowAllNext(decode, c.display, c.inflight, Whole(Current(s)));
    ShowAllNext(decode, c.display, [], Whole(Current(s)));
    assert [] + [Whole(Current(s))] == [Whole(Current(s))] + [];
  }

  lemma ShowsSinceForward(decode: Decoder, s: Server, c: Client)
    requires ShowsSince(decode, s, c) && c.phase.Forwarding? && c.next < |s.history|
    ensures ShowsSince(decode, s, c.(next := c.next + 1, inflight := c.inflight + [s.history[c.next]]))
  {
    hide Show;
    var c' := c.(next := c.next + 1, inflight := c.inflight + [s.history[c.next]]);
    assert Since(s, c') == Since(s, c) + [s.history[c.next]];
    ShowAllNext(decode, c.display, c.inflight, s.history[c.next]);
    ShowAllNext(decode, c.display, Since(s, c), s.history[c.next]);
  }

  lemma ShowsSinceDeliver(decode: Decoder, s: Server, c: Client)
    requires ShowsSince(decode, s, c) && c.inflight != []
    ensures var m := c.inflight[0];
            ShowsSince(decode, s, c.(inflight := c.inflight[1..], synced := c.synced || m.Whole?,
                                     copy := Applied(c.copy, m), display := Show(decode, c.display, m)))
  {
    if c.phase.Forwarding? {
      var since := Since(s, c);
      var whole := since[0].snapshot;
      var d := Show(decode, c.display, c.inflight[0]);
      SnapshotReplaces(decode, c.display, [c.inflight[0]], whole);
      assert [c.inflight[0]][1..] == [];
      assert ShowAll(decode, c.display, [c.inflight[0]]) == ShowAll(decode, d, []);
      assert Show(decode, d, Whole(whole)) == Show(decode, c.display, Whole(whole));
    }
  }

  ghost predicate AllShowSince(decode: Decoder, s: Server) {
    forall id :: id in s.clients ==> ShowsSince(decode, s, s.clients[id])
  }

  lemma HistoryGrows(decode: Decoder, s: Server, s': Server, c: Client)
    requires ShowsSince(decode, s, c) && s.blank == s'.blank && s.history <= s'.history
    ensures ShowsSince(decode, s', c)
  {
    if c.phase.Forwarding? {
      assert s'.history[..c.latest.contains] == s.history[..c.latest.contains];
      assert s'.history[c.latest.from..c.next] == s.history[c.latest.from..c.next];
    }
  }

  lemma ClientShowsSince(decode: Decoder, s: Server, c: Client, step: Step)
    requires ClientOk(decode, s, c) && ShowsSince(decode, s, c) && ClientCan(s, c, step)
    ensures ShowsSince(decode, s, ClientNext(decode, s, c, step))
  {
    match step {
      case SendSnapshot(_) => ShowsSinceSnapshot(decode, s, c);
      case Resync(_) => ShowsSinceSnapshot(decode, s, c);
      case Forward(_) => ShowsSinceForward(decode, s, c);
      case FallBehind(_) =>
      case Deliver(_) => ShowsSinceDeliver(decode, s, c);
    }
  }

  lemma StepShowsSince(decode: Decoder, s: Server, step: Step)
    requires Inv(decode, s) && AllShowSince(decode, s) && Enabled(s, step)
    ensures AllShowSince(decode, Next(decode, s, step))
  {
    var s' := Next(decode, s, step);
    forall id | id in s'.clients ensures ShowsSince(decode, s', s'.clients[id]) {
      hide ShowsSince, ClientOk;
      if id in s.clients && s'.clients[id] == s.clients[id] {
        HistoryGrows(decode, s, s', s.clients[id]);
      } else if step.Subscribe? {
        NotForwarding(decode, s', s'.clients[id]);
      } else {
        ClientShowsSince(decode, s, s.clients[id], step);
        HistoryGrows(decode, s, s', s'.clients[id]);
      }
    }
  }

  lemma NotForwarding(decode: Decoder, s: Server, c: Client)
    requires !c.phase.Forwarding?
    ensures ShowsSince(decode, s, c)
  {
  }

  lemma {:induction false} RunShowsSince(decode: Decoder, from: Server, steps: seq<Step>, to: Server)
    requires Inv(decode, from) && AllShowSince(decode, from) && Leads(decode, from, steps, to)
    ensures AllShowSince(decode, to)
    decreases steps
  {
    if steps != [] {
      StepKeeps(decode, from, steps[0]);
      StepShowsSince(decode, from, steps[0]);
      RunShowsSince(decode, Next(decode, from, steps[0]), steps[1..], to);
    }
  }

  /** In every run, a client with nothing on its way shows another position, or
      another volume, than the server knows exactly if that field lingers in what it
      was sent since its latest snapshot: the snapshot itself, and then everything
      its channel had not handed over by then, messages the snapshot already
      contained among them. */
  lemma MirrorDiffersIff(
      decode: Decoder, receiver: ReceiverInfo, steps: seq<Step>, s: Server, id: nat, k: Kept)
    requires Leads(decode, Start(receiver), steps, s)
    requires id in s.clients && DrainedClient(s, s.clients[id])
    ensures var c := s.clients[id];
            && c.latest.from <= c.latest.contains <= |s.history| == c.next
            && (Known(Current(s), k) ==> Same(c.display, Current(s), k))
            && (Shown(c.display, k) <==> LastGives(Since(s, c), k, false))
            && (!Same(c.display, Current(s), k) <==> Lingers(Since(s, c), k, false))
  {
    var c := s.clients[id];
    assert Inv(decode, Start(receiver)) && AllShowSince(decode, Start(receiver));
    RunShowsSince(decode, Start(receiver), steps, s);
    assert ShowsSince(decode, s, c);
    var since := Since(s, c);
    var whole := since[0].snapshot;
    assert since == [Whole(whole)] + s.history[c.latest.from..];
    RunKeeps(decode, Start(receiver), steps, s);
    SinceFolds(s, c);
    hide Leads, Lingers, LastGives, Fold, ShowAll, ShowsSince;
    var empty, blank := c.display.(progress := None, volumeDb := None), whole.(progress := None, volumeDb := None);
    EmptyShows(decode, c.display, since);
    NothingShown(empty, blank, k);
    DiffersIffLingers(decode, empty, blank, since, k);
    StartsWhole(blank, since);
    assert c.inflight == [];
    assert ShowAll(decode, c.display, []) == c.display by { ShowNothing(decode, c.display); }
  }

  lemma NothingShown(d: Display, s: Snapshot, k: Kept)
    requires d.progress == None && d.volumeDb == None && s.progress == None && s.volumeDb == None
    ensures Same(d, s, k) && !Shown(d, k)
  {
  }

  lemma ShowNothing(decode: Decoder, d: Display)
    ensures ShowAll(decode, d, []) == d
  {
  }

  /** A list that starts with a snapshot shows the same whatever was shown. */
  lemma EmptyShows(decode: Decoder, d: Display, ms: seq<Message>)
    requires ms != [] && ms[0].Whole?
    ensures ShowAll(decode, d, ms) == ShowAll(decode, d.(progress := None, volumeDb := None), ms)
  {
  }

  lemma StartsWhole(s: Snapshot, ms: seq<Message>)
    requires ms != [] && ms[0].Whole?
    ensures Fold(s, ms) == Fold(ms[0].snapshot, ms[1..])
  {
  }

  /** The server's snapshot is what that list folds to. */
  lemma SinceFolds(s: Server, c: Client)
    requires Changes(s.history) && c.latest.from <= c.latest.contains <= |s.history| == c.next
    ensures forall t :: Fold(t, Since(s, c)) == Current(s)
  {
    var a, b := c.latest.contains, c.latest.from;
    var before, middle, rest := s.history[..b], s.history[b..a], s.history[a..];
    assert s.history[..a] == before + middle && s.history[b..] == middle + rest;
    assert s.history == (before + middle) + rest && s.history[b..c.next] == s.history[b..];
    var whole := Fold(s.blank, s.history[..a]);
    FoldConcat(s.blank, before, middle);
    FoldIdempotent(Fold(s.blank, before), middle);
    FoldConcat(whole, middle, rest);
    FoldConcat(s.blank, before + middle, rest);
    forall t ensures Fold(t, Since(s, c)) == Current(s) {
      StartsWhole(t, Since(s, c));
      assert Since(s, c)[1..] == s.history[b..];
    }
  }

  // ----- What a display keeps that the server forgets -----

  lemma {:induction false} LeadsConcat(
      decode: Decoder, from: Server, xs: seq<Step>, middle: Server, ys: seq<Step>, to: Server)
    requires Leads(decode, from, xs, middle) && Leads(decode, middle, ys, to)
    ensures Leads(decode, from, xs + ys, to)
    decreases xs
  {
    if xs == [] {
      assert xs + ys == ys;
    } else {
      assert (xs + ys)[1..] == xs[1..] + ys;
      LeadsConcat(decode, Next(decode, from, xs[0]), xs[1..], middle, ys, to);
    }
  }

  /** A run of one step in front of a run. */
  lemma Before(decode: Decoder, from: Server, step: Step, steps: seq<Step>, to: Server)
    requires from.sent <= |from.history| && Enabled(from, step)
    requires Leads(decode, Next(decode, from, step), steps, to)
    ensures Leads(decode, from, [step] + steps, to)
  {
    assert ([step] + steps)[1..] == steps;
  }

  /** A dashboard connects to a receiver that has published nothing. */
  lemma Connects(decode: Decoder, receiver: ReceiverInfo, id: nat, display: Display)
    returns (steps: seq<Step>, s: Server)
    ensures Leads(decode, Start(receiver), steps, s) && Quiet(s, id) && s.history == [] && s.blank == Blank(receiver)
  {
    var s0 := Start(receiver);
    var s1 := Next(decode, s0, Subscribe(id, Blank(receiver), display));
    var s2 := Next(decode, s1, SendSnapshot(id));
    s := Next(decode, s2, Deliver(id));
    Before(decode, s2, Deliver(id), [], s);
    Before(decode, s1, SendSnapshot(id), [Deliver(id)] + [], s);
    steps := [SendSnapshot(id)] + ([Deliver(id)] + []);
    Before(decode, s0, Subscribe(id, Blank(receiver), display), steps, s);
    steps := [Subscribe(id, Blank(receiver), display)] + steps;
  }

  predicate Quiet(s: Server, id: nat) {
    s.sent == |s.history| && id in s.clients && DrainedClient(s, s.clients[id])
  }

  /** One change goes all the way to a client with nothing on its way. */
  lemma Travels(decode: Decoder, s: Server, id: nat, m: Message) returns (steps: seq<Step>, s': Server)
    requires Quiet(s, id) && !m.Whole?
    ensures Leads(decode, s, steps, s') && Quiet(s', id)
    ensures s'.history == s.history + [m] && s'.blank == s.blank
    ensures s'.clients[id].display == Show(decode, s.clients[id].display, m)
  {
    var s1 := Next(decode, s, Publish(m));
    var s2 := Next(decode, s1, Send);
    var s3 := Next(decode, s2, Forward(id));
    s' := Next(decode, s3, Deliver(id));
    hide Leads;
    assert Leads(decode, s', [], s') by { LeadsNowhere(decode, s'); }
    Before(decode, s3, Deliver(id), [], s');
    steps := [Deliver(id)] + [];
    Before(decode, s2, Forward(id), steps, s');
    steps := [Forward(id)] + steps;
    Before(decode, s1, Send, steps, s');
    steps := [Send] + steps;
    Before(decode, s, Publish(m), steps, s');
    steps := [Publish(m)] + steps;
  }

  lemma LeadsNowhere(decode: Decoder, s: Server)
    ensures Leads(decode, s, [], s)
  {
  }

  lemma TravelsTwice(decode: Decoder, receiver: ReceiverInfo, id: nat, display: Display, m: Message, m': Message)
    returns (steps: seq<Step>, s: Server, shown: Display)
    requires !m.Whole? && !m'.Whole?
    ensures Leads(decode, Start(receiver), steps, s) && Quiet(s, id)
    ensures Current(s) == Applied(Applied(Blank(receiver), m), m')
    ensures s.clients[id].display == Show(decode, Show(decode, shown, m), m')
  {
    hide Leads, Show, Quiet, Applied;
    var s0, s1, more;
    steps, s0 := Connects(decode, receiver, id, display);
    assert id in s0.clients by { QuietClient(s0, id); }
    shown := s0.clients[id].display;
    more, s1 := Travels(decode, s0, id, m);
    LeadsConcat(decode, Start(receiver), steps, s0, more, s1);
    steps := steps + more;
    more, s := Travels(decode, s1, id, m');
    LeadsConcat(decode, Start(receiver), steps, s1, more, s);
    steps := steps + more;
    QuietClient(s, id);
    FoldTwo(Blank(receiver), m, m');
    assert s.history == [m, m'];
  }

  lemma QuietClient(s: Server, id: nat)
    requires Quiet(s, id)
    ensures id in s.clients
  {
  }

  lemma FoldTwo(s: Snapshot, m: Message, m': Message)
    ensures Fold(s, [m, m']) == Applied(Applied(s, m), m')
  {
    assert Fold(Applied(s, m), [m']) == Applied(Applied(s, m), m') by {
      assert [m'][1..] == [];
    }
    assert [m, m'][1..] == [m'];
  }

  /** Mirroring is not equality: a run after which a client has everything, shows a
      position, and the server knows none. */
  lemma DisplayKeepsPosition(decode: Decoder, receiver: ReceiverInfo, display: Display, progress: Progress)
    returns (steps: seq<Step>, s: Server)
    ensures Leads(decode, Start(receiver), steps, s) && Quiet(s, 0)
    ensures s.clients[0].display.progress == Some(progress) && Current(s).progress == None
  {
    hide Leads;
    var shown;
    steps, s, shown := TravelsTwice(decode, receiver, 0, display, ProgressSent(progress), Flushed);
  }

  /** And one after which it still shows the volume of a session that has ended. */
  lemma DisplayKeepsVolume(decode: Decoder, receiver: ReceiverInfo, display: Display, db: real)
    returns (steps: seq<Step>, s: Server)
    ensures Leads(decode, Start(receiver), steps, s) && Quiet(s, 0)
    ensures s.clients[0].display.volumeDb == Some(db) && Current(s).volumeDb == None
  {
    hide Leads;
    var shown;
    steps, s, shown := TravelsTwice(decode, receiver, 0, display, Volume(db), SessionEnded);
  }
}
