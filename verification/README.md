# A verified model of the AirPlay 1 receiver

This project models the stateful core of an AirPlay 1 (RAOP) audio receiver and
its dashboard, and proves what that core is for: packets that arrive in any
order leave in order and exactly once, audio that enters the playback thread
reaches the sink or is still withheld, timestamps become local instants with a
known error, only one sender streams at a time, and every dashboard ends up
showing what the receiver knows.

Code that changes state in place is a class whose methods are proved against a
function of the old state; the laws are then proved about those functions, over
all inputs, all runs and all interleavings.

| file | models |
|---|---|
| `Numbers.dfy` | 16-, 32- and 64-bit wrap-around, the sequence circle, truncating division |
| `Jitter.dfy` | the jitter buffer on unbounded positions, and the 512-slot ring that refines it |
| `JitterRuns.dfy` | whole runs of the buffer: delivery, gaps, stalls, reordering |
| `Resend.dfy` | rate-limited retransmit requests over service ticks |
| `AudioTask.dfy` | the audio task: packets, retransmits, ticks and flushes in, player commands and requests out |
| `TaskRequests.dfy`, `ResendSpacing.dfy` | the retransmit requests the audio task itself sends, and how far apart they are |
| `Player.dfy` | prebuffer, playout and the command loop of the playback thread |
| `Pipeline.dfy` | audio task and playback thread together, on a timely network |
| `Playback.dfy` | the two together on every list of inputs: audio and position reports |
| `Position.dfy` | once-a-second position reports |
| `Clock.dfy` | NTP fixed point, offset estimation, play time |
| `Events.dfy`, `Session.dfy`, `SessionServer.dfy` | a connection's session, and many of them sharing one slot and one event channel |
| `SessionHistory.dfy`, `Asked.dfy` | what a connection's requests alone say of its events, and of what the events state |
| `Protocol.dfy` | dashboard messages, the snapshot they fold into, the display |
| `Fanout.dfy` | the dashboard fan-out as interleaved steps |
| `EndToEnd.dfy` | from session events to what dashboards show |
| `Dmap.dfy`, `Rtsp.dfy` | the two parsers, with matching printers |

## Where the code and its promises part

The model follows the code. These promises do not hold as worded; each is
replaced by the exact condition under which it does.

- *A permanent gap must not stall the stream* (`openairplay1/src/jitter.rs:20-23`,
  `openairplay1/src/jitter.rs:254-269`). It stalls for as long as no packet
  arrives at least `max_lead` and less than 512 ahead of the gap, because packets
  512 or more ahead are dropped. `GapGivesWayIffReached` is the exact condition,
  whatever the buffer holds beyond the gap, and `StreamResumesIffReached` states it
  for a gap met anywhere in a stream; `StallWitness` is a sender that stays unheard
  for 32000 packets.
- *Timestamps advance by a packet length per sequence number from the first
  packet's anchor* (`openairplay1/src/session.rs:799-806`). The anchor never
  moves, and circle distances that read as negative are clamped to zero. Once an
  audio packet has been heard, a delivery gets the sender's timestamp exactly from
  that packet's position to 32767 past it, and beyond only where the frames between
  wrap the 32-bit timestamp (`StampExactIff`, `StampExactNearAnchor`,
  `TimelineExact`). Deliveries made before any audio packet was heard are stamped 0
  (`ResentBeforeAudioStampedZero`), the anchor's own position included
  (`ZeroStampWitness`). The instant playback starts therefore depends on the order
  of the first packets (`StartInstantIff`).
- *At least 80 ms between requests for the same sequence number*
  (`openairplay1/src/session.rs:31-32`). Between flushes it holds over any stretch
  of inputs that sends the player at most 65409 commands, a turn of the sequence
  circle less the 127 positions a gap report can span (`RequestsAreApart`); a
  larger bound guarantees nothing (`SpacingIffBelowATurn`), because the number can
  then stand for another position, one turn on (`LapAsksTwice`). A flush forgets
  what was asked for (`FlushRestartsBackoff`, `AskedTwiceAtOnce`).
- *A report is one per second* (`openairplay1/src/player.rs:233-234`). The reporter
  outlives tracks and flushes, so the first second of a walk through a track goes
  unreported exactly if it is the number of the second last reported, in whatever
  track (`EachSecondOnce`, `NextTrackUnreported`).
- *`ns_to_ntp` is the inverse of `ntp_to_ns`* (`openairplay1/src/clock.rs:30-31`).
  It may come back one nanosecond early; it is exact when and only when the part
  below a second is a multiple of 1/512 s (`NtpRoundTrip`).
- *A second sender is refused while another is streaming*
  (`openairplay1/src/session.rs:36-38`). It is refused while another *holds the
  slot*, which a SETUP that failed after taking it also does (`SetupRefusedIff`,
  `FailedSetupKeepsSlot`).
- *Events of a session lie between its start and its end.* TEARDOWN frees the slot
  one statement before it reports the end (`openairplay1/src/session.rs:417-418`).
  `BracketedIffRaceFree` says a run is bracketed exactly if no session starts in
  that gap, `AtomicTeardownsBracket` that it always is with TEARDOWN in one piece,
  and `TeardownCanOverlap` gives a run in which it is not. After such a run
  dashboards show no session although one streams (`RaceBlanksDashboard`).
- *A dashboard shows what the receiver knows.* It ignores flushes and keeps the
  volume past a session's end, on purpose
  (`openairplay1-dashboard/src/tui.rs:164-176`). Whenever the server knows a position
  or volume the display shows the same. The two differ exactly if, in what the
  client was sent since its latest snapshot, that snapshot and the messages replayed
  on top of it included, a flush (for the volume: a session's end) follows a message
  that gave the value, with nothing that decides it in between or since
  (`DiffersIffLingers`, `MirrorDiffersIff`). `DisplayKeepsPosition` and
  `DisplayKeepsVolume` are such runs.
- *`SessionEnded` is reported once per started session*
  (`openairplay1/src/session.rs:565`). A second SETUP without a TEARDOWN reports
  another start (`openairplay1/src/session.rs:333`). A connection's starts and ends
  take turns exactly if no SETUP finishes while it streams
  (`TurnsIffNeverRestarted`); `RestartedEndsOnce` has two starts and one end.
- *`None` on a clean end at a message boundary* (`openairplay1/src/rtsp.rs:44-45`).
  Reading ends without an error exactly at the end of the stream, or where carriage
  returns only, up to a line feed or the end, stand in a request's place (`EndsIff`).
  A blank line between requests so ends the connection, and what follows is never
  read (`BlankLineEndsConnection`).

## Model

| member | source | states |
|---|---|---|
| Numbers.SeqDiffIsDistance | openairplay1/src/jitter.rs:26-30 | the signed circle distance of two 16-bit numbers is the true distance of the positions they stand for, within half a circle |
| JitterRing.SlotOfWrapped | openairplay1/src/jitter.rs:70-72 | the slot computed from a wrapped number is the unbounded position's own: 512 divides 65536 |
| JitterRing.SlotsDoNotAlias | openairplay1/src/jitter.rs:10-12 | two positions of one 512-wide window share a slot only if they are the same position |
| JitterRing.StoredRing | openairplay1/src/jitter.rs:93-96 | storing into one slot leaves every other position of the window as it was |
| JitterRing.AdvancedRing | openairplay1/src/jitter.rs:109-115 | emptying the front slot turns the ring into the window one further on |
| JitterRing.RingAt | openairplay1/src/jitter.rs:108-112 | what the code reads at a wrapped number, and the lead it measures, are the model's |
| JitterRing.JitterBuffer.constructor | openairplay1/src/jitter.rs:58-68 | an empty ring stands for a buffer that knows no start |
| JitterRing.JitterBuffer.Reset | openairplay1/src/jitter.rs:76-82 | discards everything and arms the buffer at the given number, or at none |
| JitterRing.JitterBuffer.Insert | openairplay1/src/jitter.rs:86-97 | stores at the nearest position to the front, or drops what is late or 512 or more ahead, exactly as the unbounded buffer |
| JitterRing.JitterBuffer.ReleaseFront | openairplay1/src/jitter.rs:107-118 | one turn of the release loop: the front's packet, its loss at `max_lead`, or a stop |
| JitterRing.JitterBuffer.PopReady | openairplay1/src/jitter.rs:102-121 | terminates, and hands over exactly what the unbounded buffer releases |
| JitterRing.JitterBuffer.Missing | openairplay1/src/jitter.rs:125-138 | terminates, and reports exactly the unbounded buffer's gaps, numbers modulo 65536 |
| JitterRuns.RunRing | openairplay1/src/jitter.rs:57-139 | any sequence of inserts, releases and resets on the 512-slot, 16-bit ring delivers and reports exactly what the unbounded buffer does, over any number of wraps |
| JitterRuns.DeliveredExactlyOnce | openairplay1/src/jitter.rs:86-121 | without resets, delivery is contiguous from the armed position; each packet is the last stored for its position, each loss had none and a packet `max_lead` or more ahead; nothing stored is dropped undelivered |
| JitterRuns.DeliveredAfterReset | openairplay1/src/jitter.rs:74-82 | after a reset to `n`, whatever went before, delivery is that stream from `n`: nothing earlier, nothing stale |
| JitterRuns.DeliveredAfterOpenReset | openairplay1/src/jitter.rs:74-87 | after a reset without a number, whatever went before, delivery is the stream from the first packet that arrives, whatever its number, and nothing until one does |
| JitterRuns.IdleStartsAtFirstPacket | openairplay1/src/jitter.rs:87 | a buffer without a start behaves as one armed at its first packet |
| JitterRuns.ConsecutiveOnWire | openairplay1/src/jitter.rs:111-115 | delivered sequence numbers are consecutive modulo 65536 |
| JitterRuns.TurnsDoNotMatter | openairplay1/src/jitter.rs:26-30 | buffers armed at the same 16-bit number deliver the same, whichever turn of the circle positions are counted from |
| JitterRuns.PopSettles | openairplay1/src/jitter.rs:99-121 | after a release the buffer has nothing stored, or an empty front and a lead below `max_lead` |
| JitterRuns.GapsAreExact | openairplay1/src/jitter.rs:129-137 | the gap walk lists the empty positions of its range in ascending order, all of them and no others |
| JitterRuns.MissingIsExact | openairplay1/src/jitter.rs:123-138 | the report is exactly the empty positions from the front up to the highest stored, never that one |
| JitterRuns.MissingAfterPop | openairplay1/src/jitter.rs:102-138 | after a release the report is shorter than `max_lead`, and empty exactly if the buffer is drained |
| JitterRuns.ArrivalBreaksStall | openairplay1/src/jitter.rs:86-121 | storing one arrival in a stalled buffer releases something exactly if it lies `max_lead` to 511 ahead of the front |
| JitterRuns.GapGivesWayIffReached | openairplay1/src/jitter.rs:14-24 | from any buffer stalled at a gap, whatever it holds beyond it, arrivals that never fill the gap get playback past it exactly if one lies `max_lead` to 511 ahead of it; otherwise the stall persists |
| JitterRuns.StreamResumesIffReached | openairplay1/src/jitter.rs:99-121 | so at every point of a stream: after any operations and a release, more is delivered exactly if the gap then in front is reached that way |
| JitterRuns.ReachedIs | openairplay1/src/jitter.rs:12-24 | with the receiver's limits "reached" means an arrival 128 to 511 ahead of the gap |
| JitterRuns.StallWitness | openairplay1/src/jitter.rs:254-269 | with the real limits, a sender resuming 512 past the armed position is not heard for 32000 packets |
| JitterRuns.ReorderingIsInvisible | openairplay1/src/jitter.rs:86-121 | timely arrivals in any order with any duplicates deliver exactly the frames from the armed position on, in order, none lost |
| JitterRuns.RingDeliversInOrder | openairplay1/src/jitter.rs:3-8 | the same on the ring itself |
| Resend.ResendTracker.Due | openairplay1/src/session.rs:651-666 | prunes and serves exactly as the specification of one call |
| Resend.ResendTracker.Clear | openairplay1/src/session.rs:668-670 | forgets every request |
| Resend.DueIsExact | openairplay1/src/session.rs:649-666 | after a call exactly the missing numbers are tracked, each asked for less than 80 ms ago, and exactly the ready ones were returned |
| Resend.TickEffect | openairplay1/src/session.rs:818-834 | at a service tick a missing number is asked for exactly if it is ready; otherwise its request time stands |
| Resend.RequestsAreSpaced | openairplay1/src/session.rs:641-642 | over any ticks that share one tracker, two requests for a number that stays missing are at least 80 ms apart |
| Resend.PersistentGapIsRerequested | openairplay1/src/session.rs:655-664 | a gap that persists is asked for again within 80 ms plus one tick spacing |
| Resend.FirstReportIsRequested | openairplay1/src/session.rs:656-663 | a gap is asked for at the first tick that reports it |
| Resend.ReturnedIsRequestedIff | openairplay1/src/session.rs:824-828 | a number asked for that vanished from the reports and is back is asked for at once exactly if a report in between listed others or 80 ms have passed |
| TaskRequests.TaskServesTicks | openairplay1/src/session.rs:745-748 | between flushes the audio task's tracker and requests are those of its service ticks, each over the gaps left after its release |
| ResendSpacing.RequestsAreApart | openairplay1/src/session.rs:641-671 | between flushes, in any stretch of the audio task's inputs over which it sends at most 65409 commands, requests for the same number are at least 80 ms apart |
| ResendSpacing.MissingBetween | openairplay1/src/jitter.rs:86-121 | a position missing at two times is missing at every time between: gaps do not come back |
| ResendSpacing.SameNumberSamePosition | openairplay1/src/jitter.rs:123-138 | over that much front travel two reports that list a number list the same position |
| ResendSpacing.LapAsksTwice | openairplay1/src/session.rs:651-666 | the bound is tight: a flush-free run that sends 65410 commands and asks for one number twice at the same instant |
| ResendSpacing.SpacingIffBelowATurn | openairplay1/src/session.rs:641-671 | a bound on the commands sent guarantees the spacing exactly if it is at most 65409 |
| TaskRequests.AskedWhenFirstSeen | openairplay1/src/session.rs:651-666 | the audio task asks for a gap at the first tick since the flush that finds it |
| TaskRequests.AskedAgain | openairplay1/src/session.rs:655-664 | a gap every tick finds is in the log again within 80 ms plus one tick spacing |
| TaskRequests.FlushRestartsBackoff | openairplay1/src/session.rs:749-754 | after a flush, whatever was asked for before, the first tick that finds a gap asks for it |
| TaskRequests.AskedTwiceAtOnce | openairplay1/src/session.rs:749-754 | a run that asks for one number twice at one instant, across a flush |
| AudioTask.DrainDeliveries | openairplay1/src/session.rs:765-797 | turns exactly the released packets and losses into stamped commands, in order |
| AudioTask.AudioReceiver | openairplay1/src/session.rs:673-761 | the loop over ring, tracker and anchor emits exactly the model's commands and resend requests for any inputs |
| AudioTask.CommandsFollowDeliveries | openairplay1/src/session.rs:710-797 | for every flush-free list of inputs from any buffer: the commands are its deliveries in order, those before the first audio packet stamped without an anchor, all later ones from that packet |
| AudioTask.StampOf | openairplay1/src/session.rs:801-806 | for every position and anchor the stamp is the sender's for the position as far past the anchor as the clamped circle distance says |
| AudioTask.AheadWithinHalfCircle | openairplay1/src/session.rs:803 | within half a circle of the anchor that is the position itself, or the anchor for earlier ones |
| AudioTask.AheadPastHalfCircle | openairplay1/src/session.rs:803 | from 32768 to 65535 past it, it is the anchor again |
| AudioTask.SameStampIff | openairplay1/src/session.rs:799-804 | two positions share a sender stamp exactly if the frames between them are a multiple of 2^32 |
| AudioTask.StampsDiffer | openairplay1/src/session.rs:804 | which packets of 1 to 65535 frames never do within one circle |
| AudioTask.StampExactIff | openairplay1/src/session.rs:801-806 | for every position and anchor, the stamp is the sender's own exactly from 0 to 32767 past the anchor or where the frames between wrap the timestamp |
| AudioTask.StampExactNearAnchor | openairplay1/src/session.rs:801-806 | with packets of 1 to 65535 frames that is exactly 0 to 32767, up to a full circle past the anchor |
| AudioTask.TimelineExact | openairplay1/src/session.rs:710-806 | for every flush-free list of inputs, armed or idle at its start, any number of turns long: the i-th command is for the i-th position, stamped 0 if emitted before the first audio packet, and later stamped from it and exact under that condition |
| AudioTask.TimelineIsProgression | openairplay1/src/session.rs:799-806 | consecutive stamped commands, concealed losses included, advance by exactly one packet from 0 to 32766 past the anchor on every turn, otherwise only where the excess wraps |
| AudioTask.ResentBeforeAudioStampedZero | openairplay1/src/session.rs:726-743 | every command emitted before the first audio packet is stamped 0 and stays so when the anchor comes |
| AudioTask.ZeroStampWitness | openairplay1/src/session.rs:726-743 | the anchor's own position, delivered from a retransmit heard first, is stamped 0 |
| AudioTask.IdleActsArmed | openairplay1/src/jitter.rs:87 | a task that knows no start behaves as one armed at the first packet heard on either channel |
| AudioTask.TicksAreSilent | openairplay1/src/session.rs:745-748 | deleting the service ticks from any inputs, flushes included, changes no command, nor anchor and buffer |
| AudioTask.FlushStartsOver | openairplay1/src/session.rs:749-758 | after a flush the audio task behaves as a fresh one armed where the flush says, emitting after what it emitted before |
| AudioTask.FlushStartsAt | openairplay1/src/session.rs:422-434 | after a flush with a number the commands and requests are those of a task armed there; without one, of a task armed at the first number heard, and none until then |
| Player.Prebuffer.Push | openairplay1/src/player.rs:369-381 | withholds until the threshold packet, then releases everything withheld, then passes through |
| Player.Prebuffer.Reset | openairplay1/src/player.rs:383-387 | re-arms and drops what was withheld |
| Player.Playout.Feed | openairplay1/src/player.rs:302-315 | makes the sink's log grow by exactly what the epoch's log grows by, the wait on the epoch's first timestamp included |
| Player.Playout.Reset | openairplay1/src/player.rs:341-345 | the next epoch starts from nothing |
| Player.Obey | openairplay1/src/player.rs:183-208 | one command: decoded audio or silence is fed and its position taken note of, an undecodable packet leaves no trace, a flush resets and reaches the sink |
| Player.RunPlayback | openairplay1/src/player.rs:149-211 | the loop writes exactly the log of the commands before the first stop, and reports exactly the positions they play |
| Player.HeardPrefix | openairplay1/src/player.rs:177-207 | those commands are a prefix, cut only by a stop command or the stop flag |
| Player.EpochConserves | openairplay1/src/player.rs:302-387 | in an epoch's log, writes plus what is withheld are all its audio in order; nothing before the threshold; then one wait, first, for the first timestamp |
| Player.SegmentsAreEpochs | openairplay1/src/player.rs:203-206 | seen from the sink, the stretch between two flushes is exactly the log of that epoch |
| Player.PlaybackConserves | openairplay1/src/player.rs:177-208 | for every command sequence each flush epoch conserves its audio, and no epoch's audio is written in another |
| Player.SinkHearsTheCommands | openairplay1/src/player.rs:177-208 | in terms of the commands alone: between two flushes nothing below the threshold; then one wait for the timestamp of the first command that decodes or is silence, and all their audio in order, write by write |
| Player.EpochsSplitAtFlush | openairplay1/src/player.rs:203-206 | what follows a flush is independent of what preceded it |
| Player.PrebufferPackets | openairplay1/src/player.rs:142-146 | at least one packet; no more than 200 ms unless it is one; one packet more would exceed the 200 ms target |
| Player.StartDelay | openairplay1/src/player.rs:319-339 | the first write is held to the play time if that is at most two seconds ahead, two seconds if it is further, and not at all when it is due or unknown |
| Pipeline.TimelyCommands | openairplay1/src/session.rs:705-797 | a timely stream, armed or idle at its start, with ticks anywhere and on either channel, becomes one frame command per position, in order, none concealed |
| Pipeline.OrderIsInaudible | openairplay1/src/player.rs:177-208 | two networks that let the same positions through, in any order with any duplicates, on either channel and with service ticks anywhere, have the same effect on the sink but for the instant waited for |
| Pipeline.StartInstantIff | openairplay1/src/session.rs:710 | the first frame is stamped 0 if it was heard as a retransmit before any audio packet; otherwise it carries the sender's stamp exactly if it is exact from the first audio packet heard: below 65536 frames a packet, if that one is not a later one |
| Pipeline.FrameStamp | openairplay1/src/session.rs:801-806 | the same for every frame of a timely stream |
| Pipeline.StartWaitIff | openairplay1/src/player.rs:302-323 | the wait in the sink's log carries that stamp of the first frame that decodes |
| Playback.EpochsAreSegments | openairplay1/src/player.rs:203-206 | for every list of inputs the player's flush epochs are the audio task's, one for one |
| Playback.AudioIsConserved | openairplay1/src/player.rs:177-208 | from the inputs to the sink, flushes, losses and undecodable packets included: between two flushes the sink gets, or the prebuffer withholds, exactly the audio of what the jitter buffer delivered there, in order |
| Position.Position.Played | openairplay1/src/player.rs:250-263 | reports, or stays silent, exactly as the specification of one step |
| Position.ExtentIffOnArc | openairplay1/src/player.rs:269-280 | a timestamp has a place in the track exactly if there is a rate and it lies on the arc from start to end of the 32-bit circle; the place is its distance along it, the length the whole arc |
| Position.AgreesWithProgressLine | openairplay1/src/session.rs:505-506 | where nothing wraps, playback and the sender's progress line give the same pair |
| Position.ProgressSaturates | openairplay1/src/session.rs:502-506 | a position or an end before the start of the track reads as zero |
| Position.SecondSpans | openairplay1/src/player.rs:257 | the second of a frame starts no later and ends after it |
| Position.ReportsOnlyInTrack | openairplay1/src/player.rs:250-263 | a report is made only for a timestamp within a stated track, with its place and the length |
| Position.EachSecondOnce | openairplay1/src/player.rs:225-263 | moving forward in a track from whatever was last reported, the new reports lie in the track and strictly increase, and each second reached is reported once, except the first exactly if it is the one last reported |
| Position.NextTrackUnreported | openairplay1/src/player.rs:229-236 | a second track starting in the second last reported for the first goes unreported |
| Playback.ReportsFollowTheAudio | openairplay1/src/player.rs:196-202 | for the audio task's own commands, wherever they carry the sender's stamps and lie in a stated track, the playback loop reports each second its audio reaches once, in order, up to the one last reported |
| Clock.NtpRoundTrip | openairplay1/src/clock.rs:25-37 | nanoseconds to NTP and back give the same instant or one less, the same exactly for multiples of 1/512 s, without 64-bit overflow |
| Clock.FractionRoundTrip | openairplay1/src/clock.rs:25-37 | the other way at most five fraction units are lost and the seconds never |
| Clock.NtpToNsMonotone | openairplay1/src/clock.rs:26-28 | the conversion keeps order |
| Clock.Best | openairplay1/src/clock.rs:88-89 | picks the first sample of the lowest round trip |
| Clock.ClockModel.AddTiming | openairplay1/src/clock.rs:71-90 | the window is the last eight well-formed exchanges and the offset that of the best of them |
| Clock.ClockModel.SetAnchor | openairplay1/src/clock.rs:94-96 | replaces the anchor and nothing else |
| Clock.ClockModel.PlayTime | openairplay1/src/clock.rs:105-115 | defined exactly once offset and anchor are known and the instant is not negative |
| Clock.SampleError | openairplay1/src/clock.rs:72-82 | a correctly paired exchange is accepted with its true round trip, and its offset errs by half the difference of the path delays |
| Clock.OffsetIsBestOfLastEight | openairplay1/src/clock.rs:71-90 | the offset is known exactly once an exchange was well formed, and is that of the last eight of these with the lowest round trip |
| Clock.OffsetError | openairplay1/src/clock.rs:84-89 | over any run the offset errs by at most half of each of the last eight well-formed round trips, rounded up |
| Clock.InstantAt | openairplay1/src/clock.rs:109-113 | the instant of a frame up to half a circle on either side of the anchor, across the 32-bit wrap |
| Clock.PlayTimeMonotone | openairplay1/src/clock.rs:105-115 | walking timestamps forward through both half circles never goes back in time |
| Clock.OneSecondIff | openairplay1/src/clock.rs:111-113 | `rate` frames apart is one second, or one nanosecond less exactly when truncation changes side across the anchor |
| Clock.PlayTimeError | openairplay1/src/clock.rs:71-115 | end to end the instant is within half the smallest recent round trip, rounded up, plus 1 ns of the ideal |
| Session.SessionSlot.TryAcquire | openairplay1/src/session.rs:48-53 | succeeds exactly if the slot was free, and then it is taken |
| Session.SessionSlot.Release | openairplay1/src/session.rs:58-62 | frees the slot |
| Session.Connection.HandleAnnounce | openairplay1/src/session.rs:231-273 | stores the parameters or refuses and keeps the old ones |
| Session.Connection.HandleSetup | openairplay1/src/session.rs:277-310 | 455 without parameters, 453 without the slot, 400 on a bad transport with the slot kept, else on to bind |
| Session.Connection.FinishSetup | openairplay1/src/session.rs:310-344 | 500 or: start reported, streaming, what was latched sent and forgotten |
| Session.Connection.ReleaseSlot | openairplay1/src/session.rs:413-417 | TEARDOWN's first half frees the slot and reports nothing |
| Session.Connection.EndSession | openairplay1/src/session.rs:566-572 | reports the end once per started session and forgets the track |
| Session.Connection.ReportTeardown | openairplay1/src/session.rs:418-420 | TEARDOWN's second half |
| Session.Connection.HandleFlush | openairplay1/src/session.rs:422-434 | reports a flush, streaming or not, and changes nothing else |
| Session.Connection.SendSessionEvent | openairplay1/src/session.rs:551-559 | sends inside a session, latches the latest of each kind outside |
| Session.Connection.HandleVolume | openairplay1/src/session.rs:469-473 | reports the volume, streaming or not |
| Session.Connection.HandleProgress | openairplay1/src/session.rs:484-513 | keeps the track and reports the position only while streaming |
| Session.Connection.Drop | openairplay1/src/session.rs:581-586 | reports the end before the slot is freed |
| Session.LatestIsLatched | openairplay1/src/session.rs:548-559 | over any history before a start, only the latest metadata and artwork are kept and only volume and flush events are sent |
| Session.LatchedIsReplayedOnce | openairplay1/src/session.rs:338-344 | at the start they follow at once, in that order, and nothing stays latched |
| SessionHistory.HistoryIsSaid | openairplay1/src/session.rs:231-586 | over every history of a connection the events are those its requests call for, told without the session's own step: while it streams each description and position at once, volume and flushes always, the latest earlier descriptions right after a start; and the track kept is that of the last position taken |
| SessionHistory.AnsweredByStanding | openairplay1/src/session.rs:231-442 | each request is answered with the status its standing calls for: 200, 400, 453, 455, 500 or the refusal |
| SessionHistory.MillisSpan | openairplay1/src/session.rs:588-594 | frames become milliseconds rounded down, and none without a rate |
| Session.TurnsIffNeverRestarted | openairplay1/src/session.rs:565-572 | over any history of a connection, starts and ends take turns, each start ended once, exactly if no SETUP finishes on a session that already streams |
| Session.RestartedEndsOnce | openairplay1/src/session.rs:333-338 | a history with two starts and one end |
| SessionServer.AlwaysExclusive | openairplay1/src/session.rs:36-62 | in every run the flag is set exactly if some session holds the slot, only one does, and whoever streams holds it until its own TEARDOWN |
| SessionServer.SetupRefusedIff | openairplay1/src/session.rs:282-291 | SETUP is refused with 453 exactly if another connection holds the slot |
| SessionServer.FailedSetupKeepsSlot | openairplay1/src/session.rs:283-301 | over every continuation in which it does not tear down or disconnect, a session whose SETUP failed on its transport keeps the slot, nobody else streams but on the way out, and every other announced connection's SETUP gets 453 |
| SessionServer.StepKeepsOrder | openairplay1/src/session.rs:411-572 | every step but a start inside another's TEARDOWN keeps the log bracketed and its open interval that of the streaming session |
| SessionServer.RaceBreaksOrder | openairplay1/src/session.rs:417-418 | a start inside another's TEARDOWN always breaks it |
| SessionServer.BracketedIffRaceFree | openairplay1/src/session.rs:283-420 | a run's events are bracketed (own interval, no overlap, one end each) exactly if no such start occurs |
| SessionServer.AtomicTeardownsBracket | openairplay1/src/session.rs:412-421 | with TEARDOWN in one piece every run is bracketed |
| SessionServer.TeardownCanOverlap | openairplay1/src/session.rs:417-418 | a run of two senders whose intervals overlap |
| SessionServer.RaceHidesStream | openairplay1/src/session.rs:417-418 | a run after which no interval is open although a session streams |
| Asked.StatedIsAsked | openairplay1/src/session.rs:338-344 | in every run without a start inside another's TEARDOWN, what the events state of a streaming connection is what it was last asked to show since its previous session ended, and what any other was last asked is latched |
| Protocol.SnapshotCell.Apply | openairplay1-dashboard-protocol/src/lib.rs:165-220 | overwrites exactly the fields the message states |
| Protocol.WrittenAgree | openairplay1-dashboard-protocol/src/lib.rs:165-220 | changes set what they write to values of their own and leave the rest alone |
| Protocol.FoldIdempotent | openairplay1-dashboard-protocol/src/lib.rs:162-164 | folding a list of changes twice is folding it once |
| Protocol.SuffixAbsorbed | openairplay1-receiver/src/dashboard.rs:154-158 | replaying any suffix of the history on the snapshot of all of it changes nothing |
| Protocol.NowPlaying.Apply | openairplay1-dashboard/src/tui.rs:118-124 | an update changes the connection or is shown |
| Protocol.NowPlaying.ApplyMessage | openairplay1-dashboard/src/tui.rs:126-179 | shows a message, ignoring flushes and keeping the volume past the end |
| Protocol.NowPlaying.ApplySnapshot | openairplay1-dashboard/src/tui.rs:183-202 | replaces all but the connection |
| Protocol.ShowsStep | openairplay1-dashboard/src/tui.rs:126-202 | every message keeps display and snapshot in agreement, and a snapshot establishes it |
| Protocol.ShowsRun | openairplay1-dashboard/src/tui.rs:126-202 | so over any messages: same name, session, track, artwork, and the same volume and position whenever they are known |
| Protocol.DiffersIffLingers | openairplay1-dashboard/src/tui.rs:154-176 | after any messages on top of agreement, display and snapshot differ on position or volume exactly if the server was told to forget a value last given and nothing has decided it since; the display shows one exactly if the last message to decide it gave it |
| Protocol.LinksAndMessages | openairplay1-dashboard/src/tui.rs:118-124 | over any updates the connection shown is the last link's, and the rest what the messages alone would show |
| Fanout.SnapshotCovers | openairplay1-receiver/src/dashboard.rs:154-171 | a snapshot put on the socket, followed by all the channel still owes, folds to the server's snapshot |
| Fanout.StepKeeps | openairplay1-receiver/src/dashboard.rs:66-73 | every step of publisher, channel or client keeps each client's pending messages folding to the server's snapshot |
| Fanout.RunKeeps | openairplay1-receiver/src/dashboard.rs:149-184 | so over every interleaving |
| Fanout.Convergence | openairplay1-receiver/src/dashboard.rs:149-184 | in every run a client with its snapshot and no unresolved lag, and its display, end up with the server's snapshot |
| Fanout.DrainedMirrors | openairplay1-receiver/src/dashboard.rs:3-6 | with nothing on its way a client is the server's mirror |
| Fanout.ClientProgress | openairplay1-receiver/src/dashboard.rs:163-183 | each own step leaves a client less to do, lag and resync included |
| Fanout.NoTurnIff | openairplay1-receiver/src/dashboard.rs:163-183 | a client has no step left exactly if it has everything that was sent and nothing on its way |
| Fanout.BehindIff | openairplay1-receiver/src/dashboard.rs:33-35 | a client is told that it fell behind exactly if more than 64 messages wait for it, and goes on with the oldest 64 |
| Fanout.HearsOnlyNew | openairplay1-receiver/src/dashboard.rs:154-158 | a client is only ever handed messages sent after it subscribed; earlier ones reach it in its snapshot |
| Fanout.CatchesUp | openairplay1-receiver/src/dashboard.rs:14-16 | from every reachable quiet state a served client mirrors the server within a bounded number of its own steps |
| Fanout.MirrorDiffersIff | openairplay1-receiver/src/dashboard.rs:149-184 | in every run, lag, overflow and resync included, a client with nothing on its way differs from the server on position or volume exactly if it lingers in its latest snapshot and the messages handed over after it, replayed ones among them |
| Fanout.DisplayKeepsPosition | openairplay1-dashboard/src/tui.rs:164-168 | a run after which a client with nothing on its way shows a position and the server knows none |
| Fanout.DisplayKeepsVolume | openairplay1-dashboard/src/tui.rs:169-176 | a run after which it still shows the volume of a session that has ended |
| EndToEnd.Publisher.Publish | openairplay1-receiver/src/dashboard.rs:66-73 | applies, then sends |
| EndToEnd.PublishAll | openairplay1-receiver/src/main.rs:235-246 | publishing a log leaves the snapshot at its fold and has sent exactly its messages |
| EndToEnd.SnapshotFollowsLog | openairplay1-receiver/src/dashboard.rs:66-119 | the snapshot has the session, track, artwork and volume last stated since the previous session ended, a session exactly while an interval is open, and the elapsed time and duration last reported since a flush or an end |
| Events.StatedByOwner | openairplay1/src/session.rs:333-344 | in bracketed events the start, metadata and artwork last stated were all sent by the session whose interval is open |
| Events.CarriesSame | openairplay1/src/player.rs:262 | position reports of the playback thread, wherever they fall on the channel, change nothing that is stated but the position |
| EndToEnd.ArtworkArrives | openairplay1-dashboard/src/tui.rs:298-312 | encoded and decoded by the same rules, the picture shown is byte for byte the one sent, and none exactly if it was cleared or never sent |
| EndToEnd.DashboardFollowsLog | openairplay1-receiver/src/dashboard.rs:1-16 | for every published channel, position reports among its events, a drained dashboard shows the format and peer of the open interval's last start, the track, artwork and volume last stated, and the position last reported |
| EndToEnd.DashboardShowsTheStream | openairplay1-receiver/src/dashboard.rs:1-16 | requests, sessions, fan-out and display together: in every run without a start inside another's TEARDOWN, a drained dashboard shows a session exactly while a connection streams, with that connection's format and peer and the track and artwork it was last asked to show, and the position last reported |
| EndToEnd.RaceBlanksDashboard | openairplay1/src/session.rs:417-418 | a run with such a start after which every drained dashboard shows no session although one streams |
| Dmap.WalkVisitsEncoded | openairplay1/src/dmap.rs:48-62 | walking an encoded list, followed by anything too short for an entry, visits exactly that list |
| Dmap.WalkIsFaithful | openairplay1/src/dmap.rs:51-62 | every input is the encoding of what is visited plus an incomplete end |
| Dmap.WalkSlice | openairplay1/src/dmap.rs:51-62 | the moving slice visits exactly the entries of the walk |
| Dmap.ReadContainer | openairplay1/src/dmap.rs:33-42 | a container's fields override earlier ones of the same tag |
| Dmap.TagCodes | openairplay1/src/dmap.rs:32-39 | the four tag codes, letter by letter |
| Dmap.BigEndian | openairplay1/src/dmap.rs:54 | lengths are big-endian |
| Dmap.LastOfIff | openairplay1/src/dmap.rs:35-41 | the value of a tag is the payload of the entry with it that no other follows |
| Dmap.LaterContainerWins | openairplay1/src/dmap.rs:31-44 | a later container overrides what it states and nothing else |
| Dmap.Parse | openairplay1/src/dmap.rs:29-46 | the last value of each wanted tag over all containers, and nothing exactly if there is no container |
| Dmap.StatementRoundTrip | openairplay1/src/dmap.rs:12-46 | what a sender states in one container is what is parsed, whatever incomplete bytes follow |
| Rtsp.Reader.NextLine | openairplay1/src/rtsp.rs:106-118 | a line without its line ends, the end of the stream, or a line that is not text |
| Rtsp.Reader.NextHeaders | openairplay1/src/rtsp.rs:69-84 | the header block up to its blank line, at most 128 of them |
| Rtsp.Reader.NextBody | openairplay1/src/rtsp.rs:86-96 | the body the first Content-Length announces, or the refusal of a bad, too large or cut one |
| Rtsp.Reader.Next | openairplay1/src/rtsp.rs:46-104 | one request, consuming exactly its bytes, or the end, or the error |
| Rtsp.ReadPrintedLine | openairplay1/src/rtsp.rs:106-118 | a printed line reads back and nothing more is consumed |
| Rtsp.RequestLineIff | openairplay1/src/rtsp.rs:56-67 | a line starts a request exactly if it is a nonempty method, a URI and an RTSP version, split at its first two spaces |
| Rtsp.TrimIsExact | openairplay1/src/rtsp.rs:83 | trimming takes away the white space on both sides, all of it and nothing else |
| Rtsp.GetLengthIff | openairplay1/src/rtsp.rs:28-33 | the lookup finds the value of the first header named Content-Length in any case, or none if there is none |
| Rtsp.ParseSizeIff | openairplay1/src/rtsp.rs:87-90 | a length is read exactly from the decimal digits of a number below 2^64, after zeros and a plus sign if any, as that number |
| Rtsp.HeadersReadBack | openairplay1/src/rtsp.rs:69-84 | a printed header block reads back |
| Rtsp.RequestReadsBack | openairplay1/src/rtsp.rs:44-104 | a printed request reads back whatever follows it, consuming exactly its bytes |
| Rtsp.RestIsShorter | openairplay1/src/rtsp.rs:77-95 | every accepted request, from any stream, has at most 128 headers, a body of at most 8 MiB and exactly the length its first Content-Length denotes, and consumes something |
| Rtsp.TruncatedIsRefused | openairplay1/src/rtsp.rs:94-95 | a request cut off inside its body is refused as such |
| Rtsp.TooLargeIsRefused | openairplay1/src/rtsp.rs:91-93 | one that announces more than 8 MiB is refused as bad data |
| Rtsp.HeadersAreRefused | openairplay1/src/rtsp.rs:71-82 | after any headers, the end of the stream, a line that is not text or has no colon, or a 129th header is refused |
| Rtsp.StartIsRefused | openairplay1/src/rtsp.rs:56-67 | a first line that is not text or starts no request, and bad headers, are bad data |
| Rtsp.FramingRoundTrip | openairplay1/src/rtsp.rs:1-3 | reading the concatenated printed form of any well-formed requests yields exactly these, then the end |
| Rtsp.ReadConnection | openairplay1/src/rtsp.rs:46-104 | the loop over one reader reads exactly the transcript of its stream |
| Rtsp.EndsIff | openairplay1/src/rtsp.rs:50-54 | reading ends without a request or an error exactly at the end of the stream or where a blank line stands in a request's place |
| Rtsp.BlankLineEndsConnection | openairplay1/src/rtsp.rs:50-54 | a blank line after any requests ends the connection; what follows is never read |

## Left out

- Decryption, ALAC decoding, base64 and the UTF-8 check are parameters: any function will do.
- RTP packet layouts, SDP and transport parsing, RSA and the password gate: the model starts from their results.
- Sockets, JSON, WebSocket handshake and pings: only first-in-first-out delivery and the oldest-dropped channel are modelled. A NaN volume, which JSON cannot carry, is outside the model's `real`.
- `unwrap_or_default` and other fallbacks for serialization that cannot fail; the unwrapping of v4-mapped peer addresses.
- Avahi, command line, logging, ALSA output, gain and drift correction: foreign calls.
- Terminal probing, image escapes and screen layout: user interface.
- Floating-point durations: positions are exact frame counts, seconds and milliseconds are exact divisions.
- Clocks and sleeping: the current time is an input, and `Wait` in the sink's log stands for the sleep.
- The stop flag of the playback thread is the number of receives before it is seen.
- `Position` events of the playback thread are not in the sessions' log: the bracketing laws are about what a session itself sends, since the thread may outlive it on the drop path. The dashboard laws let these events fall anywhere on the channel and state them by their own values.
- SET_PARAMETER bodies with several lines are separate requests; a body without a DMAP container sends nothing and is no request.
- Resend.FirstReportIsRequested: an empty report leaves the tracker untouched, so a number that vanished and returned may wait for an earlier request's 80 ms; the law is for a first report.
- Clock.OffsetError: assumes correctly paired exchanges; the timing task pairs any reply with the latest departure (`openairplay1/src/session.rs:889-915`), which is not part of this model.
- Clock.ClockModel.PlayTime: requires a positive sample rate, as the code divides by it.
- Clock.PlayTimeError: states the instant as a signed number; that it is the returned 64-bit value is stated for instants within that range.
- Dmap.Parse: keeps payloads as bytes, where the code converts them to text lossily.
- Rtsp.FramingRoundTrip: trims ASCII white space; the code's `trim` also knows white space outside ASCII.
- JitterRuns.ReorderingIsInvisible: arrivals lie within half a circle behind the first gap, beyond which a 16-bit number means a later position.
