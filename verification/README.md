# Verified model of the Ableton Link core in tidal-link

This project models the tempo and phase synchronisation library that tidal-link vendors
(`tidal-link/link/include/ableton`) and proves what it promises. `dafny verify dfyconfig.toml`
checks everything.

## What is modelled

- **Numbers.** Beats are integer micro-beats, times integer microseconds, tempos exact reals
  that act through their integer microseconds per beat, written M below. `llround` is rounding
  to nearest with ties away from zero (`Rounding`), and C++ `%` truncates. `Timelines`,
  `Phases` and `ClientSessionTimelines` are the conversions and mappings built on that.
  A transform between host and ghost time has slope 1 and is its intercept.
- **What applications do.** `SessionStates` sets the tempo, and forces or requests a beat at a time.
- **The session protocol.** `LinkProtocol` is the whole of one peer as a state machine on
  plain values: cache of sighted peers, registry of sessions, controller state, and every event
  that can happen to them. `ProtocolTheorems` proves what holds over whole runs, `StartStops` what
  becomes of starting and stopping, and `Histories` what cache and registry hold after any run.
  The classes in `Peers`, `Sessions` and `Controllers` keep the source's vectors and fields, update
  them in place with its algorithms, and each method is proved to take the machine's step.
  `Stranding` adds the measurements under way, which the gateways hold.
- **The triple buffer.** `TripleBuffers` interleaves one writer and one reader at every access
  to memory, and has the object take the steps of that machine. A value is a sequence of words
  that are stored and copied one at a time, so a torn read could be seen. Accesses to the shared word are sequentially consistent.
- **Measurement.** `Measurements` has the measurement, responder and service as objects, and a
  network that loses, repeats and reorders messages between them. Clocks run at one rate and a
  responder's transform stays fixed during a measurement. `Medians` takes `nth_element` by its
  specification, not by any one implementation.
- **The host time filter.** `LinearRegressions` over exact reals and `HostTimeFilters` with its
  ring of 512 points.
- **Messages.** `ByteStreams`, `Payloads`, `PeerStates` and `Messages` are the codecs from bytes
  up to discovery and link messages, and what a peer makes of a discovery message. A parser that
  throws returns `Failed` or `None`.
- **Peer timeouts.** `PeerGateways`: the table sorted by deadline, and its timer.

Clock readings, random ids, the network and the order of callbacks are inputs of the events.

## What the code does not do

For each the project proves exactly when the code does keep the promise, or gives an input for
which it does not.

- `closestPhaseMatch` (Phase.hpp:62-68) misses the nearest match for some odd quanta, since half
  the quantum is rounded up; `nextPhaseMatch` may return x itself, so its "greater than" is "at least".
- A client that changes nothing but the magnitude of its beats, as forcing a beat with a zero quantum
  does (`ForcedWithoutQuantum`), may replace the session timeline above 60 bpm
  (`RenumberedClientKeepsSession`), because the comparison in ClientSessionTimelines.hpp:65-100 goes
  through the client's rounded time origin. A timeline that is not changed at all never gets that
  far (Link.ipp:41-43).
- `shiftClientTimeline` equals its comment only when a beat lasts an odd number of seconds
  (`ShiftExactly`, `ShiftMissed`). It is never off by more than a microsecond (`ShiftWithinMicro`),
  which is why the correction in Link.ipp:248-254 always suffices.
- A session can be left known, unmeasured and with no measurement under way, and the peer then does
  not join it before a reset (`StrandedForGood`, `JoinableExactly`). That happens exactly if the
  launch of its measurement fails at once, because the gateway of its peer is gone or no socket can
  be opened (Sessions.hpp:98-101); if the launch of another session through the same peer destroys
  its measurement (MeasurementService.hpp:85), which never reports; or if the gateway on which it is
  measured closes or is repaired (discovery/PeerGateways.hpp:92 and 133) (`StrandedExactly`).
- `joinSession` flushes a pending realtime change with the new session id and the old timeline,
  which can leave controller and registry with different timelines (`AgreeStep`, `AfterStory`).
  The session's beat origin can then decrease (`BeatOriginNeverDecreasesExactly`).
- The cache filter suppresses timelines without effect exactly while controller and registry agree
  (`FilterHidesNothing`), and start/stop states exactly while none cached in the session is newer
  than the controller's (`StartStopFilterHidesNothing`). A change of session can break the one
  (`AgreeStep`) and the other (`NoNewerStep`).
- For an even number of values `median` may average the wrong upper element, as the second
  `nth_element` is free to move it (`EvenMedianExactly`). The service may well call it with 102.
- Arrays and vectors that end early are accepted (`SessionIdIsPadded`, `CutVectorExactly`).
- "The new session wins" is not transitive, and at exactly 500000 microseconds neither side moves.

## Model

| member | source | states |
|---|---|---|
| Rounding.RoundIsLlRound | tidal-link/link/include/ableton/link/Beats.hpp:35-38 | The integer rounding used everywhere below is `llround` of the exact quotient |
| Rounding.RoundIs | tidal-link/link/include/ableton/link/Tempo.hpp:53-67 | It is the nearest integer and ties go away from zero; no other value has that property |
| Rounding.RoundOdd | tidal-link/link/include/ableton/link/Tempo.hpp:53-67 | Rounding commutes with negation, which is what makes the conversions below exact |
| Timelines.TimeRoundTripError | tidal-link/link/include/ableton/link/Timeline.hpp:44-52 | Time to beats and back is off by at most (M/10^6 + 1)/2 microseconds, M being the microseconds per beat |
| Timelines.TimeRoundTripExact | tidal-link/link/include/ableton/link/Timeline.hpp:44-52 | The trip is exact for every time if and only if M <= 10^6 |
| Timelines.BeatRoundTripExact | tidal-link/link/include/ableton/link/Timeline.hpp:44-52 | Beats to time and back is exact for every beat if and only if M >= 10^6 |
| Timelines.ToBeatsMonotone | tidal-link/link/include/ableton/link/Timeline.hpp:44-47 | Later times never have smaller beats |
| Timelines.WholeBeats | tidal-link/link/include/ableton/link/Timeline.hpp:44-52 | From the origins whole beats last whole multiples of M microseconds, both ways, and every time is given the nearest micro-beat |
| Timelines.WireTempo | tidal-link/link/include/ableton/link/Tempo.hpp:75-88 | A tempo decoded from M microseconds per beat has M microseconds per beat |
| Timelines.WireThenClamp | tidal-link/link/include/ableton/link/ClientSessionTimelines.hpp:31-37 | Sending a tempo of 20 to 999 bpm and clamping what arrives leaves M, hence every conversion, unchanged |
| Timelines.ClampTempo | tidal-link/link/include/ableton/link/ClientSessionTimelines.hpp:31-37 | The tempo ends up in the allowed range, origins are kept, and a tempo in the range is kept |
| Timelines.ClampIsNearest | tidal-link/link/include/ableton/link/ClientSessionTimelines.hpp:31-37 | Of all tempos from 20 to 999 bpm it is the nearest to the one asked for |
| Phases.PhaseIsRemainder | tidal-link/link/include/ableton/link/Phase.hpp:34-49 | `phase` is the Euclidean remainder for beats of either sign, although `%` truncates, and zero for a zero quantum |
| Phases.SamePhaseIsCongruent | tidal-link/link/include/ableton/link/Phase.hpp:34-49 | Two beats have equal phase if and only if they differ by a multiple of the quantum |
| Phases.NextPhaseMatchIsLeast | tidal-link/link/include/ableton/link/Phase.hpp:54-60 | For every quantum, zero included, `nextPhaseMatch` is the least value not below x with the phase of the target |
| Phases.ClosestMatchExactly | tidal-link/link/include/ableton/link/Phase.hpp:65-68 | `closestPhaseMatch` is a value with the phase of the target nearest to x exactly under a stated condition on the distance ahead and the parity of the quantum |
| Phases.ClosestMatchMissed | tidal-link/link/include/ableton/link/Phase.hpp:65-68 | A quantum of three micro-beats for which it is not the nearest |
| Phases.EncodedPhase | tidal-link/link/include/ableton/link/Phase.hpp:76-81 | A phase-encoded beat has the phase counted from the timeline's beat origin, and is within half a quantum, rounded up, of the beat |
| Phases.DecodeEncode | tidal-link/link/include/ableton/link/Phase.hpp:76-97 | Decoding recovers the very micro-beat that was encoded, for every beat, origin and quantum >= 0 |
| Phases.PhaseEncodingRoundTrip | tidal-link/link/include/ableton/link/Phase.hpp:76-97 | Encoding and decoding a time gives the time of its own micro-beat: exact for M <= 10^6 and within (M/10^6 + 1)/2 otherwise |
| ClientSessionTimelines.ClientIsContinuous | tidal-link/link/include/ableton/link/ClientSessionTimelines.hpp:44-62 | The client's beat at the moment of an update from the session does not change by a micro-beat |
| ClientSessionTimelines.ClientKeepsPace | tidal-link/link/include/ableton/link/ClientSessionTimelines.hpp:44-62 | From that moment its beats advance at the session's tempo, within a micro-beat at every time |
| ClientSessionTimelines.UpdateIsIdempotent | tidal-link/link/include/ableton/link/ClientSessionTimelines.hpp:44-62 | Updating again from the same session at any other time leaves the client timeline identical |
| ClientSessionTimelines.PeersShareThePhase | tidal-link/link/include/ableton/link/ClientSessionTimelines.hpp:44-62 | Two peers whose session timelines have one M and one beat zero, whatever their tempos, earlier client timelines, moments and transforms, have equal phases at every ghost time for every quantum |
| ClientSessionTimelines.BeatsNeverGoBack | tidal-link/link/include/ableton/link/ClientSessionTimelines.hpp:44-62 | Through any run of updates at non-decreasing times the client's beat never decreases |
| ClientSessionTimelines.ClientChangeTakesEffect | tidal-link/link/include/ableton/link/ClientSessionTimelines.hpp:65-100 | A client change that alters the session gets a larger beat origin, puts beat 0 at the client's time origin, and maps back at any time to the same client timeline |
| ClientSessionTimelines.RenumberedClientKeepsSession | tidal-link/link/include/ableton/link/ClientSessionTimelines.hpp:65-100 | A client that keeps the derived tempo and time origin and changes the beat's magnitude alone leaves the session alone if and only if the session is at beat 0 at some whole microsecond; otherwise it replaces it with one of larger beat origin |
| ClientSessionTimelines.RenumberedClientKeepsEverySession | tidal-link/link/include/ableton/link/ClientSessionTimelines.hpp:65-100 | That holds for every beat origin if and only if M >= 10^6 |
| ClientSessionTimelines.RenumberedClientReplacesSession | tidal-link/link/include/ableton/link/ClientSessionTimelines.hpp:65-100 | A session at 120 bpm that such a client replaces, whatever it calls the beat |
| ClientSessionTimelines.ShiftError | tidal-link/link/include/ableton/link/ClientSessionTimelines.hpp:102-112 | A shifted client timeline is off the documented value by at most 1 + 10^6/M micro-beats |
| ClientSessionTimelines.ShiftExactly | tidal-link/link/include/ableton/link/ClientSessionTimelines.hpp:102-112 | The documented equality holds for all shifts and times if and only if a beat lasts an odd number of seconds |
| ClientSessionTimelines.ShiftMissed | tidal-link/link/include/ableton/link/ClientSessionTimelines.hpp:102-112 | At 120 bpm a shift by one micro-beat shifts by two |
| SessionStates.ShiftWithinMicro | tidal-link/link/include/ableton/link/ClientSessionTimelines.hpp:102-112 | For every timeline, shift and time the shifted beat lies between the beats of the microsecond before and after with the shift added |
| SessionStates.SetTempoKeepsBeat | tidal-link/link/include/ableton/Link.ipp:180-188 | Setting the tempo keeps the beat at that time within (1 + 10^6/M)/2 micro-beats, and exactly at 60 bpm and below |
| SessionStates.SetTempoKeepsPhase | tidal-link/link/include/ableton/Link.ipp:180-188 | For every quantum the phase-encoded beat at that time is kept within that bound, and with its phase exactly at 60 bpm and below; the beat origin never moves, and the tempo is the one asked for within the limits |
| SessionStates.Forced | tidal-link/link/include/ableton/Link.ipp:228-240 | A forced timeline has, at every time, the requested beat plus what the shift is off |
| SessionStates.ForcedError | tidal-link/link/include/ableton/Link.ipp:228-240 | Forced once, the beat at the time is within 1 + 10^6/M of the requested one |
| SessionStates.ForcedOnceIsExceeded | tidal-link/link/include/ableton/Link.ipp:246-251 | A timeline at 120 bpm that forced once is past the requested beat |
| SessionStates.ForcedBeatIsNotExceeded | tidal-link/link/include/ableton/Link.ipp:242-255 | The one extra microsecond suffices: for every timeline, beat, time and quantum the beat at that time is never past the requested one, and at most 2(1 + 10^6/M) before it |
| SessionStates.ForcedWithoutQuantum | tidal-link/link/include/ableton/Link.ipp:228-255 | With a zero quantum the requested beat is met exactly, and only the beat origin changes |
| SessionStates.RequestedTimeIsInPhase | tidal-link/link/include/ableton/Link.ipp:215-224 | The time chosen is that of the next beat with the phase of the requested one, to (1 + 10^6/M)/2 micro-beats and exactly for M >= 10^6, and is not before the given time but for (M/10^6 + 1)/2 microseconds, exactly for M <= 10^6 |
| SessionStates.InPhaseForceMoves | tidal-link/link/include/ableton/Link.ipp:228-255 | Forcing a beat where the timeline is all but in phase with it moves the time origin by at most 4.5 (M/10^6 + 1) microseconds, second force included |
| SessionStates.RequestKeepsPhase | tidal-link/link/include/ableton/Link.ipp:214-226 | A beat requested with the quantum respected is not exceeded at the time chosen, is at most 2(1 + 10^6/M) away, and moves the grid of beats by no more than that |
| SessionStates.RequestKeepsSessionPhase | tidal-link/link/include/ableton/Link.ipp:214-226 | Nor does it move the session's beat zero by more, once it is handled, if the client followed the session |
| SessionStates.RequestAlone | tidal-link/link/include/ableton/Link.ipp:214-226 | Without other peers a requested beat is had at the very time given, not exceeded and at most 2(1 + 10^6/M) away |
| LinkProtocol.InvAlongRun | tidal-link/link/include/ableton/link/Peers.hpp:83-112 | Over every run of sightings, departures, measurements, switches, local changes and resets: each cached peer's session is known, the recorded beat origin is at least the cached one, and the current session is never among the others |
| LinkProtocol.InvStep | tidal-link/link/include/ableton/link/Sessions.hpp:70-241 | Every event keeps that invariant |
| LinkProtocol.InitialInv | tidal-link/link/include/ableton/link/Controller.hpp:126-180 | A new controller satisfies it |
| ProtocolTheorems.FilterHidesNothing | tidal-link/link/include/ableton/link/Peers.hpp:191-256 | A sighting suppressed because its timeline is already cached could not have changed the registry, nor anything else if and only if the controller agrees with its registry |
| ProtocolTheorems.AgreeStep | tidal-link/link/include/ableton/link/Controller.hpp:507-528 | The controller's session timeline and the registry's stay equal across an event if and only if the event is not a switch that flushes a pending change leading to another timeline |
| ProtocolTheorems.CalmRunsAgree | tidal-link/link/include/ableton/link/Controller.hpp:507-528 | Over a whole run controller and registry agree after every event if and only if no switch flushes a pending change to another timeline than the one joined |
| ProtocolTheorems.FilterStep | tidal-link/link/include/ableton/link/Peers.hpp:191-256 | For one event the machine that filters timelines and start/stop states and the one that tells them all differ if and only if a timeline is suppressed while controller and registry disagree, or a start/stop state that is news |
| ProtocolTheorems.FilteredRunIsUnfiltered | tidal-link/link/include/ableton/link/Peers.hpp:191-256 | Over every run without a switch that loses the agreement or brings a newer start/stop state, both machines reach the same state |
| ProtocolTheorems.StartStopFilterHidesNothing | tidal-link/link/include/ableton/link/Peers.hpp:191-256 | No cached start/stop state of the session is newer than the controller's if and only if there is no sighting of which the filter would hide a start/stop state that makes a difference |
| ProtocolTheorems.NoNewerStep | tidal-link/link/include/ableton/link/Controller.hpp:507-528 | Every event keeps that, except exactly a switch to a session of which a start/stop state later than zero is cached |
| ProtocolTheorems.BeatOriginNeverDecreases | tidal-link/link/include/ableton/link/Sessions.hpp:223-241 | Within one session its beat origin never decreases over any run from a state in which the registry's is not smaller |
| ProtocolTheorems.BeatOriginNeverDecreasesExactly | tidal-link/link/include/ableton/link/Sessions.hpp:223-241 | It never decreases over any run within the session if and only if it starts out not larger than the registry's |
| ProtocolTheorems.StartStopNeverGoesBack | tidal-link/link/include/ableton/link/Controller.hpp:418-443 | Within one session the start/stop timestamp never decreases over any run |
| ProtocolTheorems.FoldIsMaximum | tidal-link/link/include/ableton/link/Sessions.hpp:223-241 | Folding timelines in any order with repeats yields one of them, of maximal beat origin |
| ProtocolTheorems.SightingsFold | tidal-link/link/include/ableton/link/Sessions.hpp:83-110 | A run of sightings in any session, departures, measurements and other events that only listen leaves the fold of what was sighted in the session, although the cache filters some of it, and the controller with the same if it agreed |
| ProtocolTheorems.HeardIsSameOnWire | tidal-link/link/include/ableton/link/Tempo.hpp:75-88 | A timeline heard over the wire has the M and origins of the one sent, after clamping |
| ProtocolTheorems.HeardIsNotEqual | tidal-link/link/include/ableton/link/Tempo.hpp:75-88 | But 123 bpm arrives as another tempo |
| ProtocolTheorems.SameOnWireConverts | tidal-link/link/include/ableton/link/Timeline.hpp:44-52 | Timelines that are the same on the wire map every beat and time alike |
| ProtocolTheorems.ChangeReachesPeer | tidal-link/link/include/ableton/link/Controller.hpp:445-460 | A client's change at one peer, heard by another over the wire, gives that the same timeline on the wire unless it knows one that outranks it |
| ProtocolTheorems.PeersConverge | tidal-link/link/include/ableton/link/Sessions.hpp:83-110 | Two peers of which neither lacks a timeline that the other has or sights, up to what the wire keeps, end with registry timelines that are the same on the wire, and controllers' if they agree; given that equal beat origins mean the same on the wire |
| ProtocolTheorems.InitialFollows | tidal-link/link/include/ableton/link/Controller.hpp:126-180 | A new controller is at beat zero of a session of its own at the time it starts, with the tempo asked for within the limits, stopped, and its client has the session's M and beat zero |
| ProtocolTheorems.FollowsStep | tidal-link/link/include/ableton/link/Controller.hpp:366-402 | After a sighting, measurement, join, reset or handled client state the client has the session's M and beat zero if and only if it had them before or the session's timing has changed |
| ProtocolTheorems.ChangeIsFollowed | tidal-link/link/include/ableton/link/Controller.hpp:445-460 | A client's timeline that is set and handled either becomes the session's, with its tempo and beat zero, and outranks what was from the session's beat at the time of the change or one micro-beat on; or leaves the session alone, has its tempo and is at its beat zero to the micro-beat |
| ProtocolTheorems.FollowersShareThePhase | tidal-link/link/include/ableton/link/ClientSessionTimelines.hpp:44-62 | Two clients that follow session timelines of one wire form have equal phases at every ghost time for every quantum |
| ProtocolTheorems.ConvergedPeersShareThePhase | tidal-link/link/include/ableton/link/Sessions.hpp:83-110 | Listening peers that converge end up in phase at every ghost time and for every quantum, the one that set the tempo with those that heard it |
| ProtocolTheorems.SwitchConserves | tidal-link/link/include/ableton/link/Sessions.hpp:132-182 | A measurement conserves the set of known sessions, and moves the peer exactly when the measured session is another one and wins |
| ProtocolTheorems.PeersNeverSwap | tidal-link/link/include/ableton/link/Sessions.hpp:158-164 | Of two peers in different sessions with exact transforms never both move: the one whose session is behind does if it is by more than 500000 microseconds, by less the one with the larger id, and at exactly that neither |
| ProtocolTheorems.PreferenceIsNotTransitive | tidal-link/link/include/ableton/link/Sessions.hpp:158-164 | Three sessions that win over one another in a circle |
| ProtocolTheorems.SessionEventKeepsBeats | tidal-link/link/include/ableton/link/Controller.hpp:366-402 | No sighting, measurement, join or reset moves the client's beat at its moment, and no other event that leaves the client's timeline to the session touches it |
| ProtocolTheorems.ClientBeatsNeverGoBack | tidal-link/link/include/ableton/link/Controller.hpp:366-402 | Over any run at non-decreasing times in which the client does not change its own timeline, with sightings, joins, resets, departures and failures in it, the client's beat never goes back |
| ProtocolTheorems.ResetIsContinuous | tidal-link/link/include/ableton/link/Controller.hpp:530-552 | The new session has the tempo of the old one and its beat at every host time, within a micro-beat and exactly at the first clock reading; the client's beat is kept at the second |
| ProtocolTheorems.ResetForgets | tidal-link/link/include/ableton/link/Controller.hpp:530-552 | Node and session get the new id, peers, other sessions and the session's start/stop state are forgotten, and what the client has, and has pending, is kept |
| ProtocolTheorems.AfterStory | tidal-link/link/include/ableton/link/Controller.hpp:507-528 | The state after a switch with a pending change: controller and registry hold different timelines of the new session |
| ProtocolTheorems.BeatOriginCanDecrease | tidal-link/link/include/ableton/link/Controller.hpp:507-528 | In that state a sighting lowers the session's beat origin |
| ProtocolTheorems.StartStopStaysHidden | tidal-link/link/include/ableton/link/Controller.hpp:507-528 | In that state a newer start/stop state already cached stays hidden |
| ProtocolTheorems.AStory | tidal-link/link/include/ableton/link/Controller.hpp:507-528 | Such a run exists |
| StartStops.LatestIsHeld | tidal-link/link/include/ableton/link/Controller.hpp:78-85 | After any number of start/stop states that the client sets it holds one of them, or the one before, and none of them is later |
| StartStops.StartIsTaken | tidal-link/link/include/ableton/link/Controller.hpp:240-257 | A start or stop that is later than what client and session know is the client's, and once handled the session's at the beat of its time |
| StartStops.RealtimeIsDirect | tidal-link/link/include/ableton/link/Controller.hpp:487-505 | A realtime change has the effect of one that is set and handled directly |
| StartStops.LastPushedIsPending | tidal-link/link/include/ableton/link/Controller.hpp:578-617 | Of what the realtime thread pushes before it is processed the last timeline and the last start/stop state are pending, whether or not they came together |
| StartStops.StartStopThereAndBack | tidal-link/link/include/ableton/link/Controller.hpp:87-106 | A client's start/stop state mapped to the session and back keeps its flag and timestamp, and its time up to rounding, exactly for M <= 10^6 |
| StartStops.StartReachesPeer | tidal-link/link/include/ableton/link/Controller.hpp:418-485 | From one application to another: a start or stop that is set as later than what is known makes the client of a peer that hears it and takes part start or stop at the same ghost time to (M/10^6 + 1)/2 microseconds, unless that knows a state as new |
| StartStops.SyncOffKeepsClient | tidal-link/link/include/ableton/link/Controller.hpp:386-394 | The client of a peer that takes no part keeps its start/stop state whatever the session does |
| StartStops.SyncOffKeepsSession | tidal-link/link/include/ableton/link/Controller.hpp:461-477 | Nor does that client start or stop the session, whatever it sets |
| StartStops.SyncOffRelays | tidal-link/link/include/ableton/link/Controller.hpp:427-432 | Such a peer goes on in all else as one that takes part, so that it relays what it hears |
| StartStops.ClientIsTold | tidal-link/link/include/ableton/link/Controller.hpp:383-442 | A client that takes part is told the session's start/stop state exactly when a new one is heard or the session's timing changes, and keeps its own otherwise |
| StartStops.MirrorsStep | tidal-link/link/include/ableton/link/Controller.hpp:366-485 | Unless the session has none, session and client of a peer that takes part agree on playing and its timestamp, after every event of the session and every state handled |
| StartStops.MirrorsSet | tidal-link/link/include/ableton/link/Controller.hpp:240-257 | So they do after whatever start or stop the client sets, taken or not, is handled |
| Histories.CacheIsLastSightings | tidal-link/link/include/ableton/link/Peers.hpp:100-289 | After any run from an empty cache it holds, for each peer and gateway, exactly the last sighting that neither a departure, nor the closing of its gateway, nor the loss of its session, nor a reset has ended |
| Histories.RecordedStep | tidal-link/link/include/ableton/link/Sessions.hpp:83-241 | An event from the network records a sighted timeline for its session if that is new or outranks what is recorded, drops a lost session, and leaves every other session's timeline as it is |
| Histories.RecordsFold | tidal-link/link/include/ableton/link/Sessions.hpp:83-241 | Over any run that changes no timeline from this side, switches included, every session, current or not, is recorded with the fold of its sightings |
| Histories.MeasuredKeeps | tidal-link/link/include/ableton/link/Sessions.hpp:132-182 | A measurement, with or without a switch, is recorded for its session and changes nothing else that is known of any session |
| Histories.RemeasuringMarks | tidal-link/link/include/ableton/link/Sessions.hpp:113-130 | Measuring the current session again marks that and changes nothing else |
| Histories.LostIsNewAgain | tidal-link/link/include/ableton/link/Sessions.hpp:197-221 | A session that cannot be measured is forgotten with its peers and no others, and measured as if new at its next sighting, which the cache does not filter |
| Histories.ChangeReachesCache | tidal-link/link/include/ableton/link/Peers.hpp:83-98 | After a client's change no other timeline of the session than the new one is filtered out, and of other sessions none that was not |
| Stranding.UnmeasuredStep | tidal-link/link/include/ableton/link/Sessions.hpp:83-221 | Unless the peer resets, a session becomes known and unmeasured exactly at its first sighting, and ceases to be so exactly when a measurement of it succeeds or fails |
| Stranding.ServiceKeepsPace | tidal-link/link/include/ableton/link/MeasurementService.hpp:75-126 | The measurements under way change for the service of each gateway as its own map does, and vanish with it |
| Stranding.StrandedExactly | tidal-link/link/include/ableton/link/MeasurementService.hpp:75-126 | A session is known, unmeasured and not being measured after an event if and only if it was before, or its launch fails at once, or the launch of another session takes the place of its last measurement, or its last measurements go with their gateway |
| Stranding.StrandedForGood | tidal-link/link/include/ableton/link/Sessions.hpp:83-221 | Over every run without a reset such a session stays so, and the peer does not join it |
| Stranding.JoinableExactly | tidal-link/link/include/ableton/link/Sessions.hpp:132-182 | An unmeasured session can come to be joined by some run without a reset if and only if it is not stranded |
| Stranding.SecondSessionDisplaces | tidal-link/link/include/ableton/link/MeasurementService.hpp:85-87 | Two new sessions announced one after the other and measured through one peer strand the first, though no launch fails |
| SortedVectors.RemoveSorted | tidal-link/link/include/ableton/link/Peers.hpp:283-286 | Removing by any predicate keeps the order |
| SortedVectors.InsertInMap | tidal-link/link/include/ableton/link/Sessions.hpp:94-102 | Inserting a new key anywhere in a vector updates the map that it says |
| Algorithms.UniqueCountIsCardinality | tidal-link/link/include/ableton/link/Peers.hpp:74-81 | Counting runs of equal neighbours in a sorted list counts its distinct elements |
| Peers.Peers.SawPeerOnGateway | tidal-link/link/include/ableton/link/Peers.hpp:191-256 | The list stays strictly sorted by (id, address); the entry is added or replaced; each of the three notifications fires exactly when its combination was not cached before |
| Peers.Peers.PeerLeftGateway | tidal-link/link/include/ableton/link/Peers.hpp:258-277 | Exactly that peer on that gateway is removed, and membership changes exactly if it was there |
| Peers.Peers.GatewayClosed | tidal-link/link/include/ableton/link/Peers.hpp:279-289 | Exactly the entries of the gateway are removed, and membership is reported as changed |
| Peers.Peers.Forget | tidal-link/link/include/ableton/link/Peers.hpp:100-107 | Exactly the entries of the session are removed |
| Peers.Peers.SetTimeline | tidal-link/link/include/ableton/link/Peers.hpp:83-98 | The loop sets the timeline of exactly the session's entries and keeps the order |
| Peers.Peers.SessionPeers | tidal-link/link/include/ableton/link/Peers.hpp:64-71 | The entries of the session and no others, in order of id and address |
| Peers.Peers.UniqueSessionPeerCount | tidal-link/link/include/ableton/link/Peers.hpp:73-81 | The number of distinct peer ids in the session |
| Peers.PlacedIs | tidal-link/link/include/ableton/link/Peers.hpp:214-247 | Inserting at the bound found within the id range, or overwriting there, keeps the order and updates one key |
| Peers.MembershipIs | tidal-link/link/include/ableton/link/Peers.hpp:214-230 | The membership test over the id range sees exactly the cached entries of that id in that session |
| Sessions.PeerToMeasure | tidal-link/link/include/ableton/link/Sessions.hpp:113-130 | A session is measured through its founder if sighted, else through the first of its peers, and through none only if it has none |
| Sessions.Sessions.constructor | tidal-link/link/include/ableton/link/Sessions.hpp:54-68 | Starts with the one session |
| Sessions.Sessions.ResetSession | tidal-link/link/include/ableton/link/Sessions.hpp:70-74 | Only the given session is known |
| Sessions.Sessions.LaunchSessionMeasurement | tidal-link/link/include/ableton/link/Sessions.hpp:113-130 | A launch takes the place of a measurement through the same peer; one that fails at once changes nothing for a session not yet known, and has the current one measured again later |
| Sessions.Sessions.Saw | tidal-link/link/include/ableton/link/Sessions.hpp:83-130 | The registry takes the protocol's step and stays strictly sorted without the current session; exactly a new session with peers is measured, which displaces what was measured through the same peer if it gets under way |
| Sessions.Sessions.HandleSuccessfulMeasurement | tidal-link/link/include/ableton/link/Sessions.hpp:132-182 | The registry takes the protocol's step and keeps its order through the swap; a join is called exactly for the current or a winning session, and remeasurement is scheduled exactly for the latter; the measurement ends |
| Sessions.Sessions.HandleFailedMeasurement | tidal-link/link/include/ableton/link/Sessions.hpp:197-221 | Another session is dropped with its cached peers; the current one is kept and scheduled to be measured again; the measurement, if it ran, ends |
| Sessions.Sessions.Remeasure | tidal-link/link/include/ableton/link/Sessions.hpp:184-195 | The current session is marked and measured if it has peers, and the timer is set again in any case |
| Controllers.Controller.constructor | tidal-link/link/include/ableton/link/Controller.hpp:126-180 | Starts in the protocol's initial state |
| Controllers.Controller.UpdateSessionTiming | tidal-link/link/include/ableton/link/Controller.hpp:366-402 | The session's timing and the client's timeline and start/stop state follow, and the tempo that the application knows is the session's |
| Controllers.Controller.SawPeer | tidal-link/link/include/ableton/link/Peers.hpp:191-256 | A sighting goes through cache, registry, controller and measurements as one step of the protocol, keeps the invariant, and leaves the gateways announcing the session as it then is; a new session, and no other, is measured through a cached peer in it |
| Controllers.Controller.PeerLeft | tidal-link/link/include/ableton/link/Peers.hpp:258-277 | The protocol's step for a departure, with the invariant; membership changes exactly if the peer was cached on that gateway |
| Controllers.Controller.SetClientState | tidal-link/link/include/ableton/link/Controller.hpp:240-257 | The client's own state takes the clamped timeline and the newer start/stop state, and those are what is to be handled later |
| Controllers.Controller.HandleClientState | tidal-link/link/include/ableton/link/Controller.hpp:445-485 | Timeline and start/stop state are handled as the protocol says, with the invariant, and the start/stop callback is up to date; what has changed is announced |
| Controllers.Controller.ProcessPendingClientStates | tidal-link/link/include/ableton/link/Controller.hpp:487-505 | What is pending is handled once, an older start/stop state not at all, and is then no longer pending |
| Controllers.Controller.Enable | tidal-link/link/include/ableton/link/Controller.hpp:191-209 | Enabling is the processing of what is pending and then a reset |
| Controllers.Controller.JoinSession | tidal-link/link/include/ableton/link/Controller.hpp:507-528 | Flushes what is pending after the session id has changed, forgets the start/stop state, and adopts the session's timing, which is announced |
| Controllers.Controller.MeasurementSucceeded | tidal-link/link/include/ableton/link/Sessions.hpp:132-182 | Measurement, possible switch and join are one protocol step, with the invariant, and end the measurement |
| Controllers.Controller.MeasurementFailed | tidal-link/link/include/ableton/link/Sessions.hpp:197-221 | So is a failure |
| Controllers.Controller.GatewayClosed | tidal-link/link/include/ableton/link/Peers.hpp:279-289 | A closed gateway takes its peers and its measurements with it, and nothing else |
| Controllers.Controller.ResetState | tidal-link/link/include/ableton/link/Controller.hpp:530-552 | The protocol's reset, with the invariant; the new session is announced |
| Controllers.Controller.Remeasure | tidal-link/link/include/ableton/link/Sessions.hpp:184-195 | The protocol's remeasurement step, through a peer in the session, exactly if some cached peer is in it |
| Controllers.Controller.CountSessionPeers | tidal-link/link/include/ableton/link/Controller.hpp:646-661 | The count told is the number of distinct peers in the session; it is told exactly when it changes, and calls for a reset exactly when it drops to zero |
| TripleBuffers.PackedWord | tidal-link/link/include/ableton/link/TripleBuffer.hpp:95-111 | Index and flag packed into one word are read back from it |
| TripleBuffers.InvAlongRun | tidal-link/link/include/ableton/link/TripleBuffer.hpp:54-93 | The invariant of the interleaved machine holds in every reachable configuration |
| TripleBuffers.NoSlotIsShared | tidal-link/link/include/ableton/link/TripleBuffer.hpp:54-93 | In every interleaving writer, shared word and reader own the three slots in some order, and the slot being written is never the one being read |
| TripleBuffers.NoReadIsTorn | tidal-link/link/include/ableton/link/TripleBuffer.hpp:54-68 | Although values are stored and copied word by word, every read returns the whole value of one write |
| TripleBuffers.ReadsAreOrdered | tidal-link/link/include/ableton/link/TripleBuffer.hpp:54-115 | Reads never go back; each is at least as new as the last write published at its load; no write is delivered as new twice |
| TripleBuffers.FlagSurvivesUntilExchange | tidal-link/link/include/ableton/link/TripleBuffer.hpp:81-93 | The flag that a load saw is still set at the reader's exchange, and the slot taken holds the latest published write |
| TripleBuffers.QuietReadIsLatest | tidal-link/link/include/ableton/link/TripleBuffer.hpp:54-93 | With nothing published during a read and no write in progress, the read returned the last value written |
| TripleBuffers.EmptyReadExactly | tidal-link/link/include/ableton/link/TripleBuffer.hpp:60-67 | In every interleaving a `readNew` comes back empty exactly when every published write has been read, and a `read` never |
| TripleBuffers.ReadIsDelivered | tidal-link/link/include/ableton/link/TripleBuffer.hpp:54-93 | A read that goes on ends with one more record, of a write at least as late as the last published at its load, and new exactly if that had not been read |
| TripleBuffers.OperationsAreWaitFree | tidal-link/link/include/ableton/link/TripleBuffer.hpp:54-93 | Neither thread ever waits: until an operation has ended it has a step to take, each brings it nearer to its end, and those of the other thread do not take it back |
| TripleBuffers.TripleBuffer.constructor | tidal-link/link/include/ableton/link/TripleBuffer.hpp:38-52 | Starts in the machine's initial configuration |
| TripleBuffers.TripleBuffer.StoreWord | tidal-link/link/include/ableton/link/TripleBuffer.hpp:72 | One word of the writer's slot changes, as in the machine |
| TripleBuffers.TripleBuffer.SwapIn | tidal-link/link/include/ableton/link/TripleBuffer.hpp:74-75 | The writer's exchange, as in the machine |
| TripleBuffers.TripleBuffer.TakeOut | tidal-link/link/include/ableton/link/TripleBuffer.hpp:87-88 | The reader's exchange, as in the machine |
| TripleBuffers.TripleBuffer.Write | tidal-link/link/include/ableton/link/TripleBuffer.hpp:69-78 | Takes the machine's steps of one write, and with nothing in between the value is the last of its log |
| TripleBuffers.TripleBuffer.LoadReadBuffer | tidal-link/link/include/ableton/link/TripleBuffer.hpp:81-93 | Takes the machine's steps up to the first word copied, or to its end if the read comes back empty |
| TripleBuffers.TripleBuffer.CopyOut | tidal-link/link/include/ableton/link/TripleBuffer.hpp:54-67 | Takes the machine's steps from the first word to the end of the read, and records it |
| TripleBuffers.TripleBuffer.Read | tidal-link/link/include/ableton/link/TripleBuffer.hpp:54-58 | Takes the machine's steps of one read, and with nothing in between returns the last value of its log |
| TripleBuffers.TripleBuffer.ReadNew | tidal-link/link/include/ableton/link/TripleBuffer.hpp:60-67 | Returns the last value of the machine's log exactly if it was not read before |
| PeerGateways.WatchedIsLastSeen | tidal-link/link/include/ableton/discovery/PeerGateway.hpp:112-159 | After any history a peer is watched with a deadline if and only if its last sighting set that deadline and it neither left nor was pruned after it |
| PeerGateways.TimedOutExactlyAfterTtl | tidal-link/link/include/ableton/discovery/PeerGateway.hpp:143-159 | A peer is due for pruning if and only if the TTL of its last sighting has elapsed |
| PeerGateways.ExpiredAre | tidal-link/link/include/ableton/discovery/PeerGateway.hpp:147-156 | The front of the vector up to the bound is exactly the expired peers, each once, earliest deadline first |
| PeerGateways.PeerGateway.OnPeerState | tidal-link/link/include/ableton/discovery/PeerGateway.hpp:112-131 | The table is the watched peers, sorted by deadline, one entry each, with the timer armed for a second after the earliest |
| PeerGateways.PeerGateway.OnByeBye | tidal-link/link/include/ableton/discovery/PeerGateway.hpp:133-141 | The peer is removed, and the observer told exactly if it was watched |
| PeerGateways.PeerGateway.PruneExpiredPeers | tidal-link/link/include/ableton/discovery/PeerGateway.hpp:143-159 | Exactly the expired peers are reported and removed, and the timer is armed if any is left |
| LinearRegressions.LinearRegression | tidal-link/link/include/ableton/link/LinearRegression.hpp:31-58 | The loop computes the fit whose properties follow |
| LinearRegressions.DenominatorIsZero | tidal-link/link/include/ableton/link/LinearRegression.hpp:50-54 | The denominator is never negative, and is zero if and only if all x are equal |
| LinearRegressions.NormalEquations | tidal-link/link/include/ableton/link/LinearRegression.hpp:41-57 | The fitted line leaves zero total error and zero error weighted by x, also with a zero denominator |
| LinearRegressions.FitIsOptimal | tidal-link/link/include/ableton/link/LinearRegression.hpp:41-57 | No line has a smaller sum of squared residuals, and unless all x are equal no other line has the same |
| LinearRegressions.AffineIsRecovered | tidal-link/link/include/ableton/link/LinearRegression.hpp:41-57 | Points on a line with two different x give back that line |
| LinearRegressions.FitOfSameX | tidal-link/link/include/ableton/link/LinearRegression.hpp:51-55 | Points with one x give the horizontal line through the mean |
| LinearRegressions.FitOfRotation | tidal-link/link/include/ableton/link/HostTimeFilter.hpp:69 | The fit does not depend on where the ring is cut |
| HostTimeFilters.HostTimeFilter.constructor | tidal-link/link/include/ableton/link/HostTimeFilter.hpp:38-42 | Starts without samples |
| HostTimeFilters.HostTimeFilter.Reset | tidal-link/link/include/ableton/link/HostTimeFilter.hpp:48-52 | Forgets all samples |
| HostTimeFilters.HostTimeFilter.SampleTimeToHostTime | tidal-link/link/include/ableton/link/HostTimeFilter.hpp:54-74 | The ring always holds exactly the last 512 samples, or all if fewer, and the answer is within half a microsecond of their least-squares line at the sample time |
| HostTimeFilters.RingStep | tidal-link/link/include/ableton/link/HostTimeFilter.hpp:59-67 | Pushing or overwriting at the index keeps the ring equal to the window of the last samples |
| HostTimeFilters.AffineClock | tidal-link/link/include/ableton/link/HostTimeFilter.hpp:54-74 | Once two different sample times are in the window, a clock affine in the sample time is answered within half a microsecond, and exactly where it is at a whole one |
| Medians.NthElement | tidal-link/link/include/ableton/link/Median.hpp:38-44 | A permutation with nothing larger before the index and nothing smaller after it |
| Medians.Median | tidal-link/link/include/ableton/link/Median.hpp:32-47 | In place; returns a value that the two `nth_element` calls allow |
| Medians.MedianWithin | tidal-link/link/include/ableton/link/Median.hpp:32-47 | For either parity the result is within any bounds of the data |
| Medians.OddMedian | tidal-link/link/include/ableton/link/Median.hpp:42-46 | With an odd number the result is the element of middle rank, and no other is possible |
| Medians.OddMedianIsRobust | tidal-link/link/include/ableton/link/Median.hpp:42-46 | If more than half of an odd number of values are in a range, so is the result |
| Medians.EvenMedian | tidal-link/link/include/ableton/link/Median.hpp:36-41 | With an even number the code averages the lower middle element with some element not below it |
| Medians.EvenMedianExactly | tidal-link/link/include/ableton/link/Median.hpp:36-41 | Every outcome is the true median if and only if no element is larger than the upper middle one |
| Measurements.Measurement.constructor | tidal-link/link/include/ableton/link/Measurement.hpp:95-98 | Sends a first ping without a ghost time and arms the timer |
| Measurements.Measurement.OnTimer | tidal-link/link/include/ableton/link/Measurement.hpp:104-118 | Sends again up to five times and then fails; while running the timer is armed |
| Measurements.Measurement.OnMessage | tidal-link/link/include/ableton/link/Measurement.hpp:129-206 | The step of the exchange: samples, the ping sent, finishing beyond 100 samples, failing on another session, and nothing at all for an unreadable message |
| Measurements.PingResponder.Reply | tidal-link/link/include/ableton/link/PingResponder.hpp:104-157 | A responder answers with its session, the ghost time of its clock and the ping, which is a step of every exchange with the offset that its clock and transform give |
| Measurements.SamplesAreClose | tidal-link/link/include/ableton/link/Measurement.hpp:172-186 | Each sample is within half the interval between the two readings around the third |
| Measurements.InvAlongRun | tidal-link/link/include/ableton/link/Measurement.hpp:129-206 | Over every loss, repetition and reordering the pings and pongs in flight keep the order of the readings they carry |
| Measurements.EverySampleIsClose | tidal-link/link/include/ableton/link/Measurement.hpp:129-206 | In every run every sample is within half its interval of the true offset, and a finished measurement has 101 or 102 |
| Measurements.CanFinish | tidal-link/link/include/ableton/link/Measurement.hpp:172-196 | From any running state at non-zero times replies that arrive lead to the end of the measurement, in exactly as many exchanges as data is missing at two samples each, 51 from the start |
| Measurements.FailsExactly | tidal-link/link/include/ableton/link/Measurement.hpp:100-120 | In every run the measurement has failed if and only if there were more than five timeouts, whatever arrived between them, or a pong of another session |
| Measurements.PingsGoOn | tidal-link/link/include/ableton/link/Measurement.hpp:104-171 | While it runs every timeout and every pong of the session has another ping sent |
| Measurements.MeasurementService.MeasurePeer | tidal-link/link/include/ableton/link/MeasurementService.hpp:75-96 | Every request is answered once, replaced by a newer one of the same node, or still being measured: the counts always add up, and a request that cannot start is answered at once without a transform |
| Measurements.MeasurementService.Complete | tidal-link/link/include/ableton/link/MeasurementService.hpp:101-126 | Hands over the rounded median, or no transform without data, exactly if the measurement is registered, forgets it, and keeps the counts of requests and answers adding up |
| Measurements.FinishedMeasurement | tidal-link/link/include/ableton/link/MeasurementService.hpp:114-124 | The intercept of a finished measurement is within half the widest interval of the true offset, plus one half for rounding |
| Measurements.OddMeasurementIsRobust | tidal-link/link/include/ableton/link/MeasurementService.hpp:114-124 | With an odd number of samples it is enough that more than half of the intervals are that narrow |
| ByteStreams.ParsePrintedUInt | tidal-link/link/include/ableton/discovery/NetworkByteStreamSerializable.hpp:97-225 | A printed unsigned integer of any width parses back and leaves what follows |
| ByteStreams.PrintParsedUInt | tidal-link/link/include/ableton/discovery/NetworkByteStreamSerializable.hpp:97-225 | Parsing reads only what printing writes |
| ByteStreams.PrintedByte | tidal-link/link/include/ableton/discovery/NetworkByteStreamSerializable.hpp:97-225 | Printed integers are big-endian |
| ByteStreams.ParsePrintedInt64 | tidal-link/link/include/ableton/discovery/NetworkByteStreamSerializable.hpp:227-241 | Every signed 64-bit integer parses back |
| ByteStreams.PrintParsedInt64 | tidal-link/link/include/ableton/discovery/NetworkByteStreamSerializable.hpp:227-241 | Eight bytes are the print of the integer they parse to |
| ByteStreams.PrintedInt64Byte | tidal-link/link/include/ableton/discovery/NetworkByteStreamSerializable.hpp:227-241 | Signed ones are in two's complement |
| ByteStreams.ParsePrintedBool | tidal-link/link/include/ableton/discovery/NetworkByteStreamSerializable.hpp:243-265 | A boolean parses back |
| ByteStreams.DeserializeContainer | tidal-link/link/include/ableton/discovery/NetworkByteStreamSerializable.hpp:320-336 | The loop reads elements until the maximum or the end of the bytes, and fails exactly if an element does |
| ByteStreams.ParsePrinted | tidal-link/link/include/ableton/discovery/NetworkByteStreamSerializable.hpp:309-336 | Of printed elements the first ones up to the maximum parse back, whether there are more or fewer |
| ByteStreams.ParsePrintedVector | tidal-link/link/include/ableton/discovery/NetworkByteStreamSerializable.hpp:371-399 | A printed vector parses back and leaves what follows |
| ByteStreams.ParseCutVector | tidal-link/link/include/ableton/discovery/NetworkByteStreamSerializable.hpp:385-399 | A vector cut off between elements is accepted with those that are there |
| ByteStreams.CutVectorExactly | tidal-link/link/include/ableton/discovery/NetworkByteStreamSerializable.hpp:385-399 | A printed vector cut off at any byte is accepted if and only if that is after its length and between two elements, for elements of which a part does not decode |
| ByteStreams.Int64IsCodec | tidal-link/link/include/ableton/discovery/NetworkByteStreamSerializable.hpp:227-241 | Signed 64-bit integers are such elements |
| ByteStreams.ParseArrayIs | tidal-link/link/include/ableton/discovery/NetworkByteStreamSerializable.hpp:356-367 | Reading a byte array never fails: missing bytes are zero |
| Payloads.ParsePrintedHeader | tidal-link/link/include/ableton/discovery/Payload.hpp:45-62 | Key and size parse back |
| Payloads.ParsePrintedRaws | tidal-link/link/include/ableton/discovery/Payload.hpp:108-139 | Any list of entries parses back from its print |
| Payloads.PrintParsedRaws | tidal-link/link/include/ableton/discovery/Payload.hpp:108-139 | Accepted bytes are the print of the entries parsed, so no other bytes have those entries |
| Payloads.ParseBoth | tidal-link/link/include/ableton/discovery/Payload.hpp:108-139 | Two parts parse together as the one and then the other, or not at all if the second does not |
| Payloads.ParseByteStream | tidal-link/link/include/ableton/discovery/Payload.hpp:108-139 | The loop terminates on every byte string and calls the handlers on exactly its entries in order; it fails exactly if the bytes are not entries or a handler throws |
| Payloads.PlusPrints | tidal-link/link/include/ableton/discovery/Payload.hpp:161-186 | The sum of payloads prints as concatenation, and sizes add up |
| Payloads.WrittenSize | tidal-link/link/include/ableton/discovery/Payload.hpp:77-92 | Never more bytes are written than declared, and equally many if and only if no entry is empty |
| Payloads.ParsePrintedPayload | tidal-link/link/include/ableton/discovery/Payload.hpp:82-186 | A printed payload parses as its entries that are not empty |
| Payloads.HandleKnown | tidal-link/link/include/ableton/discovery/Payload.hpp:131-137 | Entries of keys without a handler, wherever they are, do not change the result |
| PeerStates.ParsePrintedTimeline | tidal-link/link/include/ableton/link/Timeline.hpp:71-90 | The wire form of a timeline parses back to the last byte |
| PeerStates.ParsePrintedStartStop | tidal-link/link/include/ableton/link/StartStopState.hpp:70-86 | So does a start/stop state |
| PeerStates.SessionIdIsPadded | tidal-link/link/include/ableton/link/SessionId.hpp:51-57 | A session entry is accepted if and only if it has at most eight bytes; missing ones are zero |
| PeerStates.ParsePrintedEndpoint4 | tidal-link/link/include/ableton/link/MeasurementEndpointV4.hpp:37-72 | An IPv4 endpoint parses back from six bytes |
| PeerStates.ParsePrintedEndpoint6 | tidal-link/link/include/ableton/link/MeasurementEndpointV6.hpp:37-72 | An IPv6 endpoint parses back from eighteen bytes, without its scope |
| PeerStates.EndpointSizes | tidal-link/link/include/ableton/link/PeerState.hpp:69-74 | For each endpoint exactly one of the two entries is empty |
| PeerStates.ToPayloadIs | tidal-link/link/include/ableton/link/PeerState.hpp:65-75 | The payload of a state has four written entries in a fixed order and declares 95 or 107 bytes |
| PeerStates.FromPayload | tidal-link/link/include/ableton/link/PeerState.hpp:77-89 | Two passes of the parser over the same bytes, each with its own handlers, and failure if either fails |
| PeerStates.ReadAmongOthers | tidal-link/link/include/ableton/link/PeerState.hpp:77-89 | A state is recovered from its entries with entries of other keys before, between and after them |
| PeerStates.PeerStateRoundTrip | tidal-link/link/include/ableton/link/NodeState.hpp:49-68 | Printing and parsing recovers node, session, start/stop state, microseconds per beat, origins, and endpoint except for the IPv6 scope |
| PeerStates.StateOnTheWire | tidal-link/link/include/ableton/link/PeerState.hpp:65-75 | Where in the bytes of a state each key, size and value stands |
| PeerStates.TimelineParts | tidal-link/link/include/ableton/link/Timeline.hpp:71-90 | Where in those of a timeline its M and origins stand |
| PeerStates.StartStopParts | tidal-link/link/include/ableton/link/StartStopState.hpp:70-86 | Where in those of a start/stop state its parts stand |
| PeerStates.EndpointParts | tidal-link/link/include/ableton/link/MeasurementEndpointV4.hpp:37-72 | Where in those of an endpoint address and port stand |
| PeerStates.ReceivedTimelineConverts | tidal-link/link/include/ableton/link/Timeline.hpp:44-90 | The receiver converts every beat and time as the sender does, also after clamping |
| Messages.ParsePrintedMessage | tidal-link/link/include/ableton/discovery/v1/Messages.hpp:143-164 | A printed message header parses back and leaves the payload |
| Messages.HeaderExactly | tidal-link/link/include/ableton/discovery/v1/Messages.hpp:143-164 | The parser takes bytes away if and only if they are the protocol header and the printed message header it reports |
| Messages.EncodedMessage | tidal-link/link/include/ableton/discovery/v1/Messages.hpp:98-120 | A message that is accepted for encoding is shorter than 512 bytes, and its header and entries parse back |
| Messages.MessageOnTheWire | tidal-link/link/include/ableton/discovery/v1/Messages.hpp:98-120 | Where in the bytes of a discovery message protocol, type, time to live, group, id and payload stand |
| Messages.PeerStateMessage | tidal-link/link/include/ableton/discovery/v1/Messages.hpp:98-133 | The message of every peer state is accepted and gives back header and state |
| Messages.PeersAreHeard | tidal-link/link/include/ableton/discovery/UdpMessenger.hpp:263-322 | The state of every peer is heard by every other with its time to live, announced or in response, only the announcement is answered, and a departure is heard as one |
| Messages.OwnMessagesAreIgnored | tidal-link/link/include/ableton/discovery/UdpMessenger.hpp:263-294 | No peer hears its own messages |
| Messages.StrangeMessagesAreIgnored | tidal-link/link/include/ableton/discovery/UdpMessenger.hpp:263-294 | Nor what is no discovery message, of another group or of an unknown type |
| Messages.ParsePrintedLink | tidal-link/link/include/ableton/link/v1/Messages.hpp:112-134 | The message type and payload of a printed link message parse back |
| Messages.LinkOnTheWire | tidal-link/link/include/ableton/link/v1/Messages.hpp:70-110 | Where in those of a link message protocol, type and payload stand |
| Messages.HandlePong | tidal-link/link/include/ableton/link/Measurement.hpp:141-160 | Whichever of session, ghost time, host time and previous ghost time there are, each is read, and zero stands for a missing one |
| Messages.PingIsAnswered | tidal-link/link/include/ableton/link/PingResponder.hpp:104-157 | From bytes to bytes: every ping is answered, the pong fits, and the measurement reads from it the pong of the exchange |
| Messages.AnswersFit | tidal-link/link/include/ableton/link/PingResponder.hpp:104-157 | Whatever message is answered, the answer fits a message, and is not itself answered |
| Messages.PingOnTheWire | tidal-link/link/include/ableton/link/Measurement.hpp:163-171 | Where in the bytes of a ping its entries stand |
| Messages.PongOnTheWire | tidal-link/link/include/ableton/link/PingResponder.hpp:139-151 | Where in those of a pong its entries stand |

## Left out

- Floating-point representation and 64-bit overflow: all arithmetic is exact. `Beats` and `Tempo` in the source compute with `double`, which can differ in the last place for large values.
- Transforms of a slope other than 1: the code builds only slope 1 and, as the mark of a failed measurement, slope 0, which is `None` here.
- Tempos of zero or below, and above 120000000 bpm: `microsPerBeat` is then not positive, and the source divides by it.
- The playing time of the application's session state, and requesting a beat at it.
- Beats that an application gives as fractions of a micro-beat: they are rounded before they are compared here.
- The client state cached for the realtime thread, with its grace period, mutexes and callback dispatchers. What is pushed as a pending start/stop state is what that cache prefers.
- Memory orders weaker than sequential consistency in the triple buffer.
- Sockets, interface scanning, the rate of broadcasts, operating system timers, and the gateways that wire them together.
- Clocks that drift against each other or step during a measurement, and responders that change transform while they stay in the session.
- NthElement: selects the smallest elements one by one, while the C++ library is free in how it works; everything proved about the median follows from the contract alone.
- The values of messages fit 64 bits, those of the session protocol are unbounded; the two are not joined into one program.
- Tuples have no codec of their own: the fields of each entry are printed and parsed in order.
- MeasurementService: represents a measurement object in its map by the session measured, and the data arrives with the completion.
