# ClantoDesk client: verified models

A Dafny 4.11 model of the parts of the ClantoDesk client and its two PHP endpoints whose correctness rests
on whole-run invariants, exact arithmetic or round trips. `dafny verify dfyconfig.toml` checks everything.

| module | what it models |
|---|---|
| `TransportRace` | the race that prefers a direct transport and holds a relayed one back |
| `ConnectionSetup` | `_start`, `_start_inner`, `connect`: ownership of the WebRTC peer connection, relay forcing, the direct flag |
| `IceTrickle` | the buffer of early ICE candidates and the bridge that re-sends ours once |
| `LinearResampler`, `StreamingResampler`, `Packetizer` | the streaming linear resampler and the fixed-frame packetizer |
| `PlaybackBuffer` | the PCM ring buffer with statistics-driven shrinking |
| `PosturePolicy`, `PostureLaws` | the posture rule evaluator and the public rule listing; what they do to given rules and devices |
| `Base64Url`, `Text`, `LicenceName` | licence file names: printer, parser, and the alphabet between them |
| `DownloadCache` | the lock protocol of the download cache |
| `ClipboardSync` | the clipboard wire format and the owner marker |
| `Options`, `PositionArithmetic` | shared helpers |

## How to read it

- A run is a sequence of observations or events, and nothing is required of it beyond what makes a step
  possible. Claims about a method or a `Runs` predicate are claims about all runs.
- In `ConnectionSetup` every await is an answer of the environment, or the point where the future is
  dropped. A Rust scope exit is an outer method that drops the guard after its body, however that ended.
- The interpolation of the resampler is an arbitrary function of the two samples and the fraction, so the
  results hold for rounded `f32` arithmetic as it is.
- JSON, signatures, compression, PCRE, `version_compare`, dates and clocks are parameters. What is assumed
  of them is written down as a predicate (`LicenceName.Lawful`, `ClipboardSync.Lossless`).

## What the proofs showed about the code

- Three branches of the race are unreachable: failing with the WebRTC error alone (src/client.rs:270), failing
  with the fallback's error alone (src/client.rs:314) and resetting the window (src/client.rs:324).
- `_start_inner` accounts for the peer connection on every exit, but `_start` does not: a WebRTC connection
  over TURN that the outer race holds back is dropped, not closed, exactly when the second request succeeds,
  relayed or not, or the caller gives up before the window runs out or the second request fails
  (`ConnectionSetup.LostExactly`, stated of every run in `ConnectionSetup.Start`;
  `ConnectionSetup.HeldTurnIsLeftOpen` is such a run). By address, under forced relay, without a TCP punch or without an offer nothing is lost.
- The room a resampler call asks for is always one frame more than it can use. The room reserved for two
  packets is enough for a given packet size exactly when a full-length input scales to at most one frame more
  than a packet, and for every packet size exactly when the output rate is at most twice the input rate; above
  that, packets of two frames fewer than the output rate outgrow it in the course of a session of inputs no
  longer than a packet needs (`Packetizer.ReservationExact`, `RateBoundExact`, `OutgrownSession`).
- Resizing the PCM buffer throws samples away without signalling a discontinuity and keeps the statistics of
  the old size; resizing it to nothing per second panics.
- `naming.rs` prints names with the prefix `rustdesk-custom_serverd-`, which the parser refuses
  (`LicenceName.ToolNameIsRefused`); with the prefixes its tests use, the round trip holds.
- A relay field ending in `.exe` is cut by the parser (`LicenceName.FieldsRoundTrip` gives the exact condition).
- Without curl, a download that ends early is published as complete (`DownloadCache.WholeFileCondition`).
- Some rules end the request with an exception instead of a policy error: `in` and `not_in` rules whose list
  holds a nested list, and rules on dates, schedules or end-of-life tables where PHP's date functions raise.
  `PosturePolicy.CrashExactly` gives the exact condition, `NestedListEndsRequest` a family of inputs.

## Model

| member | source | states |
|---|---|---|
| `TransportRace.OnWebRtc` | src/client.rs:236-275 | the WebRTC arm either stops as the commit rule says, with the verdict owed, or keeps every loop-head fact (some attempt pending, first relay held, errors saved); its bare bail is dead |
| `TransportRace.OnOther` | src/client.rs:276-319 | the same for the `select_ok` arm, where an error is swallowed unless it was the last; returning its error alone is dead |
| `TransportRace.Run` | src/client.rs:220-328 | on every schedule the race stops at the first entry the declarative rule allows and returns exactly what that entry owes; it stays open only if no entry does |
| `TransportRace.EveryRunEnds` | src/client.rs:234-327 | once all attempts have reported the race has stopped |
| `TransportRace.VerdictUnique` | src/client.rs:243-318 | the schedule alone decides the verdict, including which two errors are reported |
| `TransportRace.DirectWinsAtOnce` | src/client.rs:243-287 | the first direct success observed ends the race there and is returned |
| `TransportRace.RelayOnlyWhenDue` | src/client.rs:251-325 | a relayed result is returned only with nothing pending, or as the first relay once the window since it was held has passed |
| `TransportRace.SucceedsIffSomeoneDid` | src/client.rs:260-318 | success exactly when some attempt succeeded, with that attempt's connection; failure only when all reported |
| `TransportRace.CommitsLocal` | src/client.rs:234-327 | whether the race may stop at an entry depends on the entries up to it alone |
| `TransportRace.SelectOk` | src/client.rs:1178-1181 | plain `select_ok`: the first success, or the last error once all have failed |
| `ConnectionSetup.OffererGuard.IntoInner` | src/client.rs:201-203 | disarms the guard and hands the stream over |
| `ConnectionSetup.OffererGuard.Drop` | src/client.rs:206-212 | an armed guard closes the peer connection |
| `ConnectionSetup.ConnOf` | src/client.rs:1147-1156 | the flag an attempt reports is honest: unknown relayed-ness counts as relayed |
| `ConnectionSetup.RaceWebRtc` | src/client.rs:1166-1177 | the outcome is what the preferring race owes, of one of the raced kinds, with an honest flag |
| `ConnectionSetup.RaceFirst` | src/client.rs:1178-1181 | the outcome is what `select_ok` owes, of one of the raced kinds, with an honest flag |
| `ConnectionSetup.RaceDirect` | src/client.rs:1456-1531 | which race is run for which transports, and what it came to; a punch only if its flag allows it |
| `ConnectionSetup.FallBackToRelay` | src/client.rs:1199-1242 | the fallback after a failed handshake is a relay, never direct, and is had exactly when both its awaits succeed |
| `ConnectionSetup.SecureWin` | src/client.rs:1573-1641 | what the handshake makes of the transport: kept, refused, replaced by a fresh relay if it was WebRTC; WebRTC is sampled once more and leaves the guard |
| `ConnectionSetup.ConnectBody` | src/client.rs:1421-1641 | the guard is disarmed exactly when WebRTC is returned; the race's win is kept or replaced as the relay override and handshake demand; nothing is returned whose handshake failed |
| `ConnectionSetup.Connect` | src/client.rs:1389-1642 | on every exit the peer connection is closed or owned by a returned WebRTC connection and not both; a transport is returned only if its flag allows it and none is forced to relay; the punch that alone comes up is returned; the flag is honest after every fallback; what is returned has completed its handshake; a working relay server means success |
| `ConnectionSetup.OnlyPunchUp` | src/client.rs:1456-1531 | TCP, UDP and IPv6, each where its flag allows it, are what the race comes to if their attempt alone succeeds |
| `ConnectionSetup.OnlyWebRtcUp` | src/client.rs:1500-1531 | so is WebRTC without a relay, whatever it was raced against |
| `ConnectionSetup.SoleWinner` | src/client.rs:220-328 | the preferring race delivers the only attempt that comes up, at once if direct and otherwise once all have reported |
| `ConnectionSetup.SoleFirst` | src/client.rs:1178-1181 | `select_ok` delivers the only attempt that comes up |
| `ConnectionSetup.Adopt` | src/client.rs:1069-1111 | the offerer leaves its guard open exactly when the answer was applied and no await was dropped |
| `ConnectionSetup.PlainRelay` | src/client.rs:1178-1257 | without WebRTC the first transport up is returned exactly if it can be secured |
| `ConnectionSetup.RelayRace` | src/client.rs:1139-1252 | the re-guarded race of the relay branch: which race, what is kept, what replaces an unsecured WebRTC win, and that no other unsecured transport is returned |
| `ConnectionSetup.RelayPath` | src/client.rs:1043-1258 | the relay branch uses the offerer's guard up, accounts for the peer connection, keeps the flag honest, returns WebSocket or a relay as the policy says and IPv6 only after a v6 connection |
| `ConnectionSetup.OnlyRelayUp` | src/client.rs:1113-1186 | of the v6 connection and the relay, over WebSocket or not, whichever alone comes up is what the branch comes to |
| `ConnectionSetup.RunAttempt` | src/client.rs:969-1289 | one attempt, within its time and until nothing comes: ends the loop as the first deciding message says, or not at all |
| `ConnectionSetup.Punch` | src/client.rs:969-1289 | the first of the three attempts that is decisive decides how the loop ends; without one nobody answered |
| `ConnectionSetup.PunchUnique` | src/client.rs:969-1289 | the attempts alone decide how the loop ends |
| `ConnectionSetup.MessagesExact` | src/client.rs:993-1289 | what each kind of message does to the loop |
| `ConnectionSetup.AnswerInTime` | src/client.rs:969-992 | the attempts listen three, six and nine seconds: a deciding message ends the loop exactly within that time |
| `ConnectionSetup.NoFourth` | src/client.rs:969 | there is no fourth attempt |
| `ConnectionSetup.Rendezvous` | src/client.rs:815-910 | a failed key exchange drops the offerer and the round goes on without WebRTC; exactly when the round reaches the punch, the UDP test being waited for only with a UDP socket and no legacy key |
| `ConnectionSetup.AfterPunch` | src/client.rs:1290-1386 | after a punch response: what the attempts that were possible come to, and the peer connection accounted for on every exit, also when there is no port |
| `ConnectionSetup.RoundReturnsThePunch` | src/client.rs:1290-1386 | the punch that both sides allow and that alone comes up is what the round returns; no TCP punch beside an offer |
| `ConnectionSetup.InnerBody` | src/client.rs:815-1386 | the guard's state on leaving, honesty, relay forcing, no avoidable failure, and what each way out of the punch loop comes to |
| `ConnectionSetup.StartInner` | src/client.rs:787-1386 | offerer lifecycle from the first poll on: closed, or owned by the returned WebRTC connection, at every exit including a drop at any await; and what the round comes to |
| `ConnectionSetup.SendRequests` | src/client.rs:522-589 | one request or two, what each comes to, and the race between them |
| `ConnectionSetup.ReportsInTime` | src/client.rs:220-328 | whether the offering request's turn comes before the race is over without it |
| `ConnectionSetup.Start` | src/client.rs:409-590 | under forced relay a punched transport is returned exactly to a peer reached by address; the flag is honest; the result is the one request's or what the race of the two owes; in every run the peer connection is accounted for exactly unless the offering request's connection was overtaken |
| `ConnectionSetup.BothEnded` | src/client.rs:547-589 | once both requests have ended `_start` has, and fails exactly if both failed |
| `ConnectionSetup.LegacyRequired` | src/client.rs:879-883 | with a token or switch code and no offer nothing comes of a connection that could not be secured |
| `ConnectionSetup.RelayUnderPolicy` | src/client.rs:1166-1181 | under a relay policy the relay that reports first is taken at once although WebRTC is raced too |
| `ConnectionSetup.PunchOfFlag` | src/client.rs:409-590 | for each flag a run in which its punch is returned |
| `ConnectionSetup.TcpAfterUdp` | src/client.rs:547-589 | a run in which the UDP request fails and TCP comes of the second one |
| `ConnectionSetup.InTimeIsHeard` | src/client.rs:576-584 | an offering request whose turn comes in time is heard while the race is on |
| `ConnectionSetup.OuterRace` | src/client.rs:547-589 | the two requests are raced by the rules above; a direct result of the offering request, once heard, is returned |
| `ConnectionSetup.DirectHeardWins` | src/client.rs:576-584 | a direct offering request that has reported is what the race delivers |
| `ConnectionSetup.LostExactly` | src/client.rs:576-584 | an offering request that reported in time is not what the race returns exactly when its connection was relayed, came first, and nothing released it before the second request succeeded or the caller gave up |
| `ConnectionSetup.HeldTurnIsLeftOpen` | src/client.rs:576-584 | a run of `_start`, for every window, that returns TCP and leaves the peer connection open |
| `IceTrickle.BufferPending` | src/client.rs:1259-1275 | after any message stream the buffer is the last 64 accepted candidates in order |
| `IceTrickle.OneMoreMessage` | src/client.rs:592-594 | a candidate of our session is buffered last, the first of 64 going; any other message changes nothing |
| `IceTrickle.SwapRemoveMultiset` | src/client.rs:732 | removing by swapping loses exactly the removed element |
| `IceTrickle.DueExact` | src/client.rs:730-731 | a second copy is due from 400 milliseconds after the first on |
| `IceTrickle.ResendPass` | src/client.rs:727-747 | every candidate is looked at exactly once and re-sent or kept as it is due or not at its own check, in order; queue = kept + re-sent + at most one failed |
| `IceTrickle.PickedAll` | src/client.rs:729-747 | what was looked at was re-sent or kept, as bags |
| `IceTrickle.PickedAt` | src/client.rs:731-746 | each candidate re-sent was due, and each kept was not, at the check that looked at it |
| `IceTrickle.KeptNotDue` | src/client.rs:730-746 | what is kept was not due when the pass began |
| `IceTrickle.ConservingPass` | src/client.rs:727-747 | a pass keeps first copies = second copies + queued + lost |
| `IceTrickle.IceBridge.Forward` | src/client.rs:692-725 | first copies go out in channel order and are queued; a failed send ends the bridge |
| `IceTrickle.IceBridge.Resend` | src/client.rs:727-747 | over every run, first copies = second copies + queued + lost, as bags; a pass re-sends exactly what its checks found due |
| `LinearResampler.CountExact` | src/audio_resampler.rs:193-200 | output frame k is determined by N frames exactly when k·in ≤ (N-1)·out |
| `LinearResampler.CeilInRange` | src/audio_resampler.rs:196-200 | the code's range test on frame and fraction says the same |
| `LinearResampler.DirectExtends` | src/audio_resampler.rs:165-209 | later input never changes a frame already determined |
| `LinearResampler.ShiftFrame` | src/audio_resampler.rs:211-218 | dropping consumed frames and rebasing the position leaves every interpolated frame the same |
| `StreamingResampler.StreamingLinearResampler.constructor` | src/audio_resampler.rs:156-163 | a new resampler has consumed and emitted nothing |
| `StreamingResampler.StreamingLinearResampler.ReserveInput` | src/audio_resampler.rs:133-143 | room for one input plus the margin, or an overflow error and nothing changed |
| `StreamingResampler.RefusalExact` | src/audio_resampler.rs:171-191 | a call is refused exactly for an incomplete frame, or when its room does not fit in 64 bits |
| `StreamingResampler.StreamingLinearResampler.ProcessInto` | src/audio_resampler.rs:165-179 | a refused call changes nothing; otherwise exactly the output frames the input adds to everything fed so far are appended, one frame fewer than the room asked for; at most one frame and a small position are retained; no position in the call exceeds frames·out + in |
| `StreamingResampler.PeakBounded` | src/audio_resampler.rs:174-177 | the position after the last frame written, against the frames of the input |
| `StreamingResampler.StreamingLinearResampler.Extend` | src/audio_resampler.rs:173 | the input is appended to the buffer and to everything fed |
| `StreamingResampler.StreamingLinearResampler.WriteFrames` | src/audio_resampler.rs:174-176 | the loop writes every determined frame, in order, and stops at the first that is not |
| `StreamingResampler.StreamingLinearResampler.WriteNextFrame` | src/audio_resampler.rs:193-209 | writes the interpolated frame at the position exactly when the buffer reaches it, never out of range |
| `StreamingResampler.StreamingLinearResampler.DiscardConsumedFrames` | src/audio_resampler.rs:211-218 | restores the between-calls invariant |
| `StreamingResampler.Residue` | src/audio_resampler.rs:211-218 | after N frames at most one is retained and the position is below the larger rate |
| `StreamingResampler.CapacityHolds` | src/audio_resampler.rs:181-191 | n more frames add at most floor(n·out/in)+1 output frames |
| `StreamingResampler.ResampledGrows` | src/audio_resampler.rs:165-179 | the one-shot result of a longer input extends that of a shorter one |
| `StreamingResampler.ResamplePieces` | src/audio_resampler.rs:156-218 | chunking independence: any accepted cut of an input gives floor((n-1)·out/in)+1 frames, sample j of frame k interpolating samples j of input frames k·in/out and the next at the fraction left over |
| `StreamingResampler.ResampledFrame` | src/audio_resampler.rs:193-209 | frame by frame, the one-shot result interpolates at k·in/out |
| `StreamingResampler.ResampledAt` | src/audio_resampler.rs:193-209 | and sample by sample |
| `StreamingResampler.SampleOfResampled` | src/audio_resampler.rs:193-209 | each sample of the one-shot result, by index into the input |
| `StreamingResampler.ResampledIsDirect` | src/audio_resampler.rs:193-209 | the one-shot result is the direct resample, sample by sample |
| `Packetizer.CutPackets` | src/audio_resampler.rs:84-89 | packets of exactly the size, joined with the rest they are the samples, and the rest is shorter than a packet |
| `Packetizer.FixedFrameResampler.constructor` | src/audio_resampler.rs:49-75 | what is reserved, and the invariant established |
| `Packetizer.SetupExact` | src/audio_resampler.rs:49-75 | a packetizer is made exactly when nothing is zero and its three products fit in 64 bits, and which error otherwise |
| `Packetizer.InputFramesExact` | src/audio_resampler.rs:60-63 | the reserved input is the fewest frames that last as long as a packet |
| `Packetizer.FixedFrameResampler.Feed` | src/audio_resampler.rs:82-83 | pending samples become the raw resampler output not yet handed out |
| `Packetizer.FixedFrameResampler.Deal` | src/audio_resampler.rs:84-90 | whole packets out, the rest pending, nothing lost |
| `Packetizer.FixedFrameResampler.ProcessWith` | src/audio_resampler.rs:77-91 | packets plus pending are the raw output after every call; the pending buffer grows exactly when the room needed exceeds it, the input buffer never on an input of one packet's length |
| `Packetizer.FixedFrameResampler.Turn` | src/audio_resampler.rs:77-91 | a call in a run: what is pending is what the output so far leaves beyond whole packets, and whether it outgrows the reservation |
| `Packetizer.FixedFrameResampler.ProcessAll` | src/audio_resampler.rs:77-98 | conservation over a run of calls; a buffer is reallocated exactly when some input finds too little room |
| `Packetizer.PacketizeAll` | src/audio_resampler.rs:48-99 | whole sessions: packets plus rest are the one-shot resample of all input, errors exactly as checked; with inputs of at most one packet's length a buffer is reallocated exactly when some input finds too little room, and never at up to twice the rate |
| `Packetizer.InputFits` | src/audio_resampler.rs:133-143 | an input of at most one packet's length never outgrows the input buffer |
| `Packetizer.NoReallocation` | src/audio_resampler.rs:56-74 | with out ≤ 2·in no session of inputs of at most one packet's length outgrows the reservation |
| `Packetizer.ReservationExact` | src/audio_resampler.rs:56-74 | for each configuration and packet size: every fill level and every such input fits exactly when the full-length input scales to at most one frame more than a packet |
| `Packetizer.TwiceSuffices` | src/audio_resampler.rs:60-67 | with out ≤ 2·in it does, for every packet size |
| `Packetizer.RateBoundExact` | src/audio_resampler.rs:60-67 | it does for every packet size exactly when out ≤ 2·in |
| `Packetizer.OutgrownSession` | src/audio_resampler.rs:60-83 | above that, a session of inputs of at most one packet's length that outgrows the reservation |
| `PlaybackBuffer.AudioBuffer.constructor` | src/client.rs:2209-2220 | three seconds of stereo at 48 kHz, empty, nothing signalled |
| `PlaybackBuffer.AudioBuffer.Resize` | src/client.rs:2224-2232 | capacity is three times the per-second count; a change empties the ring unsignalled and keeps the statistics; exactly a size of zero panics, with nothing changed |
| `PlaybackBuffer.AudioBuffer.AppendPcm2` | src/client.rs:2308-2324 | the ring is the last `capacity` samples; one discard is recorded exactly when something was overwritten |
| `PlaybackBuffer.AudioBuffer.SignalDiscontinuity` | src/client.rs:2299-2303 | one generation per discard, wrapping |
| `PlaybackBuffer.GenerationsCounted` | src/client.rs:2299-2303 | the counter is the number of discards modulo 2^64 |
| `PlaybackBuffer.AudioBuffer.Consume` | src/client/audio_playback.rs:121-125 | whole frames from the front, as many as asked for or held |
| `PlaybackBuffer.WholeFrames` | src/client/audio_playback.rs:123 | the largest whole number of frames |
| `PlaybackBuffer.ScanClock.Due` | src/client.rs:2244-2255 | a scan every twelve seconds, the first call only starting the shared clock |
| `PlaybackBuffer.ScansApart` | src/client.rs:2246-2255 | the first use starts the clock; from then on a scan is due exactly twelve seconds after the last |
| `PlaybackBuffer.BinOf` | src/client.rs:2238-2241 | the clamped bin of a level |
| `PlaybackBuffer.BinExact` | src/client.rs:2238-2241 | a bin holds the levels of its tenth of a second, the last all from 2.9 seconds on |
| `PlaybackBuffer.Bump` | src/client.rs:2242 | one more hit in the level's bin, and no other |
| `PlaybackBuffer.AudioBuffer.Record` | src/client.rs:2238-2242 | the bins stay the histogram of the levels since the last scan |
| `PlaybackBuffer.Scan` | src/client.rs:2257-2279 | clears all 30 bins in place; finds the lowest bin hit and the first most frequent among 1..29 |
| `PlaybackBuffer.SkipOf` | src/client.rs:2282-2289 | the skip computed from the two bins |
| `PlaybackBuffer.SkipExact` | src/client.rs:2273-2288 | the skip is the even one of the two numbers at the mark, and none while the usual level is under 600 ms |
| `PlaybackBuffer.AudioBuffer.DropSamples` | src/client.rs:2273-2296 | drops the computed even number from the front, or nothing, and signals it once |
| `PlaybackBuffer.AudioBuffer.ScanAndDrop` | src/client.rs:2257-2296 | the statistics restart and the ring is shrunk as they say |
| `PlaybackBuffer.AudioBuffer.TryShrink` | src/client.rs:2234-2296 | a level is recorded; only a due scan changes the ring |
| `PlaybackBuffer.AudioBuffer.AppendPcm` | src/client.rs:2329-2332 | the ring is the newest samples, their number is recorded, and exactly when a scan is due it is shrunk as the levels of the period, this one included, say; the invariant (suffix of everything appended, every sample accounted for, one generation per discard) is kept |
| `PlaybackBuffer.SkipBounded` | src/client.rs:2273-2289 | for any histogram: the skip is even, at most two thirds of any sampled level plus one sample, zero if a level was under 200 ms; levels sampled at another size scaled by the two rates |
| `PlaybackBuffer.DropAllowed` | src/client.rs:2257-2296 | for any histogram: what is dropped is even, under a third of what is buffered, and within the bounds of the skip |
| `PlaybackBuffer.AudioBuffer.DropBounded` | src/client.rs:2257-2296 | the same of what a scan really dropped, against every level of its period |
| `PlaybackBuffer.AudioBuffer.DropExact` | src/client.rs:2257-2296 | exactly what a scan drops, from the lowest and the first most frequent bin of its period |
| `PlaybackBuffer.AudioBuffer.SteadyDrop` | src/client.rs:2257-2296 | with all levels in one bin b from 6 on and enough held, capacity·b/120 rounded up to even is dropped |
| `PlaybackBuffer.MarksUnique` | src/client.rs:2257-2279 | a period has one lowest and, as far as it matters, one first most frequent bin |
| `PosturePolicy.MatchList` | api/clantodesk-posture.php:166-183 | counting hits decides any, none and all over the elements |
| `PosturePolicy.HhmmInDay` | api/clantodesk-posture.php:215-227 | a parsed time lies in the day, and only 24:00 is its end |
| `PostureLaws.TimeExact` | api/clantodesk-posture.php:215-227 | every HH:MM is read as its minute |
| `PostureLaws.TimesOnly` | api/clantodesk-posture.php:215-227 | and nothing else is read, but 24:00 and a final newline |
| `PosturePolicy.CheckDays` | api/clantodesk-posture.php:245-257 | a non-empty list of ISO weekdays |
| `PosturePolicy.CheckWindow` | api/clantodesk-posture.php:244-260 | malformed, or whether the window covers the moment |
| `PostureLaws.WindowExact` | api/clantodesk-posture.php:244-260 | a window covers exactly the minutes from its beginning up to its end, exclusive, on its day; a backward one is malformed |
| `PosturePolicy.CheckWindows` | api/clantodesk-posture.php:243-262 | malformed as soon as any window is, otherwise whether one covers the moment |
| `PosturePolicy.EvalSchedule` | api/clantodesk-posture.php:230-263 | malformed as soon as any window is; otherwise whether some window covers now; a time zone may raise |
| `PosturePolicy.EvalNotEol` | api/clantodesk-posture.php:266-298 | the first entry that is not good spoils the table, as malformed or by raising; otherwise the first matching entry's date decides |
| `PostureLaws.EolExact` | api/clantodesk-posture.php:266-298 | the table of the device's platform: a matched entry lets the device through up to its date |
| `PostureLaws.EditionExact` | api/clantodesk-posture.php:289-294 | an entry for an edition needs a known edition that matches too |
| `PostureLaws.DelimiterEscaped` | api/clantodesk-posture.php:280-282 | a delimiter in a table's pattern is escaped |
| `PostureLaws.NoTable` | api/clantodesk-posture.php:268-271 | a platform without a table passes |
| `PosturePolicy.ScannedDecides` | api/clantodesk-posture.php:275-297 | after the scan the remembered entry is the first match, if there is one |
| `PosturePolicy.InHostScope` | api/clantodesk-posture.php:301-326 | the union of hosts and groups; malformed lists; no host asks for all |
| `PostureLaws.GroupExact` | api/clantodesk-posture.php:301-326 | a rule for a group is for the group's hosts, and listed for everybody |
| `PosturePolicy.Complements` | api/clantodesk-posture.php:153-182 | `ne`, `not_in` and `none_match` are the complements of `eq`, `in` and `any_match`, with the same invalid parameters and exceptions |
| `PosturePolicy.ListOperators` | api/clantodesk-posture.php:166-183 | `all_match` implies `any_match`; a value without elements, unknown included, meets `none_match` and neither of the others |
| `PosturePolicy.NumericBounds` | api/clantodesk-posture.php:188-196 | exactly what is no number fails both bounds, and exactly the bound itself meets both |
| `PosturePolicy.MoreDays` | api/clantodesk-posture.php:197-206 | allowing more days never turns a date down, as long as one can go back that far |
| `PosturePolicy.ValidityIsStatic` | api/clantodesk-posture.php:149-213 | whether an operator's parameters are valid does not depend on the device |
| `PosturePolicy.CrashingOperators` | api/clantodesk-posture.php:149-213 | an operator raises exactly on a nested list in a membership test, or on a date that raises when read or compared |
| `PostureLaws.ParametersExact` | api/clantodesk-posture.php:149-187 | the comparisons take every parameter but null and arrays, the membership tests arrays |
| `PostureLaws.OtherParametersExact` | api/clantodesk-posture.php:162-206 | which parameters the patterns, the numbers and the dates take |
| `PostureLaws.RegexExact` | api/clantodesk-posture.php:162-165 | `regex` passes exactly what the pattern matches |
| `PostureLaws.RegexIsAnyMatch` | api/clantodesk-posture.php:162-183 | on a value that is its own only element it is `any_match` and `all_match` |
| `PostureLaws.EqExact` | api/clantodesk-posture.php:154-155 | `eq` on a string passes exactly for that string |
| `PostureLaws.InExact` | api/clantodesk-posture.php:158-159 | `in` passes exactly when `eq` passes for an element |
| `PostureLaws.NumbersExact` | api/clantodesk-posture.php:188-196 | a number above the bound fails `num_lte` alone, one below it `num_gte` alone |
| `PostureLaws.DatesExact` | api/clantodesk-posture.php:197-206 | dates pass exactly from n days before today on |
| `PostureLaws.VersionsExact` | api/clantodesk-posture.php:184-187 | the device's version is compared with the rule's, in that order |
| `PostureLaws.PresentExact` | api/clantodesk-posture.php:207-209 | `present` fails exactly on nothing and "unknown" |
| `PostureLaws.NoOtherOperators` | api/clantodesk-posture.php:210-211 | any other operator is malformed |
| `PostureLaws.ListExact` | api/clantodesk-posture.php:140-146 | what is written between bars, blanks around it allowed, are the elements of a value |
| `PostureLaws.BlanksDropped` | api/clantodesk-posture.php:140-146 | pieces of blanks are no elements |
| `PosturePolicy.JudgeRule` | api/clantodesk-posture.php:334-394 | one rule's verdict is its declarative meaning |
| `PostureLaws.FieldExact` | api/clantodesk-posture.php:334-394 | a field of a rule is the first entry with its key |
| `PostureLaws.Skipped` | api/clantodesk-posture.php:343-349 | a rule switched off, or for other platforms only, is skipped |
| `PostureLaws.OtherHosts` | api/clantodesk-posture.php:350-361 | so is a rule for other hosts only |
| `PostureLaws.HeaderExact` | api/clantodesk-posture.php:350-358 | an applicable rule with a wrong flag, operator or treatment of the unknown is malformed |
| `PostureLaws.InForceDemands` | api/clantodesk-posture.php:343-366 | a rule in force asks for what its operator demands |
| `PostureLaws.AsksItsOperator` | api/clantodesk-posture.php:363-390 | a rule on a field the device sent and knows asks what its operator asks |
| `PostureLaws.AsksItsTable` | api/clantodesk-posture.php:363-366 | the two operators that are not about a field |
| `PostureLaws.MissingField` | api/clantodesk-posture.php:368-379 | a field that was not sent fails the rule unless that is allowed |
| `PostureLaws.UnknownField` | api/clantodesk-posture.php:380-389 | what becomes of an unknown value, operator by operator |
| `PosturePolicy.EvaluateRules` | api/clantodesk-posture.php:329-404 | exactly the failing rules' failures and the malformed rules' errors, in order; an exception ends it |
| `PosturePolicy.CheckDevice` | api/clantodesk-posture.php:531-546 | errors hide failures, an exception is a refusal |
| `PostureLaws.SingleRule` | api/clantodesk-posture.php:531-546 | a device is passed by a single rule exactly when its value meets the operator |
| `PostureLaws.ViolationExact` | api/clantodesk-posture.php:335-402 | the id, message and flag a failure is reported with |
| `PostureLaws.MalformedExact` | api/clantodesk-posture.php:335-338 | the id a malformed rule is reported under |
| `PosturePolicy.OkMeaning` | api/clantodesk-posture.php:329-404 | ok exactly when no enabled, platform-matching rule is malformed and each in scope is satisfied or excused |
| `PosturePolicy.OrderIrrelevant` | api/clantodesk-posture.php:334-403 | reordering rules changes neither the answer nor the bag of reported failures |
| `PosturePolicy.MoreRulesNeverHelp` | api/clantodesk-posture.php:334-403 | adding rules never turns a refusal into ok |
| `PosturePolicy.CrashExactly` | api/clantodesk-posture.php:334-394 | a rule ends the request exactly when it applies, has a good header, is in scope, and its operator, time zone or end-of-life table raises |
| `PosturePolicy.NestedListEndsRequest` | api/clantodesk-posture.php:158-161 | one such rule makes every device that sends the field be refused as if the service were down |
| `PosturePolicy.PolicyErrorsExactly` | api/clantodesk-posture.php:531-542 | policy errors are what is reported exactly when some rule is malformed and none ends the request |
| `PosturePolicy.MalformedRefuses` | api/clantodesk-posture.php:336-358 | an applicable malformed rule refuses and nothing reported is bypassable; it is itself reported exactly when no rule ends the request |
| `PosturePolicy.ListRules` | api/clantodesk-posture.php:421-439 | exactly the enabled rules with a string id whose scope is not false, in order |
| `PosturePolicy.FailedRuleIsListed` | api/clantodesk-posture.php:424-437 | a rule that fails a device is listed for its host, and because its header was checked the listing's own id, message and flag are the evaluator's |
| `PosturePolicy.ListingAgrees` | api/clantodesk-posture.php:394-438 | every ordinary failure of a rule with a string id is listed with the same id, message and flag |
| `Base64Url.DecodeEncode` | src/naming.rs:5-8 | decoding an encoding gives the bytes back |
| `Base64Url.EncodeDecode` | src/custom_server.rs:31-33 | only canonical encodings decode |
| `Base64Url.EncodeMeaning` | src/naming.rs:5-8 | the encoding is that of section 5 of RFC 4648: each symbol is the table's entry for six bits of its group |
| `Base64Url.PaddedDecodes` | src/custom_server.rs:31-33 | the padded engine takes the encoding exactly with its padding |
| `Base64Url.DashOnEveryFourth` | src/naming.rs:5-8 | of ASCII data only every fourth symbol can be a dash |
| `Base64Url.EncodedShape` | src/naming.rs:5-8 | and the last symbol of data ending in `}` is one of three |
| `Base64Url.DecodeWholeTail` | src/custom_server.rs:31-33 | whole groups followed by whole groups decode to both parts |
| `Base64Url.DecodeRaggedTail` | src/custom_server.rs:31-33 | after a ragged end, nonzero low bits in the last symbol are refused |
| `LicenceName.ReadFields` | src/custom_server.rs:66-92 | the last field of each name wins |
| `LicenceName.LastValueExact` | src/custom_server.rs:69-86 | a field is what follows its tag in the last piece that begins with it, and empty if none does |
| `LicenceName.FieldsMeaning` | src/custom_server.rs:44-92 | the parse of any list of fields, the host first, whichever tags there are, in any case and any number |
| `LicenceName.OtherPiece` | src/custom_server.rs:54-65 | a piece without a tag, as after a trailing comma, changes nothing |
| `LicenceName.HostAlone` | src/custom_server.rs:44-92 | a host alone gives a record with nothing else in it |
| `LicenceName.FindRecord` | src/custom_server.rs:98-111 | the first piece, or part of a piece before a parenthesis, that decodes |
| `LicenceName.FirstPieceExact` | src/custom_server.rs:98-111 | the pieces are tried in order and the first that yields a record decides |
| `LicenceName.SignedRecord` | src/custom_server.rs:34-41 | a record in a signed message is read out of it |
| `LicenceName.PaddedRecord` | src/custom_server.rs:31-33 | padded text is accepted as well |
| `LicenceName.CutsExtension` | src/custom_server.rs:45-51 | an extension in any case is cut off once |
| `LicenceName.FromString` | src/custom_server.rs:44-113 | the parser's loops compute the parse |
| `LicenceName.NameShape` | src/naming.rs:5-8 | a printed name has its dashes four apart and does not begin with one |
| `LicenceName.Normalizes` | src/custom_server.rs:94-97 | every known separator, and only it, becomes `--` |
| `LicenceName.SplitsInTwo` | src/custom_server.rs:98-99 | the name splits into program and record |
| `LicenceName.ProgramNameIsNoRecord` | src/custom_server.rs:24-42 | the program's name is not taken for a record |
| `LicenceName.PieceYieldsRecord` | src/custom_server.rs:99-109 | the record is found with or without a copy mark after it |
| `LicenceName.RoundTrip` | src/custom_server.rs:44-113 | for every record with ASCII JSON, every separator and every copy mark, parsing the licensed name gives the record back |
| `LicenceName.FieldsRoundTrip` | src/custom_server.rs:44-92 | a comma-free record written as fields comes back exactly when its relay does not end in `.exe` |
| `LicenceName.ToolNameIsRefused` | src/naming.rs:14-23 | the name the tool prints does not parse |
| `DownloadCache.StepKeepsInv` | api/clantodesk.php:92-142 | every step of every request, dying included, keeps the protocol invariant |
| `DownloadCache.RunKeepsInv` | api/clantodesk.php:92-142 | it holds along every run |
| `DownloadCache.MutualExclusion` | api/clantodesk.php:97-140 | at most one request is in the locked section, so at most one writes the part file |
| `DownloadCache.LockExact` | api/clantodesk.php:97-140 | the lock is held exactly by the request inside: leaving or dying frees it |
| `DownloadCache.LockFree` | api/clantodesk.php:97-100 | while nobody is inside whoever waits can take it |
| `DownloadCache.PublishExact` | api/clantodesk.php:125-140 | a fetch is published exactly if reported complete, not empty and renamed; the part file is gone either way |
| `DownloadCache.PassedThrough` | api/clantodesk.php:92-110 | without the directory, the lock or a part file the download is passed through |
| `DownloadCache.PublishedIsServed` | api/clantodesk.php:101-142 | once the file is published every request that looks is sent to it, and gets it |
| `DownloadCache.ServedRun` | api/clantodesk.php:92-142 | a first request that fetches the file publishes it, is served it and leaves the lock free |
| `DownloadCache.ServeNeverBlocked` | api/clantodesk.php:266-268 | whoever is sent to the cache finds a published file |
| `DownloadCache.PublishedOnce` | api/clantodesk.php:101-140 | at most one publication, no fetch after it, nothing served before it |
| `DownloadCache.ServedIsPublished` | api/clantodesk.php:132-142 | everything served is the one published file; through curl, the whole file |
| `DownloadCache.WholeFileCondition` | api/clantodesk.php:111-136 | every served file is whole exactly when the transport is curl or the file has at most one byte |
| `ClipboardSync.ItemRoundTrip` | src/clipboard.rs:654-786 | each format survives the wire whether or not it was compressed |
| `ClipboardSync.WireExact` | src/clipboard.rs:654-742 | what goes on the wire: the item's own format and its bytes, compressed exactly if that makes them fewer |
| `ClipboardSync.WireRoundTrip` | src/clipboard.rs:744-794 | so does a clipboard, less the formats the wire does not carry |
| `ClipboardSync.MarkedIsSilent` | src/clipboard.rs:413-432 | an unforced read of marked content, on either side, yields nothing |
| `ClipboardSync.ForcedReadEchoes` | src/clipboard.rs:424-441 | a forced read yields the content without the marker |
| `ClipboardSync.KeptItems` | src/clipboard.rs:433-441 | what is kept comes from the clipboard and is neither marker nor empty text |
| `ClipboardSync.KeptEvery` | src/clipboard.rs:433-441 | every item that is neither marker nor empty is kept, in its place |
| `ClipboardSync.UnmarkedRead` | src/clipboard.rs:413-442 | an unforced read of unmarked content finds all of that, unless files are served elsewhere |
| `ClipboardSync.OwnersExact` | src/clipboard.rs:618-634 | which markers count as ours |
| `ClipboardSync.StepKeepsInv` | src/clipboard.rs:258-303 | copies of any content, reads at any time and applied updates keep the two-machine invariant |
| `ClipboardSync.RunKeepsInv` | src/clipboard.rs:258-303 | it holds along every interleaving |
| `ClipboardSync.SenderIsCopy` | src/clipboard.rs:413-442 | a read that sends something finds a copy, not an update, as the last write |
| `ClipboardSync.NoEcho` | src/clipboard.rs:413-442 | every message was sent by a read, belongs to the unmarked copy that was the last write to that clipboard before it, and is its content |
| `ClipboardSync.ReadAfterCopy` | src/clipboard.rs:413-442 | a read after a copy sends whatever there is to send in it |
| `ClipboardSync.MessagesBounded` | src/clipboard.rs:413-442 | messages never outnumber the reads that follow a copy |
| `ClipboardSync.Delivered` | src/clipboard.rs:258-303 | what an update writes is the other side's copy followed by the marker |
| `ClipboardSync.CreateUnmarked` | src/clipboard.rs:744-757 | data without the marker makes a message without it |
| `ClipboardSync.MarkerStaysHome` | src/clipboard.rs:433-441 | in every run, whatever was copied, no message sent carries the marker |

## Left out

- Sockets, TLS, KCP, rendezvous encoding, ICE itself and the UDP NAT probe: they are answers of the environment.
- The cryptography of `secure_connection`, `build.rs`, two-factor codes and the posture signature: success or failure only.
- The several rendezvous servers tried in turn (src/client.rs:820-833): one await that succeeds or fails.
- Timeouts of `connect` (src/client.rs:1421-1453): they decide when attempts report, which the schedules leave open.
- ConnectionSetup.StartInner: says nothing about a future dropped before its first poll, when the offerer is not yet in a guard.
- ConnectionSetup.Start: an offering request that the race does not wait for is dropped at its first await; by `ConnectionSetup.StartInner` every other await leaves the same.
- StreamingResampler.StreamingLinearResampler.ProcessInto: positions do not wrap; by the bound it states, in 64 bits they could only for an input whose frame count times the output rate is within one input rate of 2^64.
- Spare capacity of vectors: a vector holds exactly what was reserved until more is needed.
- The ring buffer crate: the ring is a sequence with a capacity, its index arithmetic is not modelled.
- The `sinc` resampler, audio devices, decoding and recording.
- JSON text, Unicode case folding and Unicode blanks in licence names.
- LicenceName.RoundTrip: for records whose JSON is ASCII; other text may put dashes side by side.
- Number and date parsing, regular expressions and version comparison are parameters; besides PHP's date functions and the conversion of a list to text, nothing in the evaluator is taken to raise.
- The request checks before the policy is applied (size, fields, signature, coherence, revoked versions): a chain of independent refusals.
- Range requests and the pass-through of the download proxy, and its directory handling: they would only add easy members.
- ClipboardSync.NoEcho: reads are unforced (`ClipboardSync.ForcedReadEchoes` is what a forced one does).
- ClipboardSync.Delivered: for copies a clipboard can hand out: texts in UTF-8, images of their size within the wire's 32-bit fields.
- The GTK clipboard path, file clipboards and the Android clipboard.
- Login options, key maps, message boxes, mouse helpers, peer configuration, the HTML page and the build scripts.
