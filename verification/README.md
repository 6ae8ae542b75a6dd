# PhoneCam, modelled and proved in Dafny

PhoneCam turns a phone into a desktop webcam. A phone app encodes camera frames and sends them over a framed byte
stream to a desktop, which decodes them and hands them to a virtual camera. Either side can change the stream: the
desktop asks for another codec, size or rate, the phone applies it or refuses, and the desktop then commits its
output and decoder, or takes the change back. This project models that behaviour and proves what it promises.

`dafny verify dfyconfig.toml` checks everything.

## How it is organised

| files | what they model |
|---|---|
| `Protocol` | stream profiles, handshakes and their validation |
| `Pipeline`, `StreamActor` | the desktop actor `stream_connection`: its steps as functions, its loop as a class |
| `DesktopLaws` | what each input does to the desktop, stated without the actor's own functions; what the decoder's queue holds in every run |
| `KeyframeRequests`, `WrittenPictures` | two more properties of the desktop's runs: how it asks for keyframes, and which pictures reach the output |
| `Decoding`, `DecodingLaws` | the decode worker, its keyframe gate, and the HEVC backend's order of parameter sets; that every picture comes out, and when recovery is asked for |
| `MobileCore`, `PhoneClient`, `ClientLaws` | the Rust client on the phone: its calls as functions, the client as a class; when each call is accepted and what it sends, and that every command reaches the app once |
| `Reconfiguration`, `OrderlyRuns`, `Disagreement` | desktop and phone joined by two FIFO channels: when they agree, in every run, and two runs in which they do not |
| `Transactions` | whole transactions from any quiet state: applied, refused and taken back requests, switches of the phone, a frame on its way |
| `AndroidStream`, `AndroidLaws` | the Android app's transaction behind a configuration request, and its camera switch |
| `AndroidInStep`, `OutputProfiles` | the app together with the Rust client behind it, for one request and over every run; the list the desktop offers |
| `Transport` | framed messages, keepalive pings, the reader and writer loops |
| `Bytes`, `FramePackets`, `FrameReceivers` | the packets to the native camera drivers, their writer, and the macOS and Windows receivers |
| `PixelLayouts`, `Yuyv`, `AndroidPlanes` | strided planes, NV12, packed NV12, YUYV and I420, as Rust, C++ and Kotlin convert between them |
| `NalUnits`, `StartCodes` | length-prefixed NAL units to Annex B on Android and iOS, and the desktop's start-code scanner |
| `DecodeTiming`, `AdbMonitor` | the 95th-percentile filter, and the ADB device monitor's event log |

Code that changes state in place is a class or a method with loops, proved equal to a function of the old state;
the theorems are about those functions and about whole runs of them. What a foreign call does (committing an output,
starting a decoder or an encoder, switching a camera, room in a channel) is an input of the step that makes the call,
so every theorem holds for every way these calls can turn out.

In a run, a channel is the sender's log and the number of messages the receiver has taken, and every message of the
phone carries a snapshot of the phone's active profile and profile list. Those snapshots exist for the proofs only;
no step reads them.

The files named `…Laws` speak of the steps from outside: what holds of the state and the input before a step, and of
the state after it. A reader who wants to know what the system does can start with them and with `Transactions`.

## Results that are not what one would first write down

- Both sides agree in every run without a discarded switch, and only in those (`Reconfiguration.AgreementExactly`).
  A request that times out, and a switch the phone makes on its own while a request is pending, are such discards:
  `Disagreement` gives a run for each, from any quiet state with another common profile to a settled state in which
  both sides differ. A connection starts quiet.
- The first picture after a reset need not come from the keyframe that opened the decoder. It does exactly when the
  decoder returns a picture for that keyframe at once (`Decoding.FirstPictureFromKeyframe`, with a counterexample).
- The Windows receiver forgets a complete 2160p frame when full buffers push it over its cap
  (`FrameReceivers.FullReadsLoseUhdFrame`); a run delivers what the uncapped parse delivers exactly when every read
  fits under the cap (`RunsExactly`).
- Android's `toAnnexB` keeps a NAL list exactly when the first length does not look like a start code, or every unit is
  a single byte (`NalUnits.ToAnnexBExactly`).
- The Android app and its Rust client part exactly when a change is reported into a full outbound channel, for one
  request (`AndroidInStep.OnlyAFullChannelParts`) and over every run (`AppRunsStayInStep`), because this desktop
  offers both codecs or neither (`OutputProfiles.QualifiedOutputProfiles`).
- Applied does not mean that the Android encoder runs: after a camera switch that could not restart it, a request for
  the active profile is answered Applied all the same (`AndroidStream.AppliedWithoutEncoder`).
- An Android access unit reaches the desktop's decoder as its Annex B form exactly when that condition on the first
  length holds and no unit holds a start code without a header (`StartCodes.AndroidToDesktop`).

## Model

| member | source | states |
|---|---|---|
| Protocol.ValidateProfilesMeaning | rust/phonecam-protocol/src/lib.rs:172-183 | the scan accepts a list if and only if it is non-empty, every profile is legal and none occurs twice |
| Protocol.ErrorIsFirstOffence | rust/phonecam-protocol/src/lib.rs:172-183 | the error names the first entry that is illegal or repeats an earlier one, and what is wrong with it |
| Protocol.ValidateFromMeaning | rust/phonecam-protocol/src/lib.rs:176-181 | from any index on, the scan succeeds if and only if no later profile is illegal or repeats any earlier one |
| Protocol.ValidListsAreShort | rust/phonecam-protocol/src/lib.rs:12-19 | a valid list has between 1 and 30 entries, by counting the legal profiles |
| Protocol.HandshakeMeaning | rust/phonecam-transport/src/client.rs:158-173 | after both validations and the cross check, the peer's active profile is in both lists, and the peer's list is valid and duplicate-free |
| Pipeline.NthIdClosedForm | rust/phonecam-desktop/src-tauri/src/pipeline.rs:437-443 | the n-th request id is (n - 1) mod (2^32 - 1) + 1, so ids cycle through 1 to 2^32 - 1 and are never 0 |
| Pipeline.CommonProfilesMeaning | rust/phonecam-desktop/src-tauri/src/pipeline.rs:445-451 | the common list holds exactly the profiles both sides support |
| Pipeline.ResolveProfileMeaning | rust/phonecam-desktop/src-tauri/src/pipeline.rs:453-478 | a named codec resolves to exactly that profile; Auto takes HEVC when common, else H.264; otherwise the command is refused |
| Pipeline.StartIsCoherent | rust/phonecam-desktop/src-tauri/src/pipeline.rs:512-534 | a started connection is coherent: committed output, decoder codec and active profile match, and the active profile is common |
| Pipeline.StepKeepsCoherence | rust/phonecam-desktop/src-tauri/src/pipeline.rs:541-796 | every arm of the loop, every outcome of its foreign calls and every turn of the worker keep the desktop coherent |
| Pipeline.RunsAreCoherent | rust/phonecam-desktop/src-tauri/src/pipeline.rs:512-796 | in every reachable state that still runs: the active profile is common, the common list is current, a pending request's prior is the active profile, the worker's codec and its queued frames have the active codec, the output is committed to the active profile unless a compensation is pending, and commands taken are replies given plus the one still owed |
| Pipeline.StepReplies | rust/phonecam-desktop/src-tauri/src/pipeline.rs:552-606 | a step gives at most one reply, and the reply is true of the state it is given in |
| Pipeline.EveryReplyIsHonest | rust/phonecam-desktop/src-tauri/src/pipeline.rs:704-789 | in every run, a reply Ok(p) means p was common, has the asked dimensions and rate, and is active and committed; a reply Err means the active profile is what it was when the command was taken, and committed if the actor goes on |
| Pipeline.StoppedRun | rust/phonecam-desktop/src-tauri/src/pipeline.rs:541-560 | nothing happens any more once the actor has returned |
| Pipeline.StepEffect | rust/phonecam-desktop/src-tauri/src/pipeline.rs:588-605 | a step sends at most one message, a configuration request it sends becomes the pending one under the next id, and otherwise what is pending stays or is settled |
| KeyframeRequests.RequestsAreAnswered | rust/phonecam-desktop/src-tauri/src/pipeline.rs:607-650 | in every run, the keyframe requests sent are those answered by a keyframe of the active profile, and one more while one is outstanding: it never asks twice |
| KeyframeRequests.NeedStaysAskedFor | rust/phonecam-desktop/src-tauri/src/pipeline.rs:615-650 | once the decoder asked for recovery, or a keyframe found the queue full, a request is outstanding in every running state of every run until a keyframe of the active profile reaches the queue |
| WrittenPictures.RunsStayCurrent | rust/phonecam-desktop/src-tauri/src/decode.rs:83-94 | in every run of the desktop, across all switches, the frames the worker waits for, the calls its backend made and the pictures in its queue are all of the active profile's codec, width and height |
| WrittenPictures.OnlyActivePicturesAreWritten | rust/phonecam-desktop/src-tauri/src/pipeline.rs:607-614 | every picture a run takes to the output was decoded from frames of the active codec, width and height, the first a keyframe, and what is written has the active profile's size outside a compensation |
| StreamActor.StreamConnection.OnTick | rust/phonecam-desktop/src-tauri/src/pipeline.rs:553-569 | an expired request is dropped and answered with an error, and an expired compensation also ends the actor: the whole new state, in place, as the step the run theorems are about |
| StreamActor.StreamConnection.OnCommand | rust/phonecam-desktop/src-tauri/src/pipeline.rs:570-606 | a command is refused, answered at once or turned into the pending request, and waits while one is pending: the whole new state, as that step |
| StreamActor.StreamConnection.OnDecoderEvent | rust/phonecam-desktop/src-tauri/src/pipeline.rs:607-628 | the whole new state, as the step that `DesktopLaws.PictureIsWritten` and `OtherEventsAreTaken` fix from outside: a picture of the committed size that can be written is taken and the actor goes on, and any other ends it |
| StreamActor.StreamConnection.OnVideoFrame | rust/phonecam-desktop/src-tauri/src/pipeline.rs:634-650 | the whole new state, as the step that `DesktopLaws.FrameIsHandedOver` fixes from outside: a matching frame joins the decoder's queue if there is room |
| StreamActor.StreamConnection.OnCapabilities | rust/phonecam-desktop/src-tauri/src/pipeline.rs:651-661 | the peer list and the common list change together, and only for a valid update that keeps the active profile: the whole new state, as that step |
| StreamActor.StreamConnection.OnUnsolicited | rust/phonecam-desktop/src-tauri/src/pipeline.rs:663-706 | a common profile the phone switched to is committed and becomes active, or a compensation to the old one is requested: the whole new state, as that step |
| StreamActor.StreamConnection.OnResult | rust/phonecam-desktop/src-tauri/src/pipeline.rs:662-790 | a result settles the pending request only if it carries its id, and an id-0 result counts only when none is pending: the whole new state, as that step |
| StreamActor.StreamConnection.Loop | rust/phonecam-desktop/src-tauri/src/pipeline.rs:541-796 | the loop computes the run of its inputs, stops when the actor returns, and stays coherent |
| DesktopLaws.FrameIsHandedOver | rust/phonecam-desktop/src-tauri/src/pipeline.rs:634-650 | for every state and frame: a frame of the active codec and size joins a live decoder's queue if fewer than two wait there; a keyframe answers the outstanding request, and one that finds no room is asked for again; nothing else changes |
| DesktopLaws.QueueIsWhatArrived | rust/phonecam-desktop/src-tauri/src/pipeline.rs:634-650 | in every run, the decoder's queue is exactly the matching frames that arrived while there was room since its last restart, in order, without those it has handled; the right side is a fold over the inputs |
| DesktopLaws.PictureIsWritten | rust/phonecam-desktop/src-tauri/src/pipeline.rs:607-614 | with a picture at the head of the queue the actor goes on if and only if the picture has the committed size and the write succeeds, and only that event is gone |
| DesktopLaws.GoodPicturesAreWritten | rust/phonecam-desktop/src-tauri/src/pipeline.rs:607-614 | in every run, outside a compensation: a decoded picture ends the actor if and only if it has not the active size or cannot be written |
| DesktopLaws.OtherEventsAreTaken | rust/phonecam-desktop/src-tauri/src/pipeline.rs:607-628 | any other decoder event is taken; a recovery event sends a request if none is outstanding; a decoder that ended with nothing left to show ends the actor |
| DesktopLaws.CommandIsTaken | rust/phonecam-desktop/src-tauri/src/pipeline.rs:570-606 | a command is refused at once exactly if no profile both sides support fits it or the output cannot show it, succeeds at once exactly if its profile is active, and otherwise is pending under the next id and sent; none is taken while a request is pending |
| DesktopLaws.ConfigureIsAnswered | rust/phonecam-desktop/src-tauri/src/pipeline.rs:711-757 | the answer Applied(p), for a common p of the asked size and rate, makes p active and committed with a new decoder and answers the command Ok(p), exactly if commit and reset go through; if not, the phone is asked for the old profile; any other answer refuses the command and changes nothing |
| DesktopLaws.CompensationIsAnswered | rust/phonecam-desktop/src-tauri/src/pipeline.rs:758-788 | a compensation ends with the old profile active and committed and the command failed with the first error, exactly if the phone is back at it and commit and reset go through; anything else ends the actor, with its error |
| DesktopLaws.SwitchIsFollowed | rust/phonecam-desktop/src-tauri/src/pipeline.rs:663-702 | while nothing is pending, a switch of the phone to a common profile is followed, or asked to be taken back if it does not go through; other reports with id 0 change nothing |
| DesktopLaws.StrayResultIsIgnored | rust/phonecam-desktop/src-tauri/src/pipeline.rs:704-710 | a result that carries neither the pending id nor, while nothing is pending, id 0 changes nothing |
| DesktopLaws.TimeoutIsTold | rust/phonecam-desktop/src-tauri/src/pipeline.rs:552-569 | only an expired request times out: a command then fails and the connection goes on, a compensation fails with its first error and ends the actor |
| DesktopLaws.ListIsTakenOver | rust/phonecam-desktop/src-tauri/src/pipeline.rs:651-661 | the phone's list is taken over if and only if it is non-empty, legal, without duplicates and holds the active profile; the common list is then exactly what both sides support |
| DesktopLaws.StartExactly | rust/phonecam-desktop/src-tauri/src/pipeline.rs:512-534 | a connection starts if and only if both sides support the phone's active profile, the output commits and the decoder starts; the whole first state |
| DesktopLaws.ExitsExactly | rust/phonecam-desktop/src-tauri/src/pipeline.rs:541-551 | the actor returns without an error if and only if it is shut down, or the phone leaves or is lost |
| Decoding.GateOverRuns | rust/phonecam-desktop/src-tauri/src/decode.rs:200-332 | in every run the gate is shut exactly while the current backend has decoded nothing since it was created, and every backend was opened by a keyframe and fed its own codec only |
| Decoding.PicturesAfterReset | rust/phonecam-desktop/src-tauri/src/decode.rs:83-94 | after a successful reset, every picture comes from a backend opened by a keyframe of the new codec and fed only frames of that codec sent after the reset |
| Decoding.FirstPictureFromKeyframe | rust/phonecam-desktop/src-tauri/src/decode.rs:243-256 | the first picture after a reset comes from the opening keyframe if and only if the decoder returned a picture for it at once |
| Decoding.DelayedPictureCounterexample | rust/phonecam-desktop/src-tauri/src/decode.rs:243-256 | a run in which the first picture comes from a later delta frame |
| Decoding.DecoderThread.ApplyReset | rust/phonecam-desktop/src-tauri/src/decode.rs:299-332 | the control handler, in place, computes the reset step and acknowledges exactly its success |
| Decoding.DecoderThread.HandleFrame | rust/phonecam-desktop/src-tauri/src/decode.rs:229-293 | the whole new state, as the step that `DecodingLaws.EveryPictureComesOut` and `RecoveryExactly` fix from outside: a frame that can be decoded is, for either codec, and any other is answered with a recovery event |
| Decoding.DecodeNalsOrder | rust/phonecam-desktop/src-tauri/src/decode.rs:150-179 | the library is handed a prefix of the NAL units, all of them on success, and never an IDR before VPS, SPS and PPS; the refusal stops exactly in front of such an IDR |
| Decoding.HevcBackend.Admit | rust/phonecam-desktop/src-tauri/src/decode.rs:158-170 | the three flags always say what the library has been handed, and a unit is admitted if and only if it is not an early IDR |
| Decoding.HevcBackend.Decode | rust/phonecam-desktop/src-tauri/src/decode.rs:150-179 | the loop over the units computes the recursive specification and keeps the flags true |
| DecodingLaws.EveryPictureComesOut | rust/phonecam-desktop/src-tauri/src/decode.rs:232-256 | for both codecs, after any successful reset: if a run sends frames of that codec, the first a keyframe, and the library decodes them, then exactly the pictures it returned are delivered, in order, and no recovery event |
| DecodingLaws.EventsAreKept | rust/phonecam-desktop/src-tauri/src/decode.rs:236-293 | between resets no event is lost, reordered or made up: received and still queued are those queued at first and those emitted since |
| DecodingLaws.RecoveryExactly | rust/phonecam-desktop/src-tauri/src/decode.rs:236-293 | in every reachable state a turn asks for recovery if and only if the frame has another codec, or is a delta frame before anything was decoded, or its decoding failed and the backend was replaced; an error is reported if and only if a backend was replaced; the thread ends if and only if one could not be |
| DecodingLaws.FailureShutsTheGate | rust/phonecam-desktop/src-tauri/src/decode.rs:257-291 | right after a failure the gate is shut, and a delta frame is refused |
| DecodingLaws.ResetExactly | rust/phonecam-desktop/src-tauri/src/decode.rs:299-332 | a reset succeeds if and only if the thread lives and the new backend starts; then nothing of the past is left, otherwise only waiting frames are dropped |
| DecodingLaws.DecodeNalsExactly | rust/phonecam-desktop/src-tauri/src/decode.rs:150-179 | an access unit is decoded if and only if the library takes every unit, no IDR comes early and every picture converts, and then every picture returned comes out, in order |
| MobileCore.ConnectIsSound | rust/phonecam-mobile-core/src/lib.rs:132-172 | a fresh client has a valid profile list with the active profile in it, which the desktop supports |
| MobileCore.CallKeepsSound | rust/phonecam-mobile-core/src/lib.rs:395-486 | no call of the app, with any arguments, breaks that |
| MobileCore.PollInboxMeaning | rust/phonecam-mobile-core/src/lib.rs:311-347 | a poll consumes a prefix of the inbox, changes only the pending request and the connection, and leaves pending exactly the request it hands out; what it skips is in `ClientLaws.PollExactly` |
| PhoneClient.TransportClient.SendVideoFrame | rust/phonecam-mobile-core/src/lib.rs:186-236 | the whole new state, as the call that `ClientLaws.FrameIsSent` fixes from outside: a matching frame is queued as the app gave it |
| PhoneClient.TransportClient.UpdateCapabilities | rust/phonecam-mobile-core/src/lib.rs:395-428 | the new list is stored only after it was validated and queued |
| PhoneClient.TransportClient.Report | rust/phonecam-mobile-core/src/lib.rs:431-487 | the active profile and the pending request change only after the result was queued |
| PhoneClient.TransportClient.Poll | rust/phonecam-mobile-core/src/lib.rs:311-347 | the loop computes the poll that `ClientLaws.PollExactly` fixes from outside: it hands out the first command before any disconnect, and consumes nothing while a request is pending |
| ClientLaws.ConnectExactly | rust/phonecam-mobile-core/src/lib.rs:132-172 | two handshakes make a client if and only if both have the protocol's version and a proper list and every active profile is supported on both sides; the whole first state |
| ClientLaws.FrameIsSent | rust/phonecam-mobile-core/src/lib.rs:186-236 | a frame is accepted if and only if it has data, matches codec, width and height of the active profile and fits; the message carries data, timestamp and keyframe flag as the app gave them |
| ClientLaws.ListIsSent | rust/phonecam-mobile-core/src/lib.rs:395-428 | a list is accepted if and only if it is proper, holds the active profile and fits; it is stored and sent as it is |
| ClientLaws.AppliedIsSent | rust/phonecam-mobile-core/src/lib.rs:431-487 | a report that a profile was applied is accepted if and only if it answers the pending request or none, fits, and names a legal profile both sides support; the profile is then active |
| ClientLaws.RefusalIsSent | rust/phonecam-mobile-core/src/lib.rs:431-487 | the three refusal codes, and no others, are accepted, and say on the wire what they mean; only the pending request changes |
| ClientLaws.PollExactly | rust/phonecam-mobile-core/src/lib.rs:311-347 | a command is handed out if and only if there is one before any disconnect, and it is the first; what is passed over is no camera control or an illegal request; the connection ends if and only if a disconnect was read, or a closed channel to its end |
| ClientLaws.CommandsArriveOnce | rust/phonecam-mobile-core/src/lib.rs:311-347 | in every run of the two parties, the app is handed, in order and each once, exactly the legal camera controls among the desktop's messages the phone has read |
| Reconfiguration.EstablishedAgrees | rust/phonecam-desktop/src-tauri/src/pipeline.rs:512-534 | after the handshake and the prologue both sides agree |
| Reconfiguration.NextKeepsInv | rust/phonecam-mobile-core/src/lib.rs:417-486 | every move of either side keeps both sides in order, and every message of the phone's log explains the change of the phone's view at that point |
| Reconfiguration.ReceiveAgreement | rust/phonecam-desktop/src-tauri/src/pipeline.rs:634-790 | consuming a message keeps the agreement if and only if it is not a discarded switch, whatever commit, reset and send do |
| Reconfiguration.StepAgreement | rust/phonecam-desktop/src-tauri/src/pipeline.rs:541-796 | one move of the whole system keeps the agreement if and only if it is not a discard |
| Reconfiguration.AgreementExactly | rust/phonecam-desktop/src-tauri/src/pipeline.rs:634-790 | a run agrees in every state if and only if it never discards a switch |
| OrderlyRuns.NextFlow | rust/phonecam-mobile-core/src/lib.rs:431-486 | in orderly runs a request has at most one trace: on its way, being worked on, or answered, and it is the request the desktop waits for |
| OrderlyRuns.OrderlyRunAgrees | rust/phonecam-desktop/src-tauri/src/pipeline.rs:634-790 | without configuration timeouts, with answers in the asked dimensions and rate, and without a discarded id-0 switch, every state of every interleaving agrees |
| OrderlyRuns.QuietChannelMeansAgreement | rust/phonecam-desktop/src-tauri/src/pipeline.rs:634-790 | in such a run, once the desktop has consumed everything, both sides have the same active profile and list, and the output is committed to it |
| OrderlyRuns.FramesMatch | rust/phonecam-desktop/src-tauri/src/pipeline.rs:635-638 | in such a run every video frame consumed outside a compensation passes validation against the desktop's active profile |
| Disagreement.EstablishedQuiet | rust/phonecam-desktop/src-tauri/src/pipeline.rs:512-534 | a connection starts in a quiet state, so the two runs below are runs of the system |
| Disagreement.LateAnswer | rust/phonecam-desktop/src-tauri/src/pipeline.rs:555-559 | from any quiet state with another common profile: a request times out and is applied all the same; nothing is pending or under way any more, and both sides have different profiles |
| Disagreement.SwitchWhileWaiting | rust/phonecam-desktop/src-tauri/src/pipeline.rs:663-709 | from any such state: the phone switches on its own while a request is pending, which is ignored, and then refuses the request; nothing is pending or under way any more, and both sides have different profiles |
| Transactions.AppliedRequest | rust/phonecam-desktop/src-tauri/src/pipeline.rs:711-757 | from every quiet state, a request the phone applies, in the asked codec or another, and that goes through: both sides have the new profile, the output is committed to it, the decoder is new, the caller is told, and the state is quiet again |
| Transactions.RefusedRequest | rust/phonecam-desktop/src-tauri/src/pipeline.rs:752-757 | a request the phone refuses, for each reason: both sides keep their profile, the decoder is untouched, the caller is told why, and the state is quiet again |
| Transactions.TakenBackRequest | rust/phonecam-desktop/src-tauri/src/pipeline.rs:719-785 | a request the phone applies but that fails to commit or reset, while the decoder runs: after a compensation that goes through both sides are back at the old profile, the output is committed to it, the caller is told, and the state is quiet again |
| Transactions.FollowedSwitch | rust/phonecam-desktop/src-tauri/src/pipeline.rs:663-686 | a switch the phone makes by itself: both sides have the new profile, committed, and the state is quiet again |
| Transactions.TakenBackSwitch | rust/phonecam-desktop/src-tauri/src/pipeline.rs:687-702 | a switch of the phone that fails to commit or reset is taken back on both sides, under the same conditions |
| Transactions.FrameTravels | rust/phonecam-mobile-core/src/lib.rs:186-236 | a frame the app sends in a quiet state, with room in the decoder's queue, stands there as it was sent |
| AndroidStream.HandledWell | android/app/src/main/kotlin/com/phonecam/app/StreamManager.kt:386-518 | handling a request, also with a stopped encoder, makes exactly one report, with its id; Applied names the profile now active, in the asked dimensions and rate; otherwise the active profile is unchanged; the installed encoder is always the active profile's, and after Applied it runs exactly if it ran before or another profile was asked for; the stream stops only when a restore failed |
| AndroidStream.AppliedWithoutEncoder | android/app/src/main/kotlin/com/phonecam/app/StreamManager.kt:349-407 | after every camera switch whose encoder does not restart, the stream is still started and a request for the active profile is answered Applied while the encoder stands still |
| AndroidStream.TriedIsWell | android/app/src/main/kotlin/com/phonecam/app/StreamManager.kt:418-423 | trying the candidates applies one of them, with a running encoder, or leaves the active profile, and no later candidate runs on a stopped stream |
| AndroidStream.TriedWithdraws | android/app/src/main/kotlin/com/phonecam/app/StreamManager.kt:478-480 | trying only shrinks the list of available profiles, keeps it free of duplicates, and withdraws a first candidate that failed |
| AndroidStream.FailedIsNotTriedAgain | android/app/src/main/kotlin/com/phonecam/app/StreamManager.kt:386-484 | a requested profile that camera or encoder refused is withdrawn, and reported as unsupported without another attempt when asked for again |
| AndroidStream.StreamManager.HandleRemoteCameraSwitch | android/app/src/main/kotlin/com/phonecam/app/StreamManager.kt:296-384 | the whole new state of a camera switch, which changes neither the active profile nor whether the stream is started |
| AndroidLaws.CameraSwitchShows | android/app/src/main/kotlin/com/phonecam/app/StreamManager.kt:296-384 | the camera in use changes if and only if the switch was possible, wanted and completed; the encoder stands still afterwards if and only if it did not start again; nothing else changes |
| AndroidLaws.AttemptSucceeds | android/app/src/main/kotlin/com/phonecam/app/StreamManager.kt:455-476 | an attempt that camera and encoder take installs the profile with its own running encoder, and nothing else changes |
| AndroidLaws.AttemptFails | android/app/src/main/kotlin/com/phonecam/app/StreamManager.kt:478-518 | a failed attempt withdraws exactly that profile and tells the client, whose list changes if and only if the message can be sent and is valid there; what was active stays active, with a running encoder if the restore came that far; the stream goes on if and only if it succeeded |
| AndroidLaws.RequestWithdraws | android/app/src/main/kotlin/com/phonecam/app/StreamManager.kt:386-484 | over a whole request, exactly the profiles that were tried and refused are withdrawn |
| AndroidLaws.RefusalHasItsReason | android/app/src/main/kotlin/com/phonecam/app/StreamManager.kt:386-434 | for a legal profile: Applied is reported if and only if something was chosen; a request that was tried is reported as a capture failure, one that was not as unsupported |
| AndroidInStep.ChosenIsReported | android/app/src/main/kotlin/com/phonecam/app/StreamManager.kt:386-434 | what a request ends in can be read off before it is handled: the report and the active profile are the requested profile, its H.264 stand-in, or none, by the branch conditions |
| AndroidInStep.StaysInStep | android/app/src/main/kotlin/com/phonecam/app/StreamManager.kt:386-440 | the client accepts the report exactly when its channel has room and the desktop's list holds what was chosen; app and client go on with the same profile exactly then or when nothing changes; otherwise the request stays pending; all conditions are on the state and inputs before the call |
| AndroidInStep.OnlyAFullChannelParts | android/app/src/main/kotlin/com/phonecam/app/StreamManager.kt:386-440 | with a desktop that offers both codecs or neither, the report is accepted exactly when the channel has room, and the two stay in step exactly then or when nothing changes |
| AndroidInStep.FullChannelParts | rust/phonecam-mobile-core/src/lib.rs:474-486 | for every change reported into a full channel, the app streams the new profile, the client keeps the old one, and every later poll hands out nothing |
| AndroidInStep.FullChannelExample | rust/phonecam-mobile-core/src/lib.rs:474-486 | such a state and request, with this desktop's kind of list |
| AndroidInStep.FallbackParts | android/app/src/main/kotlin/com/phonecam/app/StreamManager.kt:418-434 | a remark on other desktops: one that offered HEVC without its H.264 stand-in would refuse the fallback's report |
| AndroidInStep.AppRunsStayInStep | android/app/src/main/kotlin/com/phonecam/app/StreamManager.kt:271-440 | over every run of requests and camera switches, whatever camera, encoders and channel do, app and client end in step if and only if no change was reported into a full channel |
| AndroidInStep.ReportsAreOrderly | android/app/src/main/kotlin/com/phonecam/app/StreamManager.kt:424-434 | the app's report is always one that an orderly run of the two-party system allows |
| OutputProfiles.QualifiedOutputProfiles | rust/phonecam-desktop/src-tauri/src/pipeline.rs:392-410 | the nested loops list exactly the legal profiles whose dimensions and rate the device takes, each once, and so each with both codecs |
| AndroidStream.StreamManager.PerformRemoteStreamConfiguration | android/app/src/main/kotlin/com/phonecam/app/StreamManager.kt:442-518 | fields, encoder, list and client after applying a profile, or after withdrawing it and restoring the old one: the whole new state, as the step above |
| AndroidStream.StreamManager.HandleRemoteStreamConfiguration | android/app/src/main/kotlin/com/phonecam/app/StreamManager.kt:386-440 | the whole new state after a request, with the loop over candidates, as the step the theorems above are about |
| Transport.FrameRoundTrip | rust/phonecam-protocol/src/framing.rs:23-75 | an encoded frame decodes to its message and declares between one byte and 32 MiB |
| Transport.EncodesExactly | rust/phonecam-protocol/src/framing.rs:23-47 | a message is framed if and only if its body can be encoded and stays within 32 MiB; the frame is its length, type and body |
| Transport.DecodesExactly | rust/phonecam-protocol/src/framing.rs:49-75 | a frame decodes to m if and only if it declares its own length within the limit, has a known type, and its body decodes to m with nothing after it; the other errors are named |
| Transport.ReadsExactly | rust/phonecam-transport/src/client.rs:233-253 | a message is read if and only if the stream begins with a frame of it, and what follows is left; the reader waits if and only if length or declared bytes are incomplete |
| Transport.ReadsWithinBounds | rust/phonecam-transport/src/client.rs:233-253 | whoever wrote the bytes, a message that is read had a declared length of one byte to 32 MiB and a known type |
| Transport.ReadsWritten | rust/phonecam-transport/src/client.rs:224-253 | a written message is read back, and no byte after it is consumed |
| Transport.ReadsNothingEarly | rust/phonecam-transport/src/client.rs:233-253 | from any proper part of a frame nothing is read |
| Transport.DeliversInOrder | rust/phonecam-transport/src/client.rs:200-222 | for every byte stream, also a malformed one, what a prefix delivers is a prefix of what the whole delivers |
| Transport.DeliversContained | rust/phonecam-transport/src/client.rs:200-222 | on any prefix of the written bytes the reader has delivered exactly the messages that lie wholly in it, up to a handshake and without pings |
| Transport.DeliversExactly | rust/phonecam-transport/src/client.rs:175-222 | however pings are interleaved, exactly the messages sent arrive in order with no byte left over, if and only if each can be framed and is neither a handshake nor the ping |
| Transport.ReaderLoop | rust/phonecam-transport/src/client.rs:200-222 | the reading loop computes the recursive reception of its stream |
| Transport.WriterLoop | rust/phonecam-transport/src/client.rs:175-198 | the writing loop puts exactly the frames of its wake-ups on the wire, up to the first that cannot be framed |
| Bytes.LeRoundTrip | windows/PhoneCamDriver/src/frame_receiver.cpp:21-31 | reading little-endian bytes undoes writing them, at any width |
| Bytes.FromBeRoundTrip | rust/phonecam-protocol/src/framing.rs:55-59 | big-endian bytes are determined by the number they encode |
| FramePackets.HalfAgain | windows/PhoneCamDriver/src/stream_formats.h:41-43 | w*h + w*h/2 == w*h*3/2 for even widths |
| FramePackets.PayloadSizesAgree | apple/PhoneCamDriver/PhoneCamDriver/IPCReceiver.swift:420-441 | the writer and both receivers compute the same payload size, and the receivers accept exactly the five resolutions |
| FramePackets.ParseAppend | apple/PhoneCamDriver/PhoneCamDriver/IPCReceiver.swift:254-286 | parsing in two goes, with the remainder carried over, is parsing at once, for any bytes, malformed headers included |
| FramePackets.ParseRemainder | apple/PhoneCamDriver/PhoneCamDriver/IPCReceiver.swift:254-269 | what is left over is an incomplete header or an incomplete packet with a legal header |
| FramePackets.WriteThenParse | rust/phonecam-desktop/src-tauri/src/driver_windows.rs:65-99 | any list of frames of the known resolutions is parsed back exactly, with nothing left over |
| FramePackets.ParsesAroundJunk | apple/PhoneCamDriver/PhoneCamDriver/IPCReceiver.swift:254-264 | headers of unknown sizes among the packets are skipped as a whole, and every packet is read |
| FramePackets.PipeWriter.WriteAll | rust/phonecam-desktop/src-tauri/src/driver_windows.rs:234-269 | whatever part each system call takes, what reaches the pipe is a prefix; all of it does, and the write succeeds, exactly if no call fails or takes nothing before the end |
| FramePackets.PipeWriter.WriteFrame | rust/phonecam-desktop/src-tauri/src/driver_windows.rs:65-99 | a frame is written, as its packet, exactly if the size is right, the pipe is connected and the calls take header and data; each refusal has its error and writes nothing; a failing pipe leaves a proper prefix |
| FrameReceivers.ChunkIndependence | apple/PhoneCamDriver/PhoneCamDriver/IPCReceiver.swift:221-286 | every way of cutting any byte stream gives the same frames and the same remainder |
| FrameReceivers.MacRoundTrip | rust/phonecam-desktop/src-tauri/src/driver_macos.rs:50-84 | frames written by the desktop and cut at will arrive exactly at the macOS receiver |
| FrameReceivers.IpcClient.ProcessPendingData | apple/PhoneCamDriver/PhoneCamDriver/IPCReceiver.swift:254-286 | the loop delivers the parsed packets and keeps the parse's remainder |
| FrameReceivers.IpcClient.ReadAll | apple/PhoneCamDriver/PhoneCamDriver/IPCReceiver.swift:221-252 | reading any chunks one by one delivers the parse of their concatenation |
| FrameReceivers.CappedRemainder | windows/PhoneCamDriver/src/frame_receiver.cpp:214-254 | after every read the pending bytes are strictly below the cap |
| FrameReceivers.CapExactly | windows/PhoneCamDriver/src/frame_receiver.cpp:221-225 | for reads of at most one buffer, a capped read equals the uncapped one if and only if the bytes fit under the cap |
| FrameReceivers.CapNeverBites | windows/PhoneCamDriver/src/frame_receiver.cpp:214-254 | if no accepted header is above 1440p, reads of at most 64 KiB never meet the cap, in every stream |
| FrameReceivers.RunsExactly | windows/PhoneCamDriver/src/frame_receiver.cpp:214-254 | over any run of reads, each read delivers what the uncapped parse delivers if and only if every read fits under the cap; then the whole run is the uncapped one |
| FrameReceivers.LosesWhenFull | windows/PhoneCamDriver/src/frame_receiver.cpp:221-225 | a read that does not fit delivers nothing, where the uncapped parse delivers at least one frame |
| FrameReceivers.PublishesTheUncappedParse | windows/PhoneCamDriver/src/frame_receiver.cpp:246-250 | if no accepted header is above 1440p, the latest frame and the sequence number over a run are those of the uncapped parse of all its bytes, however they were cut |
| FrameReceivers.WindowsRoundTrip | windows/PhoneCamDriver/src/frame_receiver.cpp:214-287 | frames up to 1440p, written by the desktop and read in such buffers, all arrive, in order; the last is the one published, and the sequence number counts them all |
| FrameReceivers.FullReadsLoseUhdFrame | windows/PhoneCamDriver/src/frame_receiver.cpp:17-19 | every 2160p stream read in full buffers loses its frame at the 190th read, though the uncapped parse delivers it |
| FrameReceivers.FrameReceiver.ProcessBytes | windows/PhoneCamDriver/src/frame_receiver.cpp:214-254 | a read, in place, leaves the capped parse's remainder below the cap, and the latest frame and sequence number of the frames it parsed |
| FrameReceivers.FrameReceiver.ReadAll | windows/PhoneCamDriver/src/frame_receiver.cpp:178-254 | the read loop, over any reads, leaves the capped run's remainder below the cap, and the latest frame and sequence number of all its frames |
| FrameReceivers.LastIsVisible | windows/PhoneCamDriver/src/frame_receiver.cpp:68-80 | after any frames since the start a reader gets the last of them, unless their number is a multiple of 2^64 |
| PixelLayouts.CopyPlaneRows | rust/phonecam-desktop/src-tauri/src/decode.rs:415-443 | exactly the visible bytes of every row are copied, in row order, if and only if the plane covers them at its stride |
| PixelLayouts.PlanarToNv12 | rust/phonecam-desktop/src-tauri/src/decode.rs:371-413 | the planes' visible bytes become luma and interleaved chroma, if and only if size and planes are legal |
| PixelLayouts.PlanarSample | rust/phonecam-desktop/src-tauri/src/decode.rs:371-413 | where every luma and chroma sample of a decoded picture goes, first chroma before second |
| PixelLayouts.PackedNv12 | rust/phonecam-desktop/src-tauri/src/output.rs:361-400 | every frame whose planes cover it, and no other, is packed without padding |
| PixelLayouts.PackedByte | rust/phonecam-desktop/src-tauri/src/output.rs:361-400 | where every byte of the packed frame comes from |
| PixelLayouts.VisibleByteAt | rust/phonecam-desktop/src-tauri/src/decode.rs:438-441 | byte row * width + column of a copy is byte row * stride + column of the plane |
| Yuyv.Macropixel | rust/phonecam-desktop/src-tauri/src/convert.rs:61-70 | the four bytes at a macropixel are luma of its own row and chroma of row / 2 |
| Yuyv.Nv12ToYuyvConverter.Convert | rust/phonecam-desktop/src-tauri/src/convert.rs:31-78 | the converter accepts exactly the frames of its size whose planes cover them, and computes the image byte by byte |
| Yuyv.ConvertNv12ToYuy2 | windows/PhoneCamDriver/src/output_pin.cpp:1268-1311 | the filter accepts exactly even sizes whose payload and buffer are long enough, fills the image, and touches nothing else |
| Yuyv.SameImage | windows/PhoneCamDriver/src/output_pin.cpp:1268-1311 | for every strided frame the desktop converts, the filter's image of the packed bytes is the same, byte for byte |
| AndroidPlanes.SampleLands | android/app/src/main/kotlin/com/phonecam/app/VideoEncoder.kt:260-294 | byte row * width + column of a copied plane is the sample at start + row * rowStride + column * pixelStride |
| AndroidPlanes.CopyPlane | android/app/src/main/kotlin/com/phonecam/app/VideoEncoder.kt:260-294 | the loop writes exactly the plane's samples at the offset, nothing else, and restores the buffer position |
| AndroidPlanes.Yuv420888ToI420 | android/app/src/main/kotlin/com/phonecam/app/VideoEncoder.kt:246-258 | the three planes land in their parts of the buffer, zeros behind them for odd sizes, at any legal strides |
| AndroidPlanes.I420ToNv12 | android/app/src/main/kotlin/com/phonecam/app/VideoEncoder.kt:296-312 | luma is kept and the chroma planes are interleaved |
| AndroidPlanes.CaptureMatchesDecode | android/app/src/main/kotlin/com/phonecam/app/VideoEncoder.kt:246-312 | the same picture, at any legal strides on either side, gives the encoder and the packed decoder output the same NV12 bytes |
| NalUnits.SplitExactly | android/app/src/main/kotlin/com/phonecam/app/EncodedNalUnit.kt:47-74 | length-prefixed data splits into a list of units if and only if it is the encoding of that list, at any prefix width |
| NalUnits.ConvertedExactly | android/app/src/main/kotlin/com/phonecam/app/EncodedNalUnit.kt:47-74 | conversion gives an Annex B string if and only if the payload encodes a list of non-empty units with valid headers and the string is that list with start codes |
| NalUnits.SameLength | android/app/src/main/kotlin/com/phonecam/app/EncodedNalUnit.kt:61-73 | the output is exactly as long as the input |
| NalUnits.ConvertLengthPrefixed | android/app/src/main/kotlin/com/phonecam/app/EncodedNalUnit.kt:47-74 | the two-pass loop, with signed 32-bit lengths, computes the conversion and fills its output exactly |
| NalUnits.ToAnnexB | android/app/src/main/kotlin/com/phonecam/app/EncodedNalUnit.kt:6-21 | the method computes the repackaging that `RepackagedExactly` fixes from outside for every payload |
| NalUnits.ToAnnexBExactly | android/app/src/main/kotlin/com/phonecam/app/EncodedNalUnit.kt:6-21 | a list with valid headers comes out as Annex B if and only if its first length is neither 1 nor in 256..511, or every length is 1 |
| NalUnits.RepackagedExactly | android/app/src/main/kotlin/com/phonecam/app/EncodedNalUnit.kt:6-21 | what becomes of every payload: one that begins with a start code is unchanged; otherwise a length-prefixed list with valid headers becomes that list in Annex B; what is no such list becomes Annex B of one unit if its first byte is a valid header, and is unchanged if not |
| NalUnits.AnnexBIsKept | android/app/src/main/kotlin/com/phonecam/app/EncodedNalUnit.kt:7-9 | data in Annex B form comes out as it is, whatever the units |
| NalUnits.RepackagedTwice | android/app/src/main/kotlin/com/phonecam/app/EncodedNalUnit.kt:6-21 | repackaging is idempotent on every payload |
| NalUnits.AssembledExactly | ios/PhoneCam/PhoneCam/VideoEncoder.swift:242-272 | iOS succeeds if and only if the width is 1 to 4, the data encodes a list of units and something comes out, and then the output is parameter sets and units with start codes |
| NalUnits.PhonesAgree | ios/PhoneCam/PhoneCam/VideoEncoder.swift:242-272 | at width 4 without parameter sets, Android's conversion of non-empty data is iOS's result where every header is valid, and Android refuses where one is not |
| NalUnits.MakeAnnexB | ios/PhoneCam/PhoneCam/VideoEncoder.swift:242-272 | the appending loops compute that result |
| StartCodes.ValidateH264AnnexB | rust/phonecam-desktop/src-tauri/src/decode.rs:461-484 | the scanner, which jumps past headers, answers true if and only if a start code occurs and every start code is followed by a valid header |
| StartCodes.AnnexBAccepted | rust/phonecam-desktop/src-tauri/src/decode.rs:461-484 | Annex B data of units with valid headers is accepted if and only if there is a unit and every start code inside a unit is followed there by a valid header |
| StartCodes.NormalizeH264AnnexB | rust/phonecam-desktop/src-tauri/src/decode.rs:445-459 | data that begins with a start code is kept exactly if the scanner accepts it, a bare unit with a valid header gets a start code, everything else is refused |
| StartCodes.NormalizedExactly | rust/phonecam-desktop/src-tauri/src/decode.rs:445-459 | what becomes of every payload: data that begins with a start code is taken unchanged if and only if each start code is followed by a valid header; other data counts as one unit, with a valid header or refused |
| StartCodes.AnnexBToDesktop | rust/phonecam-desktop/src-tauri/src/decode.rs:445-459 | an Android access unit in Annex B form already reaches the decoder as it is, if and only if any start code inside a unit is followed there by a valid header |
| StartCodes.AndroidToDesktop | rust/phonecam-desktop/src-tauri/src/decode.rs:445-459 | the desktop normalises Android's repackaged access unit to its Annex B form if and only if the first length does not look like a start code, or every length is 1, and any start code inside a unit is followed there by a valid header |
| StartCodes.IosToDesktop | rust/phonecam-desktop/src-tauri/src/decode.rs:445-459 | iOS access units, at every prefix width and with parameter sets in front, are taken unchanged if and only if any start code inside a unit is followed there by a valid header |
| DecodeTiming.ProfileMeetsTiming | rust/phonecam-desktop/src-tauri/src/decode.rs:486-495 | sorting and looking up the 95th percentile answers true if and only if at least ceil(95n/100) times are within the budget; false for no times or rate 0; the index is in bounds |
| DecodeTiming.TimingAnyOrder | rust/phonecam-desktop/src-tauri/src/decode.rs:486-495 | the answer does not depend on the order of the times |
| DecodeTiming.SortedCount | rust/phonecam-desktop/src-tauri/src/decode.rs:491-494 | in an ascending list, the element at k is within the budget exactly when more than k elements are |
| DecodeTiming.FewTimesAllCount | rust/phonecam-desktop/src-tauri/src/decode.rs:491-494 | for fewer than twenty times, every one of them must be within the budget |
| AdbMonitor.ReplaysReport | rust/phonecam-desktop/src-tauri/src/adb.rs:300-355 | replaying a poll's events, in any order, turns the old states into the new ones without contradiction |
| AdbMonitor.LogIsTheLastPoll | rust/phonecam-desktop/src-tauri/src/adb.rs:279-361 | after any successful and failed polls, the whole log replayed from nothing gives the serial-to-state map of the last successful poll |
| AdbMonitor.PreviousStateIsReplayed | rust/phonecam-desktop/src-tauri/src/adb.rs:320-350 | each event's previous state is the replayed state just before it |
| AdbMonitor.Difference | rust/phonecam-desktop/src-tauri/src/adb.rs:300-355 | the two loops report every change once and nothing else |
| AdbMonitor.ReportsExactly | rust/phonecam-desktop/src-tauri/src/adb.rs:300-355 | a report holds exactly the events that say what changed, each once: kind, previous and current state as the two lists have them, and the device as the new list has it, or as it was last listed when it is gone |
| AdbMonitor.CollectBySerial | rust/phonecam-desktop/src-tauri/src/adb.rs:295-298 | the last entry for a serial counts |
| AdbMonitor.CollectMeaning | rust/phonecam-desktop/src-tauri/src/adb.rs:295-298 | a serial is known if and only if an entry has it, and then as the last such entry says |
| AdbMonitor.LastSeenExactly | rust/phonecam-desktop/src-tauri/src/adb.rs:286-293 | what the monitor remembers is the list of the last poll that did not fail, which is empty for the error that says there are no devices |
| AdbMonitor.DeviceMonitor.Tick | rust/phonecam-desktop/src-tauri/src/adb.rs:279-361 | one turn of the monitor keeps the log equal to the last successful poll and reports exactly the changes |

## Left out

- Sockets, pipes, V4L2, CMIO, DirectShow, MediaCodec, VideoToolbox, CameraX, AVFoundation, the user interface: foreign code; success or failure of each call is an input.
- The OpenH264 and rust_h265 decoders and their bitstream parsers: what a decode call returns is an input, and a NAL unit carries its kind.
- The bincode encoding of message bodies: a parameter of `Transport`, with a stated round trip; bodies that no loop looks into are opaque there.
- Reconfiguration.AgreementExactly: unconditional agreement is false; the exact condition is proved, and `Disagreement` shows two runs that fail it.
- Decoding.FirstPictureFromKeyframe: that the first picture always comes from the keyframe is false for a decoder with delay; the exact condition is proved.
- Decoding.DecoderThread.ApplyReset: a reset is one step, from the request to the drained queue; that it returns is not claimed, since the worker can block on a full event queue while the reset waits. The event queue has no bound in the model.
- Decoding.HevcBackend.Decode: frame conversion after the library is an input of the unit's outcome.
- MobileCore.PollInboxMeaning: a report that finds the outbound channel full leaves its request pending, and polling then consumes nothing; that the phone recovers is not claimed.
- The capacity of the transport's channels between the parties: messages wait in the sender's log; a full outbound channel of the phone is the call's `fits` input.
- Deadlines and timeouts: whether a request's deadline has passed is an input of the tick. A keepalive timeout or a closed connection is the end of the byte stream in `Transport`.
- Transport.ReaderLoop: a receiver that drops the inbound channel ends the source's loop early, which is not modelled.
- Error texts, status broadcasts and timestamps of video frames: no decision depends on them.
- FrameReceivers.FrameReceiver.ProcessBytes: the lock around the receiver is not modelled; calls are one after the other.
- FrameReceivers.IpcClient.ProcessPendingData: pending data is a sequence with base zero after bytes are removed, as the Swift code intends; a packet whose sample buffer cannot be made counts as delivered.
- FramePackets.PipeWriter.WriteFrame: the socket write on macOS is the same packet through the standard library and has no model of its own.
- Yuyv.ConvertNv12ToYuy2: a size that passes the source's 32-bit comparison without fitting the buffer is outside the contract, as are sizes above the address space; `ReceivedSizesAreCompared` shows that no frame the receiver accepts is such a size.
- Yuyv.Nv12ToYuyvConverter.Convert: an image of more than 2^64 - 1 bytes, which cannot exist in memory, is outside the contract.
- PixelLayouts.PackedNv12: the same for the packed size.
- AndroidPlanes.CopyPlane: planes the camera could not have delivered, whose rows do not fit their stride or whose buffer is too short, are outside the contract; the source throws there.
- AndroidStream.StreamManager.HandleRemoteStreamConfiguration: calls from other threads while a request is handled, among them stop and a camera switch, are not interleaved; bit rates and status texts are not modelled.
- The Android app's membership of its active profile in its list of available profiles: it can fail after a failed fallback, so it is not claimed.
- DecodeTiming.ProfileMeetsTiming: times are whole numbers and the budget is given; the floating-point frame period is not modelled.
- AdbMonitor.DeviceMonitor.Tick: the order of events within a poll follows the map's order in the source and is left open here; a dropped listener, which ends the source's loop, is not modelled.
- StartCodes.NormalizeH264AnnexB: the branch that prefixes a start code does not validate the rest in the source, so idempotence is not claimed.
- Shifts and bitwise or of disjoint bytes are written as multiplication and addition, and bit masks as remainders.
- Frame buffer queues, bit-rate tables, media-type enumeration, QR and DNS helpers, serial selection: small or finite, easy members only.
- The iOS stream manager: not part of this model beyond `makeAnnexB`.
