/** The Android app and the Rust client behind its bridge: when both go on with the same profile, for one request
    and over every run of the app. */
module AndroidInStep {

  import opened Wrappers
  import opened Protocol
  import opened Pipeline
  import opened MobileCore
  import opened AndroidStream
  import Reconfiguration
  import OrderlyRuns
  import OutputProfiles

  /** The client accepts frames of one profile: the one it reported last. */
  predicate InStep(a: Android) {
    a.phone.active == ActiveProfile(a)
  }

  /** The app's list has no duplicates, and what it holds the client supports. The app removes a profile before it
      tells the client, so the client may support more. */
  ghost predicate ClientOffers(a: Android) {
    Distinct(a.available) && forall p | p in a.available :: p in a.phone.supported
  }

  function Fallback(p: StreamProfile): StreamProfile {
    p.(codec := H264)
  }

  /** The profile a request will end in, read off before it is handled; none if it will be refused or fail. */
  function Chosen(a: Android, profile: StreamProfile, attempts: seq<Attempt>): Option<StreamProfile>
    requires |attempts| == 2
  {
    if profile !in a.available then None
    else if profile == ActiveProfile(a) then Some(profile)
    else if a.switching || !a.started || !a.cameraReady then None
    else if attempts[0].configures then Some(profile)
    else if attempts[0].restore.Restored? && profile.codec.Hevc? && Fallback(profile) in a.available && attempts[1].configures
    then Some(Fallback(profile))
    else None
  }

  /** The request will change the active profile. */
  predicate Changes(a: Android, profile: StreamProfile, attempts: seq<Attempt>)
    requires |attempts| == 2
  {
    Chosen(a, profile, attempts).Some? && Chosen(a, profile, attempts).value != ActiveProfile(a)
  }

  // ----- What trying the candidates ends in -----

  lemma TriedIsChosen(a: Android, profile: StreamProfile, attempts: seq<Attempt>)
    requires |attempts| == 2 && ValidateProfile(profile).Ok?
    requires profile in a.available && profile != ActiveProfile(a) && !a.switching
    ensures |Candidates(profile, a.available)| <= 2
    ensures Tried(a.(switching := true), Candidates(profile, a.available), attempts).1 == Chosen(a, profile, attempts)
  {
    var busy, candidates := a.(switching := true), Candidates(profile, a.available);
    TriedUnfolds(busy, candidates, attempts);
    var (next, applied) := if a.started then Performed(busy, profile, attempts[0]) else (busy, None);
    if a.started { FirstAttempt(busy, profile, attempts[0]); }
    TriedUnfolds(next, candidates[1..], attempts[1..]);
    if |candidates| == 2 {
      assert candidates[1] == Fallback(profile);
      SecondAttempt(next, Fallback(profile), attempts[1]);
    }
    hide Performed, Tried;
  }

  lemma TriedUnfolds(a: Android, candidates: seq<StreamProfile>, attempts: seq<Attempt>)
    requires |candidates| <= |attempts| && |candidates| <= 2
    ensures candidates == [] ==> Tried(a, candidates, attempts) == (a, None)
    ensures candidates != [] ==>
              var (next, applied) := if a.started then Performed(a, candidates[0], attempts[0]) else (a, None);
              Tried(a, candidates, attempts) ==
              if applied.Some? then (next, applied) else Tried(next, candidates[1..], attempts[1..])
    ensures |candidates| == 1 ==>
              Tried(a, candidates, attempts).1 == if a.started then Performed(a, candidates[0], attempts[0]).1 else None
  {
    hide Performed;
  }

  lemma FirstAttempt(a: Android, profile: StreamProfile, attempt: Attempt)
    requires ValidateProfile(profile).Ok? && a.started
    ensures var (next, applied) := Performed(a, profile, attempt);
            && (applied == if a.cameraReady && attempt.configures then Some(profile) else None)
            && next.cameraReady == a.cameraReady
            && (applied.None? ==> next.started == (!a.cameraReady || attempt.restore.Restored?))
  {
    hide UpdateCapabilities;
  }

  lemma SecondAttempt(a: Android, profile: StreamProfile, attempt: Attempt)
    requires (profile.width, profile.height) in SUPPORTED_DIMENSIONS
    ensures Performed(a, profile, attempt).1 == if a.cameraReady && attempt.configures then Some(profile) else None
  {
    hide UpdateCapabilities;
  }

  /** What handling does to the active profile and what it reports, for every request, is what was chosen. */
  lemma ChosenIsReported(a: Android, id: U32, profile: StreamProfile, attempts: seq<Attempt>, fits: bool)
    requires Kept(a) && |attempts| == 2 && ValidateProfile(profile).Ok?
    ensures var after, chosen := Handled(a, id, profile, attempts, fits), Chosen(a, profile, attempts);
            && |after.reports| == |a.reports| + 1
            && var report := after.reports[|a.reports|];
               && (report.code == RESULT_APPLIED <==> chosen.Some?)
               && report.profile == (if chosen.Some? then chosen.value else profile)
               && ActiveProfile(after) == (if chosen.Some? then chosen.value else ActiveProfile(a))
  {
    HandledWell(a, id, profile, attempts, fits);
    if profile in a.available && profile != ActiveProfile(a) && !a.switching {
      TriedIsChosen(a, profile, attempts);
      var (tried, applied) := Tried(a.(switching := true), Candidates(profile, a.available), attempts);
      ReportedOnly(tried, id, RESULT_CAPTURE_FAILED, profile, fits);
      if applied.Some? { ReportedOnly(tried, id, RESULT_APPLIED, applied.value, fits); }
      hide Tried, Candidates, Reported, Kept, SomeRestoreFails;
    } else {
      ReportedOnly(a, id, RESULT_UNSUPPORTED, profile, fits);
      ReportedOnly(a, id, RESULT_APPLIED, profile, fits);
      hide Reported, Kept, SomeRestoreFails;
    }
  }

  // ----- What the client keeps while candidates are tried -----

  lemma {:induction false} TriedKeepsClient(a: Android, candidates: seq<StreamProfile>, attempts: seq<Attempt>)
    requires |candidates| <= |attempts|
    ensures var phone := Tried(a, candidates, attempts).0.phone;
            phone == a.phone.(supported := phone.supported, sent := phone.sent)
    decreases |candidates|
  {
    if candidates != [] {
      var next := if a.started then Performed(a, candidates[0], attempts[0]).0 else a;
      assert next.phone == a.phone.(supported := next.phone.supported, sent := next.phone.sent) by {
        hide ValidateUpdate;
      }
      hide Performed;
      TriedKeepsClient(next, candidates[1..], attempts[1..]);
    }
  }

  lemma PerformedKeepsOffer(a: Android, profile: StreamProfile, attempt: Attempt)
    requires ClientOffers(a)
    ensures ClientOffers(Performed(a, profile, attempt).0)
  {
    WithoutMeaning(a.available, profile);
    var stopped := a.(encoder := a.encoder.(running := false), available := Without(a.available, profile));
    AnnouncedKeepsOffer(stopped, attempt.updateFits);
    hide ClientOffers, Announced, Without;
    assert forall b: Android, p, r :: ClientOffers(RestoredAfter(b, p, r)) <==> ClientOffers(b);
  }

  lemma AnnouncedKeepsOffer(a: Android, fits: bool)
    requires ClientOffers(a)
    ensures ClientOffers(Announced(a, fits))
  {
    hide Distinct, ValidateUpdate;
  }

  /** An applied candidate that was available is still supported by the client. */
  lemma {:induction false} TriedKeepsOffer(a: Android, candidates: seq<StreamProfile>, attempts: seq<Attempt>)
    requires ClientOffers(a) && |candidates| <= |attempts|
    requires Distinct(candidates) && forall p | p in candidates :: p in a.available
    ensures var (after, applied) := Tried(a, candidates, attempts);
            ClientOffers(after) && (applied.Some? ==> applied.value in after.phone.supported)
    decreases |candidates|
  {
    if candidates != [] {
      var next := if a.started then Performed(a, candidates[0], attempts[0]).0 else a;
      PerformedKeepsOffer(a, candidates[0], attempts[0]);
      OthersStay(a, candidates, attempts[0]);
      AppliedUnchanged(a, candidates[0], attempts[0]);
      hide Performed, Distinct;
      TailDistinct(candidates);
      TriedKeepsOffer(next, candidates[1..], attempts[1..]);
    }
  }

  lemma TailDistinct(candidates: seq<StreamProfile>)
    requires candidates != [] && Distinct(candidates)
    ensures Distinct(candidates[1..])
  {
  }

  lemma AppliedUnchanged(a: Android, profile: StreamProfile, attempt: Attempt)
    ensures var (after, applied) := Performed(a, profile, attempt);
            applied.Some? ==> applied.value == profile && after.phone == a.phone && after.available == a.available
  {
  }

  lemma OthersStay(a: Android, candidates: seq<StreamProfile>, attempt: Attempt)
    requires candidates != [] && Distinct(candidates) && Distinct(a.available)
    requires forall p | p in candidates :: p in a.available
    ensures forall p | p in candidates[1..] :: p in a.available && p in Performed(a, candidates[0], attempt).0.available
  {
    WithoutMeaning(a.available, candidates[0]);
    forall p | p in candidates[1..] ensures p in a.available && p != candidates[0] {
      assert p in candidates;
    }
    var after := Performed(a, candidates[0], attempt).0;
    assert after.available == a.available || after.available == Without(a.available, candidates[0]) by {
      hide Distinct, UpdateCapabilities;
    }
    hide Distinct, Performed;
  }

  lemma ReportAccepted(a: Android, id: U32, code: U8, profile: StreamProfile, fits: bool)
    requires a.phone.connected && (id == 0 || (a.phone.pending.Some? && a.phone.pending.value.0 == id)) && code <= 2
    requires ValidateProfile(profile).Ok?
    ensures var after := Reported(a, id, code, profile, fits);
            && after == a.(phone := after.phone, reports := after.reports)
            && |after.reports| == |a.reports| + 1
            && var report := after.reports[|a.reports|];
               && report.code == code
               && (report.accepted <==> fits && (code == 0 ==> profile in a.phone.supported && profile in a.phone.peerSupported))
               && after.phone.active == (if report.accepted && code == 0 then profile else a.phone.active)
               && after.phone.supported == a.phone.supported && after.phone.peerSupported == a.phone.peerSupported
               && after.phone.connected
               && (report.accepted ==> after.phone.pending == if id == 0 then a.phone.pending else None)
               && (!report.accepted ==> after.phone == a.phone)
  {
    assert CodecFromId(CodecId(profile.codec)) == Some(profile.codec);
    hide ValidateProfile;
  }

  // ----- One request -----

  /** The client holds this request and waits for its answer. */
  predicate Holds(a: Android, id: U32, profile: StreamProfile) {
    a.phone.connected && id != 0 && a.phone.pending == Some((id, profile)) && ValidateProfile(profile).Ok?
  }

  /** The desktop's list does not stand in the way of what was chosen. */
  predicate Granted(a: Android, chosen: Option<StreamProfile>) {
    chosen.Some? ==> chosen.value in a.phone.peerSupported
  }

  /** What a handled request leaves of app and client, given whether the report is accepted. */
  ghost predicate Answered(a: Android, after: Android, chosen: Option<StreamProfile>, accepted: bool) {
    && ClientOffers(after)
    && after.phone.connected && after.phone.peerSupported == a.phone.peerSupported
    && after.phone.active == (if accepted && chosen.Some? then chosen.value else a.phone.active)
    && after.phone.pending == (if accepted then None else a.phone.pending)
  }

  lemma AnsweredWithoutTrying(a: Android, id: U32, profile: StreamProfile, attempts: seq<Attempt>, fits: bool)
    requires ClientOffers(a) && |attempts| == 2 && Holds(a, id, profile)
    requires profile !in a.available || profile == ActiveProfile(a) || a.switching
    ensures var after, chosen := Handled(a, id, profile, attempts, fits), Chosen(a, profile, attempts);
            && |after.reports| == |a.reports| + 1
            && after.reports[|a.reports|].accepted == (fits && Granted(a, chosen))
            && Answered(a, after, chosen, fits && Granted(a, chosen))
  {
    ReportAccepted(a, id, if profile in a.available && profile == ActiveProfile(a) then 0 else 1, profile, fits);
    hide Report, ValidateProfile, Distinct, Reported, Tried, Candidates;
  }

  lemma AnsweredByTrying(a: Android, id: U32, profile: StreamProfile, attempts: seq<Attempt>, fits: bool)
    requires ClientOffers(a) && |attempts| == 2 && Holds(a, id, profile)
    requires profile in a.available && profile != ActiveProfile(a) && !a.switching
    ensures var after, chosen := Handled(a, id, profile, attempts, fits), Chosen(a, profile, attempts);
            && |after.reports| == |a.reports| + 1
            && after.reports[|a.reports|].accepted == (fits && Granted(a, chosen))
            && Answered(a, after, chosen, fits && Granted(a, chosen))
  {
    var busy, candidates := a.(switching := true), Candidates(profile, a.available);
    TriedIsChosen(a, profile, attempts);
    CandidatesAvailable(profile, a.available);
    TriedKeepsOffer(busy, candidates, attempts);
    TriedKeepsClient(busy, candidates, attempts);
    ChosenIsValid(a, profile, attempts);
    var (tried, applied) := Tried(busy, candidates, attempts);
    TriedReportsUntouched(busy, candidates, attempts);
    ReportAccepted(tried, id, if applied.Some? then 0 else 2, if applied.Some? then applied.value else profile, fits);
    hide Report, ValidateProfile, Distinct, Reported, Tried, Candidates, Chosen;
  }

  lemma {:induction false} TriedReportsUntouched(a: Android, candidates: seq<StreamProfile>, attempts: seq<Attempt>)
    requires |candidates| <= |attempts|
    ensures Tried(a, candidates, attempts).0.reports == a.reports
    decreases |candidates|
  {
    if candidates != [] {
      var next := if a.started then Performed(a, candidates[0], attempts[0]).0 else a;
      assert next.reports == a.reports by { hide UpdateCapabilities; }
      hide Performed;
      TriedReportsUntouched(next, candidates[1..], attempts[1..]);
    }
  }

  lemma CandidatesAvailable(profile: StreamProfile, available: seq<StreamProfile>)
    requires profile in available
    ensures var candidates := Candidates(profile, available);
            Distinct(candidates) && forall p | p in candidates :: p in available
  {
  }

  lemma ChosenIsValid(a: Android, profile: StreamProfile, attempts: seq<Attempt>)
    requires |attempts| == 2 && ValidateProfile(profile).Ok?
    ensures var chosen := Chosen(a, profile, attempts);
            chosen.Some? ==> ValidateProfile(chosen.value).Ok? && chosen.value in a.available
                             && (chosen.value == profile || chosen.value == Fallback(profile))
  {
  }

  /** Handling a request the client holds: the client accepts the report exactly when its channel has room and the
      desktop's list holds what was chosen, and app and client then go on with the same profile; otherwise they do
      exactly when nothing changes. All of it can be read off before the request is handled. */
  lemma StaysInStep(a: Android, id: U32, profile: StreamProfile, attempts: seq<Attempt>, fits: bool)
    requires Kept(a) && InStep(a) && ClientOffers(a) && |attempts| == 2 && Holds(a, id, profile)
    ensures var after, granted := Handled(a, id, profile, attempts, fits), Granted(a, Chosen(a, profile, attempts));
            && |after.reports| == |a.reports| + 1
            && (after.reports[|a.reports|].accepted <==> fits && granted)
            && (InStep(after) <==> (fits && granted) || !Changes(a, profile, attempts))
            && after.phone.pending == (if fits && granted then None else a.phone.pending)
            && Kept(after) && ClientOffers(after)
            && after.phone.connected && after.phone.peerSupported == a.phone.peerSupported
  {
    HandledWell(a, id, profile, attempts, fits);
    ChosenIsReported(a, id, profile, attempts, fits);
    if profile !in a.available || profile == ActiveProfile(a) || a.switching {
      AnsweredWithoutTrying(a, id, profile, attempts, fits);
    } else {
      AnsweredByTrying(a, id, profile, attempts, fits);
    }
    hide Handled, Chosen, Granted, SomeRestoreFails, Distinct, ValidateProfile, ClientOffers;
  }

  // ----- With this desktop -----

  /** The desktop offers both codecs or neither, so it never refuses what was chosen: only a full outbound channel
      can part the app from its client, and only when the profile changes. */
  lemma OnlyAFullChannelParts(a: Android, id: U32, profile: StreamProfile, attempts: seq<Attempt>, fits: bool)
    requires Kept(a) && InStep(a) && ClientOffers(a) && |attempts| == 2 && Holds(a, id, profile)
    requires OutputProfiles.TwinClosed(a.phone.peerSupported) && profile in a.phone.peerSupported
    ensures var after := Handled(a, id, profile, attempts, fits);
            && |after.reports| == |a.reports| + 1
            && (after.reports[|a.reports|].accepted <==> fits)
            && (InStep(after) <==> fits || !Changes(a, profile, attempts))
            && after.phone.pending == (if fits then None else a.phone.pending)
            && Kept(after) && ClientOffers(after)
            && after.phone.connected && after.phone.peerSupported == a.phone.peerSupported
  {
    ChosenIsValid(a, profile, attempts);
    StaysInStep(a, id, profile, attempts, fits);
    hide Handled, ValidateProfile, Distinct;
  }

  /** The channel is full when a change is reported: the app streams the new profile, the client accepts frames of the
      old one only, and no later command gets through, since the request stays pending. */
  lemma FullChannelParts(
    a: Android, id: U32, profile: StreamProfile, attempts: seq<Attempt>, inbox: seq<DesktopMessage>, closed: bool)
    requires Kept(a) && InStep(a) && ClientOffers(a) && |attempts| == 2 && Holds(a, id, profile)
    requires Changes(a, profile, attempts)
    ensures var after := Handled(a, id, profile, attempts, false);
            && ActiveProfile(after) == Chosen(a, profile, attempts).value != after.phone.active == ActiveProfile(a)
            && Poll(after.phone, inbox, closed) == (after.phone, 0, None)
  {
    StaysInStep(a, id, profile, attempts, false);
    ChosenIsReported(a, id, profile, attempts, false);
    hide Handled, Chosen, ValidateProfile, Distinct;
    assert Handled(a, id, profile, attempts, false).phone.active == a.phone.active by {
      ActiveWithoutRoom(a, id, profile, attempts);
    }
  }

  lemma ActiveWithoutRoom(a: Android, id: U32, profile: StreamProfile, attempts: seq<Attempt>)
    requires ClientOffers(a) && |attempts| == 2 && Holds(a, id, profile)
    ensures Handled(a, id, profile, attempts, false).phone.active == a.phone.active
  {
    if profile !in a.available || profile == ActiveProfile(a) || a.switching {
      AnsweredWithoutTrying(a, id, profile, attempts, false);
    } else {
      AnsweredByTrying(a, id, profile, attempts, false);
    }
    hide Handled, Chosen, ValidateProfile, Distinct, ClientOffers;
  }

  /** Such a state: 720p is asked for while 480p runs, both sides support both, and the camera switches. */
  lemma FullChannelExample() returns (a: Android, profile: StreamProfile, attempts: seq<Attempt>)
    ensures Kept(a) && InStep(a) && ClientOffers(a) && |attempts| == 2 && Holds(a, 1, profile)
    ensures OutputProfiles.TwinClosed(a.phone.peerSupported) && profile in a.phone.peerSupported
    ensures Changes(a, profile, attempts)
  {
    var small, large := StreamProfile(H264, 640, 480, 30), StreamProfile(H264, 1280, 720, 30);
    profile := large;
    var list := [small, large];
    var peer := [small, large, small.(codec := Hevc), large.(codec := Hevc)];
    var phone := Phone(true, peer, list, small, Some((1, large)), []);
    a := Android(H264, (640, 480), 30, Encoder(small, true), list, true, false, true, false, phone, []);
    attempts := [Attempt(true, true, Restored), Attempt(true, true, Restored)];
  }

  /** A remark about other desktops: one that offered HEVC without its H.264 twin would refuse the fallback. */
  lemma FallbackParts(a: Android, id: U32, profile: StreamProfile, attempts: seq<Attempt>, fits: bool)
    requires Kept(a) && InStep(a) && ClientOffers(a) && |attempts| == 2 && Holds(a, id, profile)
    requires Chosen(a, profile, attempts) == Some(Fallback(profile)) && Fallback(profile) != ActiveProfile(a)
    requires Fallback(profile) !in a.phone.peerSupported
    ensures var after := Handled(a, id, profile, attempts, fits);
            !InStep(after) && after.phone.pending == a.phone.pending
  {
    StaysInStep(a, id, profile, attempts, fits);
    hide Handled, ValidateProfile, Distinct;
  }

  /** The report of a handled request is one an orderly run allows: this app never answers with another size or
      rate than asked. */
  lemma ReportsAreOrderly(
    s: Reconfiguration.System, a: Android, id: U32, profile: StreamProfile, attempts: seq<Attempt>, fits: bool)
    requires Kept(a) && |attempts| == 2 && a.phone.pending == Some((id, profile)) && s.phone.pending == a.phone.pending
    ensures var after := Handled(a, id, profile, attempts, fits);
            && |after.reports| == |a.reports| + 1
            && var report := after.reports[|a.reports|];
               var p := report.profile;
               OrderlyRuns.Orderly(s, Reconfiguration.PhoneCalls(
                 ReportCall(report.id, report.code, CodecId(p.codec), p.width, p.height, p.fps, fits)))
  {
    HandledWell(a, id, profile, attempts, fits);
    hide Handled, Kept, Reported, SomeRestoreFails;
  }

  /** In step, the client takes every frame of the running encoder; out of step in codec or size, none. */
  lemma FramesFollowTheStep(a: Android, data: seq<U8>, ptsUs: U64, isKeyframe: bool, fits: bool)
    requires data != [] && a.phone.connected && fits
    ensures var p := ActiveProfile(a);
            SendVideoFrame(a.phone, data, ptsUs, CodecId(p.codec), p.width, p.height, isKeyframe, fits).1 <==>
            p.(fps := a.phone.active.fps) == a.phone.active
  {
  }

  // ----- Every run of the app -----

  /** What the app's command poller is sent: a configuration request or a camera switch. The client hands it out if
      no request is pending. */
  datatype AppMove =
    | Configure(id: U32, profile: StreamProfile, first: Attempt, second: Attempt, fits: bool)
    | SwitchCamera(front: bool, actual: Option<bool>, restart: Restart)

  function AppStep(a: Android, move: AppMove): Android {
    if !a.started then a
    else
      var (phone, _, command) := Poll(a.phone, [Asked(move)], false);
      var polled := a.(phone := phone);
      if command.None? then polled
      else
        match move
        case SwitchCamera(front, actual, restart) => CameraSwitched(polled, front, actual, restart)
        case Configure(id, profile, first, second, fits) => Handled(polled, id, profile, [first, second], fits)
  }

  function Asked(move: AppMove): DesktopMessage {
    match move
    case SwitchCamera(front, _, _) => DesktopMessage.SwitchCamera(front)
    case Configure(id, profile, _, _, _) => ConfigureStream(id, profile)
  }

  function AppRun(a: Android, moves: seq<AppMove>): Android {
    if moves == [] then a else AppStep(AppRun(a, moves[..|moves| - 1]), moves[|moves| - 1])
  }

  /** The request gets through to the app, changes the profile, and its report finds no room. */
  predicate Parts(a: Android, move: AppMove) {
    && move.Configure? && !move.fits
    && a.started && a.phone.connected && a.phone.pending.None? && ValidateProfile(move.profile).Ok?
    && Changes(a, move.profile, [move.first, move.second])
  }

  /** The desktop only asks for profiles of its own list, under ids that are not 0. */
  predicate Sent(move: AppMove, peer: seq<StreamProfile>) {
    move.Configure? ==> move.id != 0 && move.profile in peer
  }

  /** Connected to this desktop; if out of step, then with a request that stays pending. */
  ghost predicate AppInv(a: Android, peer: seq<StreamProfile>) {
    && Kept(a) && ClientOffers(a) && a.phone.connected && a.phone.peerSupported == peer
    && (!InStep(a) ==> a.phone.pending.Some?)
  }

  lemma PolledRequest(p: Phone, move: AppMove)
    requires p.connected
    ensures var (p', _, command) := Poll(p, [Asked(move)], false);
            if p.pending.Some? || (move.Configure? && ValidateProfile(move.profile).Err?) then p' == p && command.None?
            else command.Some? && p' == if move.Configure? then p.(pending := Some((move.id, move.profile))) else p
  {
    hide ValidateProfile;
    var inbox := [Asked(move)];
    assert inbox[1..] == [] && PollInbox(p, inbox[1..], false) == (p, 0, None);
  }

  lemma AppStepInStep(a: Android, move: AppMove, peer: seq<StreamProfile>)
    requires AppInv(a, peer) && OutputProfiles.TwinClosed(peer) && Sent(move, peer)
    ensures AppInv(AppStep(a, move), peer)
    ensures InStep(AppStep(a, move)) <==> InStep(a) && !Parts(a, move)
  {
    PolledRequest(a.phone, move);
    match move
    case SwitchCamera(front, actual, restart) =>
      CameraSwitchKeeps(a, front, actual, restart);
      hide CameraSwitched, Poll, Distinct;
    case Configure(id, profile, first, second, fits) =>
      if a.started && a.phone.pending.None? && ValidateProfile(profile).Ok? {
        var polled := a.(phone := a.phone.(pending := Some((id, profile))));
        OnlyAFullChannelParts(polled, id, profile, [first, second], fits);
        hide Handled, Poll, ValidateProfile, Distinct;
      } else {
        hide Handled, Poll, ValidateProfile, Distinct;
      }
  }

  /** Over every run of requests and camera switches, whatever camera, encoders and channel do, app and client end in
      step if and only if no change was reported into a full channel. */
  lemma {:induction false} AppRunsStayInStep(a: Android, moves: seq<AppMove>)
    requires AppInv(a, a.phone.peerSupported) && InStep(a) && OutputProfiles.TwinClosed(a.phone.peerSupported)
    requires forall m | m in moves :: Sent(m, a.phone.peerSupported)
    ensures AppInv(AppRun(a, moves), a.phone.peerSupported)
    ensures InStep(AppRun(a, moves)) <==> forall i | 0 <= i < |moves| :: !Parts(AppRun(a, moves[..i]), moves[i])
  {
    hide AppInv, Parts, AppStep, Sent, InStep, OutputProfiles.TwinClosed;
    if moves != [] {
      var init, last := moves[..|moves| - 1], moves[|moves| - 1];
      assert forall i | 0 <= i <= |init| :: init[..i] == moves[..i];
      AppRunsStayInStep(a, init);
      AppStepInStep(AppRun(a, init), last, a.phone.peerSupported);
      assert forall i | 0 <= i < |init| :: init[i] == moves[i];
    }
  }
}
