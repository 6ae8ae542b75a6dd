/** The Android app's side of a reconfiguration: switch camera and encoder to the requested profile, fall back to
    H.264, or restore what ran before, and report. Whether the camera, an encoder or the outbound channel plays
    along is an input. */
module AndroidStream {

  import opened Wrappers
  import opened Protocol
  import opened Pipeline
  import opened MobileCore

  datatype Encoder = Encoder(profile: StreamProfile, running: bool)

  datatype ReportMade = ReportMade(id: U32, code: U8, profile: StreamProfile, accepted: bool)

  /** `phone` is the Rust client behind the bridge. */
  datatype Android = Android(
    codec: VideoCodec,
    resolution: (U16, U16),
    fps: U8,
    encoder: Encoder,
    available: seq<StreamProfile>,
    started: bool,
    switching: bool,
    cameraReady: bool,
    frontCamera: bool,
    phone: Phone,
    reports: seq<ReportMade>)

  /** How restoring the previous settings goes: it may also fail once the old profile's new encoder runs. */
  datatype Restore = Restored | NothingRestored | FailedAfterStart

  /** One attempt at a profile: whether camera and encoder take it; if not, whether the capability update fits and
      how the restore goes. */
  datatype Attempt = Attempt(configures: bool, updateFits: bool, restore: Restore)

  const RESULT_APPLIED: U8 := 0
  const RESULT_UNSUPPORTED: U8 := 1
  const RESULT_CAPTURE_FAILED: U8 := 2

  function ActiveProfile(a: Android): StreamProfile {
    StreamProfile(a.codec, a.resolution.0, a.resolution.1, a.fps)
  }

  // ----- The bridge -----

  function Reported(a: Android, id: U32, code: U8, profile: StreamProfile, fits: bool): Android {
    var (phone, accepted) := Report(a.phone, id, code, CodecId(profile.codec), profile.width, profile.height, profile.fps, fits);
    a.(phone := phone, reports := a.reports + [ReportMade(id, code, profile, accepted)])
  }

  function Announced(a: Android, fits: bool): Android {
    if a.available == [] then a else a.(phone := UpdateCapabilities(a.phone, a.available, fits).0)
  }

  // ----- Applying a profile -----

  /** The list without the first occurrence of `p`. */
  function Without(list: seq<StreamProfile>, p: StreamProfile): seq<StreamProfile> {
    if list == [] then [] else if list[0] == p then list[1..] else [list[0]] + Without(list[1..], p)
  }

  function Candidates(requested: StreamProfile, supported: seq<StreamProfile>): seq<StreamProfile> {
    var fallback := requested.(codec := H264);
    if requested.codec == Hevc && fallback in supported then [requested, fallback] else [requested]
  }

  function Installed(a: Android, p: StreamProfile): Android {
    a.(codec := p.codec, resolution := (p.width, p.height), fps := p.fps, encoder := Encoder(p, true))
  }

  function RestoredAfter(a: Android, previous: StreamProfile, restore: Restore): Android {
    match restore
    case Restored => Installed(a, previous)
    case NothingRestored => a.(started := false)
    case FailedAfterStart => Installed(a, previous).(started := false)
  }

  function Performed(a: Android, profile: StreamProfile, attempt: Attempt): (Android, Option<StreamProfile>) {
    if !a.cameraReady || (profile.width, profile.height) !in SUPPORTED_DIMENSIONS then (a, None)
    else if attempt.configures then (Installed(a, profile), Some(profile))
    else
      var stopped := a.(encoder := a.encoder.(running := false), available := Without(a.available, profile));
      (RestoredAfter(Announced(stopped, attempt.updateFits), ActiveProfile(a), attempt.restore), None)
  }

  /** The first candidate that can be applied, while the stream is started. */
  function Tried(a: Android, candidates: seq<StreamProfile>, attempts: seq<Attempt>): (Android, Option<StreamProfile>)
    requires |candidates| <= |attempts|
    decreases |candidates|
  {
    if candidates == [] then (a, None)
    else
      var (after, applied) := if a.started then Performed(a, candidates[0], attempts[0]) else (a, None);
      if applied.Some? then (after, applied) else Tried(after, candidates[1..], attempts[1..])
  }

  /** `switching` of the result is false whenever it was this call that set it. */
  function Handled(a: Android, id: U32, profile: StreamProfile, attempts: seq<Attempt>, fits: bool): Android
    requires |attempts| == 2
  {
    if (profile.width, profile.height) !in SUPPORTED_DIMENSIONS || profile.fps !in SUPPORTED_FRAME_RATES
       || profile !in a.available then Reported(a, id, RESULT_UNSUPPORTED, profile, fits)
    else if profile == ActiveProfile(a) then Reported(a, id, RESULT_APPLIED, profile, fits)
    else if a.switching then Reported(a, id, RESULT_UNSUPPORTED, profile, fits)
    else
      var (after, applied) := Tried(a.(switching := true), Candidates(profile, a.available), attempts);
      var told :=
        if applied.Some? then Reported(after, id, RESULT_APPLIED, applied.value, fits)
        else Reported(after, id, RESULT_CAPTURE_FAILED, profile, fits);
      told.(switching := false)
  }

  // ----- Switching between front and back camera -----

  /** How restarting the same encoder goes: it may also fail once it runs. */
  datatype Restart = Restarted | StartFailed | KeyframeFailed

  /** `actual` is the camera the switch ended at, if it succeeded. The stream stays started in every case. */
  function CameraSwitched(a: Android, front: bool, actual: Option<bool>, restart: Restart): Android {
    if !a.started || a.switching || !a.cameraReady || front == a.frontCamera then a
    else
      var restarted := a.(encoder := a.encoder.(running := !restart.StartFailed?));
      if actual.Some? && restart.Restarted? then restarted.(frontCamera := actual.value) else restarted
  }

  // ----- What every call keeps -----

  /** The installed encoder is the active profile's. It need not run. */
  predicate Kept(a: Android) {
    a.encoder.profile == ActiveProfile(a)
  }

  lemma CameraSwitchKeeps(a: Android, front: bool, actual: Option<bool>, restart: Restart)
    ensures var after := CameraSwitched(a, front, actual, restart);
            && after == a.(encoder := after.encoder, frontCamera := after.frontCamera)
            && after.encoder.profile == a.encoder.profile
            && (a.encoder.running && !after.encoder.running ==> restart.StartFailed? && after.started)
  {
  }

  predicate SomeRestoreFails(attempts: seq<Attempt>) {
    exists i | 0 <= i < |attempts| :: !attempts[i].configures && !attempts[i].restore.Restored?
  }

  /** What trying candidates can do: apply one of them, or leave the active profile, and stop only when a restore
      failed. */
  ghost predicate TriedWell(
    a: Android, after: Android, applied: Option<StreamProfile>, candidates: seq<StreamProfile>, attempts: seq<Attempt>)
  {
    && Kept(after)
    && after.reports == a.reports && after.switching == a.switching
    && (match applied
        case Some(p) =>
          p in candidates && ActiveProfile(after) == p && after.started && a.started && after.encoder.running
        case None =>
          && ActiveProfile(after) == ActiveProfile(a)
          && (after.started && a.encoder.running ==> after.encoder.running)
          && (after.started != a.started ==> a.started && SomeRestoreFails(attempts)))
  }

  lemma PerformedWell(a: Android, profile: StreamProfile, attempt: Attempt)
    requires Kept(a) && a.started
    ensures var (after, applied) := Performed(a, profile, attempt);
            TriedWell(a, after, applied, [profile], [attempt])
  {
    hide UpdateCapabilities;
    if !attempt.configures && !attempt.restore.Restored? {
      assert [attempt][0] == attempt;
    }
    hide SomeRestoreFails;
  }

  lemma {:induction false} TriedIsWell(a: Android, candidates: seq<StreamProfile>, attempts: seq<Attempt>)
    requires Kept(a) && |candidates| <= |attempts|
    ensures var (after, applied) := Tried(a, candidates, attempts);
            TriedWell(a, after, applied, candidates, attempts)
    decreases |candidates|
  {
    if candidates != [] {
      if a.started {
        PerformedWell(a, candidates[0], attempts[0]);
      }
      hide Kept, Performed;
      var next := if a.started then Performed(a, candidates[0], attempts[0]).0 else a;
      TriedIsWell(next, candidates[1..], attempts[1..]);
      FailuresAmong(attempts);
      hide SomeRestoreFails;
    }
  }

  lemma FailuresAmong(attempts: seq<Attempt>)
    requires attempts != []
    ensures SomeRestoreFails([attempts[0]]) ==> SomeRestoreFails(attempts)
    ensures SomeRestoreFails(attempts[1..]) ==> SomeRestoreFails(attempts)
  {
    if i: nat :| i < |attempts[1..]| && !attempts[1..][i].configures && !attempts[1..][i].restore.Restored? {
      assert attempts[1..][i] == attempts[i + 1];
    }
  }

  lemma ReportedOnly(a: Android, id: U32, code: U8, profile: StreamProfile, fits: bool)
    ensures var after := Reported(a, id, code, profile, fits);
            && after == a.(phone := after.phone, reports := after.reports)
            && exists accepted :: after.reports == a.reports + [ReportMade(id, code, profile, accepted)]
  {
    hide Report;
    var after := Reported(a, id, code, profile, fits);
    assert after.reports == a.reports + [ReportMade(id, code, profile, after.reports[|a.reports|].accepted)];
  }

  lemma CandidatesKeepShape(requested: StreamProfile, supported: seq<StreamProfile>)
    ensures 1 <= |Candidates(requested, supported)| <= 2
    ensures forall p | p in Candidates(requested, supported) ::
              SameShape(p, requested) && (p == requested || (p.codec.H264? && requested.codec.Hevc? && p in supported))
  {
  }

  /** Exactly one more report, with the request's id. If it says applied, it names the profile now active, in the
      requested dimensions and frame rate; otherwise the active profile is what it was. After Applied the encoder
      runs exactly if it ran before or another profile was asked for; after any outcome a running encoder of a
      stream that goes on still runs. The stream stops only when a restore failed. */
  ghost predicate OneReport(a: Android, after: Android, id: U32, profile: StreamProfile, attempts: seq<Attempt>) {
    && Kept(after) && after.switching == a.switching
    && |after.reports| == |a.reports| + 1 && a.reports <= after.reports
    && var report := after.reports[|a.reports|];
       && report.id == id
       && (if report.code == RESULT_APPLIED
           then && report.profile == ActiveProfile(after) && SameShape(report.profile, profile)
                && after.started == a.started
                && (after.encoder.running <==> a.encoder.running || profile != ActiveProfile(a))
           else ActiveProfile(after) == ActiveProfile(a) && report.profile == profile)
       && (after.started && a.encoder.running ==> after.encoder.running)
       && (after.started != a.started ==> report.code == RESULT_CAPTURE_FAILED && a.started && SomeRestoreFails(attempts))
  }

  lemma AnsweredAtOnce(a: Android, id: U32, code: U8, profile: StreamProfile, attempts: seq<Attempt>, fits: bool)
    requires Kept(a) && (code == RESULT_APPLIED ==> profile == ActiveProfile(a))
    ensures OneReport(a, Reported(a, id, code, profile, fits), id, profile, attempts)
  {
    ReportedOnly(a, id, code, profile, fits);
    hide Reported;
  }

  lemma AnsweredAfterTrying(a: Android, id: U32, profile: StreamProfile, attempts: seq<Attempt>, fits: bool)
    requires Kept(a) && |attempts| == 2 && !a.switching && profile != ActiveProfile(a)
    ensures var (tried, applied) := Tried(a.(switching := true), Candidates(profile, a.available), attempts);
            var code := if applied.Some? then RESULT_APPLIED else RESULT_CAPTURE_FAILED;
            var named := if applied.Some? then applied.value else profile;
            OneReport(a, Reported(tried, id, code, named, fits).(switching := false), id, profile, attempts)
  {
    CandidatesKeepShape(profile, a.available);
    TriedIsWell(a.(switching := true), Candidates(profile, a.available), attempts);
    var (tried, applied) := Tried(a.(switching := true), Candidates(profile, a.available), attempts);
    ReportedOnly(tried, id, RESULT_CAPTURE_FAILED, profile, fits);
    if applied.Some? { ReportedOnly(tried, id, RESULT_APPLIED, applied.value, fits); }
    hide Tried, Candidates, Reported, SomeRestoreFails;
  }

  /** Whatever the camera and the encoders do, handling a request is answered once, truthfully. */
  lemma HandledWell(a: Android, id: U32, profile: StreamProfile, attempts: seq<Attempt>, fits: bool)
    requires Kept(a) && |attempts| == 2
    ensures OneReport(a, Handled(a, id, profile, attempts, fits), id, profile, attempts)
  {
    if profile !in a.available || a.switching || profile == ActiveProfile(a) {
      AnsweredAtOnce(a, id, RESULT_UNSUPPORTED, profile, attempts, fits);
      if profile == ActiveProfile(a) { AnsweredAtOnce(a, id, RESULT_APPLIED, profile, attempts, fits); }
      hide Reported, Kept, OneReport;
    } else {
      AnsweredAtOnce(a, id, RESULT_UNSUPPORTED, profile, attempts, fits);
      AnsweredAfterTrying(a, id, profile, attempts, fits);
      hide Reported, Kept, OneReport, Tried, Candidates;
    }
  }

  /** Applied does not mean that anything is encoded: after a camera switch that could not restart the encoder, the
      stream is still started, and a request for the active profile is answered Applied while the encoder stands
      still. */
  lemma AppliedWithoutEncoder(
    a: Android, front: bool, actual: Option<bool>, id: U32, attempts: seq<Attempt>, fits: bool)
    requires Kept(a) && a.started && a.cameraReady && !a.switching && front != a.frontCamera && |attempts| == 2
    requires ValidateProfile(ActiveProfile(a)).Ok? && ActiveProfile(a) in a.available
    ensures var broken := CameraSwitched(a, front, actual, StartFailed);
            var after := Handled(broken, id, ActiveProfile(a), attempts, fits);
            && |after.reports| == |a.reports| + 1 && after.reports[|a.reports|].code == RESULT_APPLIED
            && after.started && !after.encoder.running
  {
    var broken := CameraSwitched(a, front, actual, StartFailed);
    ReportedOnly(broken, id, RESULT_APPLIED, ActiveProfile(a), fits);
    hide Reported;
  }

  // ----- A profile that failed is withdrawn -----

  lemma {:induction false} WithoutMeaning(list: seq<StreamProfile>, p: StreamProfile)
    requires Distinct(list)
    ensures Distinct(Without(list, p))
    ensures forall q :: q in Without(list, p) <==> q in list && q != p
  {
    if list != [] {
      WithoutMeaning(list[1..], p);
      assert list == [list[0]] + list[1..];
      assert list[0] !in list[1..];
    }
  }

  lemma {:induction false} TriedWithdraws(a: Android, candidates: seq<StreamProfile>, attempts: seq<Attempt>)
    requires Distinct(a.available) && |candidates| <= |attempts|
    ensures var after := Tried(a, candidates, attempts).0;
            Distinct(after.available) && forall q | q in after.available :: q in a.available
    ensures candidates != [] && a.started && a.cameraReady && !attempts[0].configures
            && (candidates[0].width, candidates[0].height) in SUPPORTED_DIMENSIONS ==>
              candidates[0] !in Tried(a, candidates, attempts).0.available
    decreases |candidates|
  {
    if candidates != [] {
      WithoutMeaning(a.available, candidates[0]);
      var next := if a.started then Performed(a, candidates[0], attempts[0]).0 else a;
      assert next.available == a.available || next.available == Without(a.available, candidates[0]) by {
        hide Distinct, UpdateCapabilities;
      }
      TriedWithdraws(next, candidates[1..], attempts[1..]);
      hide UpdateCapabilities;
    }
  }

  /** A requested profile that camera or encoder refused is no longer available: asked for again, it is reported as
      unsupported without another attempt. */
  lemma FailedIsNotTriedAgain(
    a: Android, id: U32, profile: StreamProfile, attempts: seq<Attempt>, fits: bool,
    nextId: U32, nextAttempts: seq<Attempt>, nextFits: bool)
    requires Distinct(a.available) && |attempts| == 2 && |nextAttempts| == 2
    requires ValidateProfile(profile).Ok? && profile in a.available && profile != ActiveProfile(a)
    requires a.started && a.cameraReady && !a.switching && !attempts[0].configures
    ensures var after := Handled(a, id, profile, attempts, fits);
            && profile !in after.available
            && Handled(after, nextId, profile, nextAttempts, nextFits) == Reported(after, nextId, RESULT_UNSUPPORTED, profile, nextFits)
  {
    CandidatesKeepShape(profile, a.available);
    TriedWithdraws(a.(switching := true), Candidates(profile, a.available), attempts);
    hide Tried, Report, Distinct;
  }

  // ----- The manager -----

  class StreamManager {
    var activeCodec: VideoCodec
    var activeResolution: (U16, U16)
    var activeFps: U8
    var encoder: Encoder
    var availableProfiles: seq<StreamProfile>
    var started: bool
    var switchInProgress: bool
    var cameraReady: bool
    var isFrontCamera: bool
    var rustClient: Phone
    ghost var reports: seq<ReportMade>

    ghost function State(): Android
      reads this
    {
      Android(activeCodec, activeResolution, activeFps, encoder, availableProfiles, started, switchInProgress,
              cameraReady, isFrontCamera, rustClient, reports)
    }

    constructor (profile: StreamProfile, client: Phone)
      ensures State() == Android(profile.codec, (profile.width, profile.height), profile.fps, Encoder(profile, false),
                                 [profile], false, false, false, false, client, [])
      ensures Kept(State())
    {
      activeCodec, activeResolution, activeFps := profile.codec, (profile.width, profile.height), profile.fps;
      encoder, availableProfiles := Encoder(profile, false), [profile];
      started, switchInProgress, cameraReady, isFrontCamera := false, false, false, false;
      rustClient, reports := client, [];
    }

    function CurrentProfile(): StreamProfile
      reads this
    {
      StreamProfile(activeCodec, activeResolution.0, activeResolution.1, activeFps)
    }

    method ReportConfiguration(id: U32, code: U8, profile: StreamProfile, fits: bool)
      modifies `rustClient, `reports
      ensures State() == Reported(old(State()), id, code, profile, fits)
    {
      hide Report;
      var (client, accepted) :=
        Report(rustClient, id, code, CodecId(profile.codec), profile.width, profile.height, profile.fps, fits);
      rustClient := client;
      reports := reports + [ReportMade(id, code, profile, accepted)];
    }

    method UpdateVideoCapabilities(fits: bool)
      modifies `rustClient
      ensures State() == Announced(old(State()), fits)
    {
      hide UpdateCapabilities;
      if availableProfiles != [] {
        rustClient := UpdateCapabilities(rustClient, availableProfiles, fits).0;
      }
    }

    method Install(profile: StreamProfile)
      modifies `activeCodec, `activeResolution, `activeFps, `encoder
      ensures State() == Installed(old(State()), profile)
    {
      activeCodec := profile.codec;
      activeResolution := (profile.width, profile.height);
      activeFps := profile.fps;
      encoder := Encoder(profile, true);
    }

    method PerformRemoteStreamConfiguration(profile: StreamProfile, attempt: Attempt) returns (applied: Option<StreamProfile>)
      modifies this
      ensures (State(), applied) == Performed(old(State()), profile, attempt)
    {
      hide Announced;
      if !cameraReady || (profile.width, profile.height) !in SUPPORTED_DIMENSIONS { return None; }
      var previousProfile := CurrentProfile();
      encoder := encoder.(running := false);
      if attempt.configures {
        Install(profile);
        return Some(profile);
      }
      availableProfiles := Without(availableProfiles, profile);
      UpdateVideoCapabilities(attempt.updateFits);
      if !attempt.restore.NothingRestored? { Install(previousProfile); }
      if !attempt.restore.Restored? { started := false; }
      return None;
    }

    method HandleRemoteCameraSwitch(front: bool, actual: Option<bool>, restart: Restart)
      modifies this
      ensures State() == CameraSwitched(old(State()), front, actual, restart)
      ensures started == old(started) && CurrentProfile() == old(CurrentProfile())
    {
      if !started || switchInProgress { return; }
      switchInProgress := true;
      if cameraReady && front != isFrontCamera {
        encoder := encoder.(running := false);
        if !restart.StartFailed? { encoder := encoder.(running := true); }
        if actual.Some? && restart.Restarted? { isFrontCamera := actual.value; }
      }
      switchInProgress := false;
    }

    method HandleRemoteStreamConfiguration(id: U32, profile: StreamProfile, attempts: seq<Attempt>, fits: bool)
      requires |attempts| == 2
      modifies this
      ensures State() == Handled(old(State()), id, profile, attempts, fits)
    {
      hide Reported, Performed, Candidates;
      if (profile.width, profile.height) !in SUPPORTED_DIMENSIONS || profile.fps !in SUPPORTED_FRAME_RATES
         || profile !in availableProfiles
      {
        ReportConfiguration(id, RESULT_UNSUPPORTED, profile, fits);
        return;
      }
      if profile == CurrentProfile() {
        ReportConfiguration(id, RESULT_APPLIED, profile, fits);
        return;
      }
      if switchInProgress {
        ReportConfiguration(id, RESULT_UNSUPPORTED, profile, fits);
        return;
      }
      switchInProgress := true;
      CandidatesKeepShape(profile, availableProfiles);
      var applied := FirstApplied(Candidates(profile, availableProfiles), attempts);
      if applied.Some? {
        ReportConfiguration(id, RESULT_APPLIED, applied.value, fits);
      } else {
        ReportConfiguration(id, RESULT_CAPTURE_FAILED, profile, fits);
      }
      switchInProgress := false;
    }

    method FirstApplied(candidates: seq<StreamProfile>, attempts: seq<Attempt>) returns (applied: Option<StreamProfile>)
      requires |candidates| <= |attempts|
      modifies this
      ensures (State(), applied) == Tried(old(State()), candidates, attempts)
    {
      hide Performed;
      applied := None;
      var i := 0;
      while i < |candidates| && applied.None?
        invariant i <= |candidates|
        invariant applied.None? ==> Tried(old(State()), candidates, attempts) == Tried(State(), candidates[i..], attempts[i..])
        invariant applied.Some? ==> Tried(old(State()), candidates, attempts) == (State(), applied)
      {
        if started { applied := PerformRemoteStreamConfiguration(candidates[i], attempts[i]); }
        assert candidates[i..][1..] == candidates[i + 1..] && attempts[i..][1..] == attempts[i + 1..];
        i := i + 1;
      }
    }
  }
}
