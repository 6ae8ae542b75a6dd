/** What the Android app owes its client and its user: a failed profile is withdrawn and the client told, what ran before
    runs again if it can, every refusal has its reason, and a camera switch shows. */
module AndroidLaws {

  import opened Wrappers
  import opened Protocol
  import opened MobileCore
  import opened AndroidStream
  import opened AndroidInStep
  import ClientLaws

  // ----- One attempt -----

  /** An attempt that camera and encoder take leaves the new profile, with its own running encoder, and nothing else
      changed. */
  lemma AttemptSucceeds(a: Android, profile: StreamProfile, attempt: Attempt)
    requires a.cameraReady && (profile.width, profile.height) in SUPPORTED_DIMENSIONS && attempt.configures
    ensures var (after, applied) := Performed(a, profile, attempt);
            && applied == Some(profile) && ActiveProfile(after) == profile && after.encoder == Encoder(profile, true)
            && after == a.(codec := after.codec, resolution := after.resolution, fps := after.fps, encoder := after.encoder)
  {
  }

  /** What the client has once it was told of a list: the list, exactly if it is connected, the list is proper and holds
      the client's active profile, and the message fits. */
  ghost function ToldOf(p: Phone, list: seq<StreamProfile>, fits: bool): Phone {
    if p.connected && fits && ClientLaws.ProperList(list) && p.active in list then
      p.(supported := list, sent := p.sent + [Envelope(Pipeline.CapabilitiesUpdate(list), Snapshot(p.active, list))])
    else p
  }

  /** An attempt that fails withdraws the profile and tells the client. The profile that was active stays active, with a
      running encoder of its own if the restore came that far; the stream goes on exactly if the restore succeeded. */
  lemma AttemptFails(a: Android, profile: StreamProfile, attempt: Attempt)
    requires a.cameraReady && (profile.width, profile.height) in SUPPORTED_DIMENSIONS && !attempt.configures
    requires Distinct(a.available)
    ensures var (after, applied) := Performed(a, profile, attempt);
            && applied.None? && ActiveProfile(after) == ActiveProfile(a)
            && (forall q :: q in after.available <==> q in a.available && q != profile)
            && after.phone == ToldOf(a.phone, after.available, attempt.updateFits)
            && after.encoder == (if attempt.restore.NothingRestored? then a.encoder.(running := false)
                                 else Encoder(ActiveProfile(a), true))
            && after.started == (a.started && attempt.restore.Restored?)
            && after == a.(encoder := after.encoder, available := after.available, started := after.started, phone := after.phone)
  {
    WithoutMeaning(a.available, profile);
    ClientLaws.ListIsSent(a.phone, Without(a.available, profile), attempt.updateFits);
    hide UpdateCapabilities, Distinct, Without;
  }

  /** Without a camera, or at a size the protocol does not know, nothing is attempted. */
  lemma NothingAttempted(a: Android, profile: StreamProfile, attempt: Attempt)
    requires !a.cameraReady || (profile.width, profile.height) !in SUPPORTED_DIMENSIONS
    ensures Performed(a, profile, attempt) == (a, None)
  {
  }

  // ----- One request -----

  /** The request is legal, available, new, and the app is free to try it. */
  predicate Attempted(a: Android, profile: StreamProfile) {
    && ValidateProfile(profile).Ok? && profile in a.available && profile != ActiveProfile(a) && !a.switching
  }

  /** A request is answered Applied exactly if something was chosen; otherwise that capture failed, if it was attempted,
      and that it is unsupported, if not. */
  lemma RefusalHasItsReason(a: Android, id: U32, profile: StreamProfile, attempts: seq<Attempt>, fits: bool)
    requires Kept(a) && |attempts| == 2 && ValidateProfile(profile).Ok?
    ensures var after := Handled(a, id, profile, attempts, fits);
            && |after.reports| == |a.reports| + 1
            && after.reports[|a.reports|].code ==
               if Chosen(a, profile, attempts).Some? then RESULT_APPLIED
               else if Attempted(a, profile) then RESULT_CAPTURE_FAILED else RESULT_UNSUPPORTED
  {
    ChosenIsReported(a, id, profile, attempts, fits);
    if Attempted(a, profile) {
      TriedIsChosen(a, profile, attempts);
      var tried := Tried(a.(switching := true), Candidates(profile, a.available), attempts).0;
      TriedIsWell(a.(switching := true), Candidates(profile, a.available), attempts);
      ReportedOnly(tried, id, RESULT_CAPTURE_FAILED, profile, fits);
      hide Tried, Candidates, Reported, Kept, Chosen, SomeRestoreFails;
    } else {
      ReportedOnly(a, id, RESULT_UNSUPPORTED, profile, fits);
      hide Reported, Kept, SomeRestoreFails;
    }
  }

  /** The request tries this profile, and camera or encoder do not take it. */
  predicate FailsOn(a: Android, profile: StreamProfile, attempts: seq<Attempt>, q: StreamProfile)
    requires |attempts| == 2
  {
    && Attempted(a, profile) && a.started && a.cameraReady && !attempts[0].configures
    && (q == profile
        || (&& profile.codec.Hevc? && q == Fallback(profile) && attempts[0].restore.Restored?
            && !attempts[1].configures))
  }

  lemma PerformedLeaves(a: Android, profile: StreamProfile, attempt: Attempt)
    requires (profile.width, profile.height) in SUPPORTED_DIMENSIONS && Distinct(a.available)
    ensures var (after, applied) := Performed(a, profile, attempt);
            && (forall q :: q in after.available <==>
                  q in a.available && !(a.cameraReady && !attempt.configures && q == profile))
            && Distinct(after.available)
            && after.cameraReady == a.cameraReady && (applied.Some? <==> a.cameraReady && attempt.configures)
            && (applied.None? ==> after.started == (a.started && (!a.cameraReady || attempt.restore.Restored?)))
  {
    WithoutMeaning(a.available, profile);
    if !a.cameraReady {
      NothingAttempted(a, profile, attempt);
    } else if attempt.configures {
      AttemptSucceeds(a, profile, attempt);
    } else {
      AttemptFails(a, profile, attempt);
      assert Performed(a, profile, attempt).0.available == Without(a.available, profile) by { hide UpdateCapabilities, Distinct; }
    }
    hide Performed, Distinct;
  }

  lemma TriedLeaves(a: Android, profile: StreamProfile, attempts: seq<Attempt>)
    requires |attempts| == 2 && Attempted(a, profile) && Distinct(a.available)
    ensures var after := Tried(a.(switching := true), Candidates(profile, a.available), attempts).0;
            forall q :: q in after.available <==> q in a.available && !FailsOn(a, profile, attempts, q)
  {
    var busy, candidates := a.(switching := true), Candidates(profile, a.available);
    TriedUnfolds(busy, candidates, attempts);
    PerformedLeaves(busy, profile, attempts[0]);
    var next := if a.started then Performed(busy, profile, attempts[0]).0 else busy;
    TriedUnfolds(next, candidates[1..], attempts[1..]);
    if |candidates| == 2 {
      PerformedLeaves(next, Fallback(profile), attempts[1]);
      var last := if next.started then Performed(next, Fallback(profile), attempts[1]).0 else next;
      TriedUnfolds(last, candidates[1..][1..], attempts[1..][1..]);
    }
    hide Performed, Tried, Distinct;
  }

  /** A request withdraws exactly the profiles that were tried and refused. */
  lemma RequestWithdraws(a: Android, id: U32, profile: StreamProfile, attempts: seq<Attempt>, fits: bool)
    requires |attempts| == 2 && Distinct(a.available)
    ensures forall q :: q in Handled(a, id, profile, attempts, fits).available <==>
                        q in a.available && !FailsOn(a, profile, attempts, q)
  {
    if Attempted(a, profile) {
      TriedLeaves(a, profile, attempts);
    }
    hide Tried, Report, Distinct;
  }

  // ----- The camera -----

  /** The camera that is used changes exactly if the switch was possible, wanted, and completed. */
  lemma CameraSwitchShows(a: Android, front: bool, actual: Option<bool>, restart: Restart)
    ensures var after := CameraSwitched(a, front, actual, restart);
            var begun := a.started && !a.switching && a.cameraReady && front != a.frontCamera;
            && after.frontCamera == (if begun && restart.Restarted? && actual.Some? then actual.value else a.frontCamera)
            && after.encoder.running == (if begun then !restart.StartFailed? else a.encoder.running)
            && after == a.(encoder := a.encoder.(running := after.encoder.running), frontCamera := after.frontCamera)
  {
  }
}
