/** What the phone's client owes its two sides: every call of the app is accepted exactly when it makes sense, and says
    on the wire what the app said; every command of the desktop reaches the app once. */
module ClientLaws {

  import opened Wrappers
  import opened Protocol
  import opened Pipeline
  import opened MobileCore
  import opened Reconfiguration

  // ----- The calls of the app -----

  /** Two handshakes make a client exactly if both have the protocol's version and a valid list, the phone names an
      active profile, and every active profile is supported on both sides. */
  lemma ConnectExactly(phone: Handshake, desktop: Handshake)
    ensures Connect(phone, desktop) ==
            if && phone.version == PROTOCOL_VERSION == desktop.version
               && ProperList(phone.supported) && ProperList(desktop.supported)
               && phone.active.Some? && phone.active.value in phone.supported && phone.active.value in desktop.supported
               && (desktop.active.Some? ==> desktop.active.value in desktop.supported && desktop.active.value in phone.supported)
            then Some(Phone(true, desktop.supported, phone.supported, phone.active.value, None, []))
            else None
  {
    ValidateProfilesMeaning(phone.supported);
    ValidateProfilesMeaning(desktop.supported);
    hide ValidateProfiles, AllValid, Distinct;
  }

  ghost predicate ProperList(profiles: seq<StreamProfile>) {
    profiles != [] && AllValid(profiles) && Distinct(profiles)
  }

  /** A frame is accepted exactly if it has data, matches the active profile and fits; what is sent then is the frame
      as the app gave it, and nothing else changes. */
  lemma FrameIsSent(p: Phone, data: seq<U8>, ptsUs: U64, codec: U8, width: U16, height: U16, isKeyframe: bool, fits: bool)
    ensures var (p', accepted) := SendVideoFrame(p, data, ptsUs, codec, width, height, isKeyframe, fits);
            && (accepted <==>
                  && p.connected && fits && data != [] && codec == CodecId(p.active.codec)
                  && width == p.active.width && height == p.active.height)
            && p' == if !accepted then p else
                 var frame := VideoFrame(data, ptsUs, p.active.codec, p.active.width, p.active.height, isKeyframe);
                 p.(sent := p.sent + [Envelope(VideoFrameMessage(frame), Snapshot(p.active, p.supported))])
  {
  }

  /** A new list is accepted exactly if it is valid, holds the active profile and fits; it is then the phone's list, and
      what is sent. */
  lemma ListIsSent(p: Phone, profiles: seq<StreamProfile>, fits: bool)
    ensures var (p', accepted) := UpdateCapabilities(p, profiles, fits);
            && (accepted <==> p.connected && fits && ProperList(profiles) && p.active in profiles)
            && p' == if !accepted then p else
                 p.(supported := profiles,
                    sent := p.sent + [Envelope(CapabilitiesUpdate(profiles), Snapshot(p.active, profiles))])
  {
    ValidateProfilesMeaning(profiles);
    hide ValidateProfiles, AllValid, Distinct;
  }

  /** Codec, width, height and frame rate as the app names them are this profile, which both sides support. */
  predicate Names(p: Phone, codec: U8, width: U16, height: U16, fps: U8, profile: StreamProfile) {
    && codec == CodecId(profile.codec) && width == profile.width && height == profile.height && fps == profile.fps
    && ValidateProfile(profile).Ok? && profile in p.supported && profile in p.peerSupported
  }

  /** That a profile was applied is accepted exactly if the phone is connected, the report answers the pending request
      or none, it fits, and the profile is legal and supported on both sides; the profile is then active. */
  lemma AppliedIsSent(p: Phone, id: U32, codec: U8, width: U16, height: U16, fps: U8, fits: bool)
    ensures var (p', accepted) := Report(p, id, 0, codec, width, height, fps, fits);
            var profile := StreamProfile(if codec == 0 then H264 else Hevc, width, height, fps);
            && (accepted <==> Answers(p, id) && fits && Names(p, codec, width, height, fps, profile))
            && p' == if !accepted then p else
                 p.(active := profile, pending := if id == 0 then p.pending else None,
                    sent := p.sent + [Envelope(ConfigurationResult(id, Applied(profile)), Snapshot(profile, p.supported))])
  {
  }

  predicate Answers(p: Phone, id: U32) {
    p.connected && (id == 0 || (p.pending.Some? && p.pending.value.0 == id))
  }

  /** A refusal is accepted exactly if it is one of three, answers the pending request or none, and fits; it changes
      nothing but what is pending. */
  lemma RefusalIsSent(p: Phone, id: U32, code: U8, codec: U8, width: U16, height: U16, fps: U8, fits: bool)
    requires code != 0
    ensures var (p', accepted) := Report(p, id, code, codec, width, height, fps, fits);
            && (accepted <==> Answers(p, id) && fits && code <= 3)
            && p' == if !accepted then p else
                 var refusal := if code == 1 then UnsupportedProfile else if code == 2 then CaptureConfigurationFailed
                                else EncoderInitializationFailed;
                 p.(pending := if id == 0 then p.pending else None,
                    sent := p.sent + [Envelope(ConfigurationResult(id, refusal), Snapshot(p.active, p.supported))])
  {
  }

  // ----- The commands of the desktop -----

  /** A poll passes over what is no camera control, and over a request for a profile the protocol does not know. */
  predicate Skipped(m: DesktopMessage) {
    m.OtherDesktopMessage? || (m.ConfigureStream? && ValidateProfile(m.profile).Err?)
  }

  function FirstKept(inbox: seq<DesktopMessage>): (k: nat)
    ensures k <= |inbox| && (k < |inbox| ==> !Skipped(inbox[k]))
    ensures forall i | 0 <= i < k :: Skipped(inbox[i])
  {
    if inbox == [] || !Skipped(inbox[0]) then 0 else 1 + FirstKept(inbox[1..])
  }

  /** A poll takes the first message it cannot skip and everything before it. It ends the connection at a disconnect, or
      at the end of a closed channel; any other message goes to the app, and a request becomes the pending one. */
  lemma {:induction false} PollInboxExactly(p: Phone, inbox: seq<DesktopMessage>, closed: bool)
    requires p.connected && p.pending.None?
    ensures var k := FirstKept(inbox);
            PollInbox(p, inbox, closed) ==
              if k == |inbox| then (p.(connected := !closed), k, None)
              else match inbox[k]
                case DesktopDisconnect => (p.(connected := false), k + 1, None)
                case ConfigureStream(id, profile) => (p.(pending := Some((id, profile))), k + 1, Some(inbox[k]))
                case _ => (p, k + 1, Some(inbox[k]))
  {
    if inbox != [] && Skipped(inbox[0]) {
      PollInboxExactly(p, inbox[1..], closed);
    }
  }

  /** A command is handed out exactly if there is one before any disconnect, and it is the first. The connection ends
      exactly at a disconnect, or when a closed channel was read to its end. While a request is pending, or after the
      connection has ended, nothing is read. */
  lemma PollExactly(p: Phone, inbox: seq<DesktopMessage>, closed: bool)
    ensures var (p', n, command) := Poll(p, inbox, closed);
            if !p.connected || p.pending.Some? then p' == p && n == 0 && command.None?
            else
              && n <= |inbox|
              && (command.Some? <==> exists i | 0 <= i < |inbox| ::
                    !Skipped(inbox[i]) && forall j | 0 <= j <= i :: !inbox[j].DesktopDisconnect?)
              && (command.Some? ==> n > 0 && command.value == inbox[n - 1] && !Skipped(inbox[n - 1]))
              && (forall i | 0 <= i < n - 1 :: Skipped(inbox[i]))
              && (command.None? ==> n == |inbox| || (n > 0 && inbox[n - 1].DesktopDisconnect?))
              && (p'.connected <==> !(n > 0 && inbox[n - 1].DesktopDisconnect?) && !(closed && n == |inbox| && command.None?))
              && p' == p.(connected := p'.connected,
                          pending := if command.Some? && command.value.ConfigureStream?
                                     then Some((command.value.id, command.value.profile)) else None)
  {
    if p.connected && p.pending.None? {
      PollInboxExactly(p, inbox, closed);
      var k := FirstKept(inbox);
      hide PollInbox, FirstKept;
      if k < |inbox| && !inbox[k].DesktopDisconnect? {
        assert !Skipped(inbox[k]) && forall j | 0 <= j <= k :: !inbox[j].DesktopDisconnect?;
      }
    }
  }

  // ----- Over whole runs -----

  /** The commands among these messages, in order. */
  function Commands(log: seq<DesktopMessage>): seq<DesktopMessage> {
    if log == [] then []
    else
      var last := log[|log| - 1];
      Commands(log[..|log| - 1]) + (if Skipped(last) || last.DesktopDisconnect? then [] else [last])
  }

  /** What one move hands to the app. */
  function HandsOut(s: System, move: Move): seq<DesktopMessage> {
    if move.PhonePolls? && s.heard <= |s.desktop.sent| then
      var inbox := s.desktop.sent[s.heard..Min(s.heard + move.arrived, |s.desktop.sent|)];
      match Poll(s.phone, inbox, move.closed).2
      case Some(command) => [command]
      case None => []
    else []
  }

  /** What a run of moves hands to the app, and where it ends. */
  function Handed(s: System, moves: seq<Move>): (seq<DesktopMessage>, System) {
    if moves == [] then ([], s)
    else
      var (before, s1) := Handed(s, moves[..|moves| - 1]);
      (before + HandsOut(s1, moves[|moves| - 1]), Next(s1, moves[|moves| - 1]))
  }

  lemma {:induction false} CommandsJoin(a: seq<DesktopMessage>, b: seq<DesktopMessage>)
    ensures Commands(a + b) == Commands(a) + Commands(b)
  {
    if b == [] {
      assert a + b == a;
    } else {
      CommandsJoin(a, b[..|b| - 1]);
      assert (a + b)[..|a + b| - 1] == a + b[..|b| - 1];
    }
  }

  lemma {:induction false} SkippedAreNoCommands(log: seq<DesktopMessage>)
    requires forall i | 0 <= i < |log| :: Skipped(log[i])
    ensures Commands(log) == []
  {
    if log != [] {
      SkippedAreNoCommands(log[..|log| - 1]);
    }
  }

  lemma PollTakesItsCommand(p: Phone, inbox: seq<DesktopMessage>, closed: bool)
    ensures var (_, n, command) := Poll(p, inbox, closed);
            n <= |inbox| && Commands(inbox[..n]) == if command.Some? then [command.value] else []
  {
    if p.connected && p.pending.None? {
      PollInboxExactly(p, inbox, closed);
      var k := FirstKept(inbox);
      hide PollInbox, FirstKept, Skipped;
      SkippedAreNoCommands(inbox[..k]);
      if k < |inbox| {
        assert inbox[..k + 1] == inbox[..k] + [inbox[k]];
      }
    }
  }

  /** The phone has read a part of what the desktop sent, and the desktop only ever adds to it. */
  lemma HandsOutWhatIsRead(s: System, move: Move)
    requires s.heard <= |s.desktop.sent|
    ensures var s' := Next(s, move);
            && s.heard <= s'.heard <= |s'.desktop.sent| && s.desktop.sent <= s'.desktop.sent
            && HandsOut(s, move) == Commands(s'.desktop.sent[s.heard..s'.heard])
  {
    hide Step, Poll, Commands, Call;
    match move
    case DesktopActs(input) =>
      StepEffect(s.desktop, input);
      NoCommands(Next(s, move).desktop.sent, s.heard);
    case DesktopReceives(env) =>
      if s.desktop.status.Running? && s.consumed < |s.phone.sent| {
        StepEffect(s.desktop, Message(s.phone.sent[s.consumed].message, env));
      }
      NoCommands(Next(s, move).desktop.sent, s.heard);
    case PhoneCalls(call) => NoCommands(s.desktop.sent, s.heard);
    case PhonePolls(arrived, closed) =>
      var inbox := s.desktop.sent[s.heard..Min(s.heard + arrived, |s.desktop.sent|)];
      PollTakesItsCommand(s.phone, inbox, closed);
      var n := Poll(s.phone, inbox, closed).1;
      assert inbox[..n] == s.desktop.sent[s.heard..s.heard + n];
  }

  lemma NoCommands(log: seq<DesktopMessage>, k: nat)
    requires k <= |log|
    ensures log[k..k] == [] && Commands(log[k..k]) == []
  {
  }

  /** In every run of the two parties the app is handed, in order and each once, exactly the camera controls among the
      messages of the desktop that the phone has read. */
  lemma {:induction false} CommandsArriveOnce(s: System, moves: seq<Move>)
    requires s.heard <= |s.desktop.sent|
    ensures var (commands, s') := Handed(s, moves);
            && s.heard <= s'.heard <= |s'.desktop.sent| && s.desktop.sent <= s'.desktop.sent
            && commands == Commands(s'.desktop.sent[s.heard..s'.heard])
  {
    hide Next, HandsOut, Commands;
    if moves == [] {
      NoCommands(s.desktop.sent, s.heard);
    } else {
      var init, last := moves[..|moves| - 1], moves[|moves| - 1];
      CommandsArriveOnce(s, init);
      var s1 := Handed(s, init).1;
      var s2 := Next(s1, last);
      HandsOutWhatIsRead(s1, last);
      var a, b := s2.desktop.sent[s.heard..s1.heard], s2.desktop.sent[s1.heard..s2.heard];
      assert a == s1.desktop.sent[s.heard..s1.heard];
      CommandsJoin(a, b);
      assert a + b == s2.desktop.sent[s.heard..s2.heard];
    }
  }
}
