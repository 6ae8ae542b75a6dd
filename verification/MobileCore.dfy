/** The phone side of a connection: the transport client that the Android and iOS apps drive through calls.
    Whether a message fits into the bounded outbound channel is an input of the call that sends it. */
module MobileCore {

  import opened Wrappers
  import opened Protocol
  import opened Pipeline

  /** The phone's view right after it sent a message. */
  datatype Snapshot = Snapshot(active: StreamProfile, supported: seq<StreamProfile>)

  datatype Envelope = Envelope(message: PhoneMessage, after: Snapshot)

  /** `peerSupported` is the list of the desktop's handshake; it never changes. */
  datatype Phone = Phone(
    connected: bool,
    peerSupported: seq<StreamProfile>,
    supported: seq<StreamProfile>,
    active: StreamProfile,
    pending: Option<(U32, StreamProfile)>,
    sent: seq<Envelope>)

  function View(p: Phone): Snapshot {
    Snapshot(p.active, p.supported)
  }

  function Post(p: Phone, message: PhoneMessage): Phone {
    p.(sent := p.sent + [Envelope(message, View(p))])
  }

  /** The number an app uses for a codec. */
  function CodecId(codec: VideoCodec): U8 {
    match codec case H264 => 0 case Hevc => 1
  }

  function CodecFromId(id: U8): Option<VideoCodec> {
    if id == 0 then Some(H264) else if id == 1 then Some(Hevc) else None
  }

  function ProfileFromCall(codec: U8, width: U16, height: U16, fps: U8): Option<StreamProfile> {
    match CodecFromId(codec)
    case None => None
    case Some(c) =>
      var profile := StreamProfile(c, width, height, fps);
      if ValidateProfile(profile).Ok? then Some(profile) else None
  }

  /** The phone after a successful handshake, or None when either side refuses it. */
  function Connect(phone: Handshake, desktop: Handshake): Option<Phone> {
    if ValidateHandshake(phone).Ok? && ValidateHandshake(desktop).Ok?
       && ValidateCommonActive(phone, desktop).Ok? && phone.active.Some?
    then Some(Phone(true, desktop.supported, phone.supported, phone.active.value, None, []))
    else None
  }

  // ----- The calls, as functions of the phone's state -----

  function SendVideoFrame(p: Phone, data: seq<U8>, ptsUs: U64, codec: U8, width: U16, height: U16,
                          isKeyframe: bool, fits: bool): (Phone, bool)
  {
    if data == [] || CodecFromId(codec).None? || !p.connected then (p, false)
    else
      var frame := VideoFrame(data, ptsUs, CodecFromId(codec).value, width, height, isKeyframe);
      if ValidateAgainst(frame, p.active).Err? || !fits then (p, false)
      else (Post(p, VideoFrameMessage(frame)), true)
  }

  function UpdateCapabilities(p: Phone, profiles: seq<StreamProfile>, fits: bool): (Phone, bool) {
    if !p.connected || ValidateUpdate(profiles, p.active).Err? || !fits then (p, false)
    else (Post(p.(supported := profiles), CapabilitiesUpdate(profiles)), true)
  }

  function OutcomeOf(code: U8, applied: Option<StreamProfile>): Option<Outcome> {
    match code
    case 0 => if applied.Some? then Some(Applied(applied.value)) else None
    case 1 => Some(UnsupportedProfile)
    case 2 => Some(CaptureConfigurationFailed)
    case 3 => Some(EncoderInitializationFailed)
    case _ => None
  }

  /** `id` 0 reports a change nobody asked for; any other id must be the pending one. */
  function Report(p: Phone, id: U32, code: U8, codec: U8, width: U16, height: U16, fps: U8, fits: bool): (Phone, bool) {
    if !p.connected || (id != 0 && (p.pending.None? || p.pending.value.0 != id)) then (p, false)
    else
      var profile := ProfileFromCall(codec, width, height, fps);
      var applied :=
        if code == 0 && profile.Some? && profile.value in p.supported && profile.value in p.peerSupported
        then profile else None;
      var outcome := OutcomeOf(code, applied);
      if outcome.None? || !fits then (p, false)
      else
        var p1 := p.(active := if applied.Some? then applied.value else p.active,
                     pending := if id != 0 then None else p.pending);
        (Post(p1, ConfigurationResult(id, outcome.value)), true)
  }

  /** Look for the next camera control in the inbox: the phone afterwards, how many messages were consumed,
      and the command handed to the app. */
  function PollInbox(p: Phone, inbox: seq<DesktopMessage>, closed: bool): (Phone, nat, Option<DesktopMessage>) {
    if inbox == [] then (p.(connected := p.connected && !closed), 0, None)
    else match inbox[0]
      case DesktopDisconnect => (p.(connected := false), 1, None)
      case OtherDesktopMessage =>
        var (p1, n, command) := PollInbox(p, inbox[1..], closed);
        (p1, n + 1, command)
      case ConfigureStream(id, profile) =>
        if ValidateProfile(profile).Ok? then (p.(pending := Some((id, profile))), 1, Some(inbox[0]))
        else
          var (p1, n, command) := PollInbox(p, inbox[1..], closed);
          (p1, n + 1, command)
      case _ => (p, 1, Some(inbox[0]))
  }

  function Poll(p: Phone, inbox: seq<DesktopMessage>, closed: bool): (Phone, nat, Option<DesktopMessage>) {
    if !p.connected || p.pending.Some? then (p, 0, None) else PollInbox(p, inbox, closed)
  }

  // ----- What every reachable client keeps -----

  /** A valid list of profiles with the active one in it, which the desktop supports too. */
  ghost predicate Sound(p: Phone) {
    ValidateUpdate(p.supported, p.active).Ok? && p.active in p.peerSupported
  }

  datatype AppCall =
    | FrameCall(data: seq<U8>, ptsUs: U64, codec: U8, width: U16, height: U16, isKeyframe: bool, fits: bool)
    | UpdateCall(profiles: seq<StreamProfile>, fits: bool)
    | ReportCall(id: U32, code: U8, codec: U8, width: U16, height: U16, fps: U8, fits: bool)

  function Call(p: Phone, c: AppCall): Phone {
    match c
    case FrameCall(data, ptsUs, codec, width, height, isKeyframe, fits) =>
      SendVideoFrame(p, data, ptsUs, codec, width, height, isKeyframe, fits).0
    case UpdateCall(profiles, fits) => UpdateCapabilities(p, profiles, fits).0
    case ReportCall(id, code, codec, width, height, fps, fits) =>
      Report(p, id, code, codec, width, height, fps, fits).0
  }

  lemma ConnectIsSound(phone: Handshake, desktop: Handshake)
    requires Connect(phone, desktop).Some?
    ensures Sound(Connect(phone, desktop).value)
  {
  }

  lemma CallKeepsSound(p: Phone, c: AppCall)
    requires Sound(p)
    ensures Sound(Call(p, c))
  {
  }

  /** Polling consumes a prefix of the inbox, touches only the pending request and the connection, and the
      request it leaves pending is the last message consumed; while one is pending it consumes nothing. */
  lemma {:induction false} PollInboxMeaning(p: Phone, inbox: seq<DesktopMessage>, closed: bool)
    requires p.connected && p.pending.None?
    ensures var (p', n, command) := PollInbox(p, inbox, closed);
            && n <= |inbox|
            && p' == p.(connected := p'.connected, pending := p'.pending)
            && (p'.pending.Some? ==>
                  && n > 0
                  && inbox[n - 1] == ConfigureStream(p'.pending.value.0, p'.pending.value.1)
                  && ValidateProfile(p'.pending.value.1).Ok? && command == Some(inbox[n - 1]))
            && (command.Some? ==> n > 0 && command.value == inbox[n - 1])
            && (forall i | 0 <= i < n && (command.Some? ==> i < n - 1) && inbox[i].ConfigureStream? ::
                  ValidateProfile(inbox[i].profile).Err?)
  {
    if inbox != [] {
      PollInboxMeaning(p, inbox[1..], closed);
      var n := PollInbox(p, inbox[1..], closed).1;
      assert forall i | 1 <= i <= n :: inbox[1..][i - 1] == inbox[i];
    }
  }
}
