/** The transport client in the form the source gives it: fields behind a lock, updated by each call.
    Each method computes the function of the same name in MobileCore, and keeps a sound client sound. */
module PhoneClient {

  import opened Wrappers
  import opened Protocol
  import opened Pipeline
  import opened MobileCore

  class TransportClient {
    var connected: bool
    const peerSupported: seq<StreamProfile>
    var supported: seq<StreamProfile>
    var active: StreamProfile
    var pending: Option<(U32, StreamProfile)>
    var sent: seq<Envelope>

    function State(): Phone
      reads this
    {
      Phone(connected, peerSupported, supported, active, pending, sent)
    }

    constructor (phone: Phone)
      ensures State() == phone
    {
      connected, peerSupported, supported := phone.connected, phone.peerSupported, phone.supported;
      active, pending, sent := phone.active, phone.pending, phone.sent;
    }

    method SendVideoFrame(data: seq<U8>, ptsUs: U64, codec: U8, width: U16, height: U16, isKeyframe: bool, fits: bool)
      returns (accepted: bool)
      modifies this
      ensures (State(), accepted) ==
              MobileCore.SendVideoFrame(old(State()), data, ptsUs, codec, width, height, isKeyframe, fits)
      ensures old(Sound(State())) ==> Sound(State())
    {
      if Sound(State()) {
        CallKeepsSound(State(), FrameCall(data, ptsUs, codec, width, height, isKeyframe, fits));
      }
      hide Sound;
      if data == [] {
        return false;
      }
      var id := CodecFromId(codec);
      if id.None? || !connected {
        return false;
      }
      var frame := VideoFrame(data, ptsUs, id.value, width, height, isKeyframe);
      if ValidateAgainst(frame, active).Err? || !fits {
        return false;
      }
      sent := sent + [Envelope(VideoFrameMessage(frame), Snapshot(active, supported))];
      return true;
    }

    method UpdateCapabilities(profiles: seq<StreamProfile>, fits: bool) returns (accepted: bool)
      modifies this
      ensures (State(), accepted) == MobileCore.UpdateCapabilities(old(State()), profiles, fits)
      ensures old(Sound(State())) ==> Sound(State())
    {
      if Sound(State()) { CallKeepsSound(State(), UpdateCall(profiles, fits)); }
      hide Sound;
      if !connected || ValidateUpdate(profiles, active).Err? || !fits {
        return false;
      }
      supported := profiles;
      sent := sent + [Envelope(CapabilitiesUpdate(profiles), Snapshot(active, supported))];
      return true;
    }

    method Report(id: U32, code: U8, codec: U8, width: U16, height: U16, fps: U8, fits: bool) returns (accepted: bool)
      modifies this
      ensures (State(), accepted) == MobileCore.Report(old(State()), id, code, codec, width, height, fps, fits)
      ensures old(Sound(State())) ==> Sound(State())
    {
      if Sound(State()) { CallKeepsSound(State(), ReportCall(id, code, codec, width, height, fps, fits)); }
      hide Sound;
      if !connected || (id != 0 && (pending.None? || pending.value.0 != id)) {
        return false;
      }
      var applied := None;
      if code == 0 {
        applied := ProfileFromCall(codec, width, height, fps);
        if applied.None? || applied.value !in supported || applied.value !in peerSupported {
          return false;
        }
      }
      var outcome := OutcomeOf(code, applied);
      if outcome.None? || !fits {
        return false;
      }
      if applied.Some? {
        active := applied.value;
      }
      if id != 0 {
        pending := None;
      }
      sent := sent + [Envelope(ConfigurationResult(id, outcome.value), Snapshot(active, supported))];
      return true;
    }

    /** `inbox` is what has arrived; `taken` says how much of it the poll consumed. */
    method Poll(inbox: seq<DesktopMessage>, closed: bool) returns (taken: nat, command: Option<DesktopMessage>)
      modifies this
      ensures (State(), taken, command) == MobileCore.Poll(old(State()), inbox, closed)
      ensures old(Sound(State())) ==> Sound(State())
    {
      taken, command := 0, None;
      if !connected || pending.Some? {
        return;
      }
      while taken < |inbox|
        invariant taken <= |inbox| && command == None && State() == old(State())
        invariant MobileCore.Poll(old(State()), inbox, closed) ==
                  var rest := PollInbox(State(), inbox[taken..], closed); (rest.0, taken + rest.1, rest.2)
      {
        var message := inbox[taken];
        assert inbox[taken..][1..] == inbox[taken + 1..];
        taken := taken + 1;
        match message {
          case OtherDesktopMessage =>
          case DesktopDisconnect =>
            connected := false;
            return;
          case ConfigureStream(id, profile) =>
            if ValidateProfile(profile).Ok? {
              pending := Some((id, profile));
              command := Some(message);
              return;
            }
          case _ =>
            command := Some(message);
            return;
        }
      }
      if closed {
        connected := false;
      }
    }
  }
}
