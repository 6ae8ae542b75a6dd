/** The vocabulary both peers share: stream profiles, their validation, and video frames. */
module Protocol {

  import opened Wrappers

  type U8 = x: int | 0 <= x < 0x100
  type U16 = x: int | 0 <= x < 0x1_0000
  type U32 = x: int | 0 <= x < 0x1_0000_0000
  type U64 = x: int | 0 <= x < 0x1_0000_0000_0000_0000

  const PROTOCOL_VERSION: U8 := 2
  const SUPPORTED_DIMENSIONS: seq<(U16, U16)> :=
    [(640, 480), (1280, 720), (1920, 1080), (2560, 1440), (3840, 2160)]
  const SUPPORTED_FRAME_RATES: seq<U8> := [15, 30, 60]

  datatype VideoCodec = H264 | Hevc

  datatype StreamProfile = StreamProfile(codec: VideoCodec, width: U16, height: U16, fps: U8)

  datatype VideoFrame =
    VideoFrame(data: seq<U8>, ptsUs: U64, codec: VideoCodec, width: U16, height: U16, isKeyframe: bool)

  datatype ProfileError =
    | UnsupportedProtocolVersion(actual: U8)
    | EmptySupportedProfiles
    | DuplicateProfile(profile: StreamProfile)
    | InvalidDimensions(width: U16, height: U16)
    | InvalidFrameRate(fps: U8)
    | ActiveProfileUnsupported(profile: StreamProfile)
    | FrameProfileMismatch(expected: StreamProfile)

  datatype Handshake = Handshake(version: U8, supported: seq<StreamProfile>, active: Option<StreamProfile>)

  // ----- Validation, as the Rust code computes it -----

  function ValidateProfile(p: StreamProfile): Result<(), ProfileError> {
    if (p.width, p.height) !in SUPPORTED_DIMENSIONS then Err(InvalidDimensions(p.width, p.height))
    else if p.fps !in SUPPORTED_FRAME_RATES then Err(InvalidFrameRate(p.fps))
    else Ok(())
  }

  /** The scan of `validate_profiles` from `index` on. */
  function ValidateFrom(profiles: seq<StreamProfile>, index: nat): Result<(), ProfileError>
    requires index <= |profiles|
    decreases |profiles| - index
  {
    if index == |profiles| then Ok(())
    else if ValidateProfile(profiles[index]).Err? then ValidateProfile(profiles[index])
    else if profiles[index] in profiles[..index] then Err(DuplicateProfile(profiles[index]))
    else ValidateFrom(profiles, index + 1)
  }

  function ValidateProfiles(profiles: seq<StreamProfile>): Result<(), ProfileError> {
    if profiles == [] then Err(EmptySupportedProfiles) else ValidateFrom(profiles, 0)
  }

  function ValidateUpdate(supported: seq<StreamProfile>, active: StreamProfile): Result<(), ProfileError> {
    if ValidateProfiles(supported).Err? then ValidateProfiles(supported)
    else if active !in supported then Err(ActiveProfileUnsupported(active))
    else Ok(())
  }

  function ValidateHandshake(h: Handshake): Result<(), ProfileError> {
    if h.version != PROTOCOL_VERSION then Err(UnsupportedProtocolVersion(h.version))
    else if ValidateProfiles(h.supported).Err? then ValidateProfiles(h.supported)
    else if h.active.Some? && h.active.value !in h.supported then Err(ActiveProfileUnsupported(h.active.value))
    else Ok(())
  }

  function ValidateAgainst(f: VideoFrame, active: StreamProfile): Result<(), ProfileError> {
    if f.codec != active.codec || f.width != active.width || f.height != active.height
    then Err(FrameProfileMismatch(active))
    else Ok(())
  }

  /** `validate_common_active_profiles`: each side's active profile must be supported by the other. */
  function ValidateCommonActive(local: Handshake, peer: Handshake): Result<(), StreamProfile> {
    if local.active.Some? && local.active.value !in peer.supported then Err(local.active.value)
    else if peer.active.Some? && peer.active.value !in local.supported then Err(peer.active.value)
    else Ok(())
  }

  // ----- What validation means -----

  ghost predicate Distinct(profiles: seq<StreamProfile>) {
    forall i, j | 0 <= i < j < |profiles| :: profiles[i] != profiles[j]
  }

  ghost predicate AllValid(profiles: seq<StreamProfile>) {
    forall p | p in profiles :: ValidateProfile(p).Ok?
  }

  /** A suffix scan succeeds exactly when nothing in the suffix is invalid or repeats an earlier entry. */
  lemma {:induction false} ValidateFromMeaning(profiles: seq<StreamProfile>, index: nat)
    requires index <= |profiles|
    ensures ValidateFrom(profiles, index).Ok? <==>
            && (forall i | index <= i < |profiles| :: ValidateProfile(profiles[i]).Ok?)
            && (forall i, j | 0 <= i < j < |profiles| && index <= j :: profiles[i] != profiles[j])
    decreases |profiles| - index
  {
    if index < |profiles| {
      ValidateFromMeaning(profiles, index + 1);
      assert profiles[index] in profiles[..index] <==>
             exists i :: 0 <= i < index && profiles[i] == profiles[index];
    }
  }

  lemma ValidateProfilesMeaning(profiles: seq<StreamProfile>)
    ensures ValidateProfiles(profiles).Ok? <==> profiles != [] && AllValid(profiles) && Distinct(profiles)
  {
    ValidateFromMeaning(profiles, 0);
    assert AllValid(profiles) <==> forall i | 0 <= i < |profiles| :: ValidateProfile(profiles[i]).Ok?;
  }

  /** Entry `k` is the first that is illegal or repeats an earlier one. */
  ghost predicate FirstOffence(profiles: seq<StreamProfile>, k: nat) {
    && k < |profiles|
    && AllValid(profiles[..k]) && Distinct(profiles[..k])
    && (ValidateProfile(profiles[k]).Err? || profiles[k] in profiles[..k])
  }

  lemma {:induction false} ScanStopsAt(profiles: seq<StreamProfile>, index: nat, k: nat)
    requires index <= k && FirstOffence(profiles, k)
    ensures ValidateFrom(profiles, index) == ValidateFrom(profiles, k)
    decreases k - index
  {
    if index < k {
      ScanStopsAt(profiles, index + 1, k);
      assert profiles[index] == profiles[..k][index];
      assert forall i | 0 <= i < index :: profiles[..index][i] == profiles[..k][i] != profiles[..k][index];
    }
  }

  /** The error names the first entry that offends, and what is wrong with it; an illegal entry that repeats counts as
      illegal. */
  lemma ErrorIsFirstOffence(profiles: seq<StreamProfile>, k: nat)
    requires FirstOffence(profiles, k)
    ensures var p := profiles[k];
            ValidateProfiles(profiles) ==
            if (p.width, p.height) !in SUPPORTED_DIMENSIONS then Err(InvalidDimensions(p.width, p.height))
            else if p.fps !in SUPPORTED_FRAME_RATES then Err(InvalidFrameRate(p.fps))
            else Err(DuplicateProfile(p))
  {
    ScanStopsAt(profiles, 0, k);
  }

  /** Where a legal profile stands among the thirty: codec, then dimensions, then frame rate. */
  ghost function Rank(p: StreamProfile): nat {
    15 * (if p.codec.H264? then 0 else 1)
    + 3 * (match p.width case 640 => 0 case 1280 => 1 case 1920 => 2 case 2560 => 3 case _ => 4)
    + (match p.fps case 15 => 0 case 30 => 1 case _ => 2)
  }

  lemma RankIsInjective(p: StreamProfile, q: StreamProfile)
    requires ValidateProfile(p).Ok? && ValidateProfile(q).Ok?
    ensures Rank(p) < 30
    ensures Rank(p) == Rank(q) ==> p == q
  {
  }

  /** Distinct numbers below `bound` cannot be more than `bound` many. */
  lemma {:induction false} Pigeonhole(numbers: seq<nat>, bound: nat)
    requires forall i | 0 <= i < |numbers| :: numbers[i] < bound
    requires forall i, j | 0 <= i < j < |numbers| :: numbers[i] != numbers[j]
    ensures |numbers| <= bound
    decreases bound
  {
    if numbers != [] {
      assert numbers[0] < bound;
      if k: nat :| k < |numbers| && numbers[k] == bound - 1 {
        Pigeonhole(numbers[..k] + numbers[k + 1..], bound - 1);
      } else {
        Pigeonhole(numbers, bound - 1);
      }
    }
  }

  /** A list that validates cannot be longer than the protocol's thirty profiles. */
  lemma ValidListsAreShort(profiles: seq<StreamProfile>)
    requires ValidateProfiles(profiles).Ok?
    ensures 1 <= |profiles| <= 30
  {
    ValidateProfilesMeaning(profiles);
    var ranks := seq(|profiles|, i requires 0 <= i < |profiles| => Rank(profiles[i]));
    forall i, j | 0 <= i < j < |profiles| ensures ranks[i] != ranks[j] && ranks[i] < 30 && ranks[j] < 30 {
      RankIsInjective(profiles[i], profiles[j]);
    }
    if |profiles| == 1 { RankIsInjective(profiles[0], profiles[0]); }
    Pigeonhole(ranks, 30);
  }

  /** A handshake names an active profile only from a valid list; with the cross check, the other side supports it. */
  lemma HandshakeMeaning(local: Handshake, peer: Handshake)
    requires ValidateHandshake(local).Ok? && ValidateHandshake(peer).Ok? && ValidateCommonActive(local, peer).Ok?
    requires peer.active.Some?
    ensures peer.active.value in peer.supported && peer.active.value in local.supported
    ensures AllValid(peer.supported) && Distinct(peer.supported)
  {
    ValidateProfilesMeaning(peer.supported);
  }
}
