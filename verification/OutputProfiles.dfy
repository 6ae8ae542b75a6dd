/** Which profiles the desktop offers: those its output could show, with either codec. */
module OutputProfiles {

  import opened Wrappers
  import opened Protocol

  /** Preflight asks the device for dimensions and rate only; every output ignores the codec. */
  predicate Preflight(p: StreamProfile, probe: (U16, U16, U8) -> bool) {
    ValidateProfile(p).Ok? && probe(p.width, p.height, p.fps)
  }

  ghost predicate TwinClosed(profiles: seq<StreamProfile>) {
    forall p | p in profiles :: p.(codec := H264) in profiles && p.(codec := Hevc) in profiles
  }

  /** The profiles of one codec and one frame size, at every rate the device takes. */
  method QualifiedRates(codec: VideoCodec, size: (U16, U16), probe: (U16, U16, U8) -> bool, before: seq<StreamProfile>)
    returns (profiles: seq<StreamProfile>)
    requires Distinct(before)
    requires forall p | p in before :: p.codec != codec || (p.width, p.height) != size
    ensures Distinct(profiles)
    ensures forall p :: p in profiles <==>
              p in before || (p.codec == codec && (p.width, p.height) == size && Preflight(p, probe))
  {
    profiles := before;
    for i := 0 to |SUPPORTED_FRAME_RATES|
      invariant Distinct(profiles)
      invariant forall p :: p in profiles <==>
                  p in before || (p.codec == codec && (p.width, p.height) == size && p.fps in SUPPORTED_FRAME_RATES[..i]
                                  && Preflight(p, probe))
    {
      var profile := StreamProfile(codec, size.0, size.1, SUPPORTED_FRAME_RATES[i]);
      assert SUPPORTED_FRAME_RATES[..i + 1] == SUPPORTED_FRAME_RATES[..i] + [SUPPORTED_FRAME_RATES[i]];
      if Preflight(profile, probe) {
        profiles := profiles + [profile];
      }
    }
  }

  method QualifiedSizes(codec: VideoCodec, probe: (U16, U16, U8) -> bool, before: seq<StreamProfile>)
    returns (profiles: seq<StreamProfile>)
    requires Distinct(before) && forall p | p in before :: p.codec != codec
    ensures Distinct(profiles)
    ensures forall p :: p in profiles <==> p in before || (p.codec == codec && Preflight(p, probe))
  {
    hide Distinct;
    profiles := before;
    for i := 0 to |SUPPORTED_DIMENSIONS|
      invariant Distinct(profiles)
      invariant forall p :: p in profiles <==>
                  p in before || (p.codec == codec && (p.width, p.height) in SUPPORTED_DIMENSIONS[..i] && Preflight(p, probe))
    {
      SizesDiffer(i);
      profiles := QualifiedRates(codec, SUPPORTED_DIMENSIONS[i], probe, profiles);
    }
    assert SUPPORTED_DIMENSIONS[..|SUPPORTED_DIMENSIONS|] == SUPPORTED_DIMENSIONS;
  }

  lemma SizesDiffer(i: nat)
    requires i < |SUPPORTED_DIMENSIONS|
    ensures SUPPORTED_DIMENSIONS[i] !in SUPPORTED_DIMENSIONS[..i]
    ensures SUPPORTED_DIMENSIONS[..i + 1] == SUPPORTED_DIMENSIONS[..i] + [SUPPORTED_DIMENSIONS[i]]
  {
  }

  /** The desktop's list: exactly the legal profiles the device takes, each once, and so with either codec. */
  method QualifiedOutputProfiles(probe: (U16, U16, U8) -> bool) returns (profiles: seq<StreamProfile>)
    ensures Distinct(profiles) && forall p :: p in profiles <==> Preflight(p, probe)
    ensures TwinClosed(profiles)
  {
    hide Distinct, Preflight;
    NothingYet();
    profiles := QualifiedSizes(H264, probe, []);
    profiles := QualifiedSizes(Hevc, probe, profiles);
    forall p | p in profiles ensures p.(codec := H264) in profiles && p.(codec := Hevc) in profiles {
      SameForBothCodecs(p, H264, probe);
      SameForBothCodecs(p, Hevc, probe);
    }
  }

  lemma NothingYet()
    ensures Distinct([])
  {
  }

  lemma SameForBothCodecs(p: StreamProfile, codec: VideoCodec, probe: (U16, U16, U8) -> bool)
    ensures Preflight(p.(codec := codec), probe) == Preflight(p, probe)
  {
  }
}
