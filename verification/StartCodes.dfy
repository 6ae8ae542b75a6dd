/** The desktop's check of H.264 Annex B data, and how it takes what the phones send. */
module StartCodes {

  import opened Wrappers
  import opened Protocol
  import opened Bytes
  import opened NalUnits

  /** The three-byte start code prefix of section B.1 of ITU-T H.264. */
  predicate StartsAt(data: seq<U8>, i: nat) {
    i + 3 <= |data| && data[i] == 0 && data[i + 1] == 0 && data[i + 2] == 1
  }

  predicate HeaderAfter(data: seq<U8>, i: nat) {
    i + 3 < |data| && ValidHeader(data[i + 3], H264)
  }

  /** Every start code is followed by a valid header. */
  ghost predicate AllHeaded(data: seq<U8>) {
    forall i: nat | StartsAt(data, i) :: HeaderAfter(data, i)
  }

  ghost predicate SomeStart(data: seq<U8>) {
    exists i: nat | i < |data| :: StartsAt(data, i)
  }

  ghost predicate HeadedBefore(data: seq<U8>, cursor: nat) {
    forall i: nat | i < cursor && StartsAt(data, i) :: HeaderAfter(data, i)
  }

  ghost predicate StartBefore(data: seq<U8>, cursor: nat) {
    exists i: nat | i < cursor :: StartsAt(data, i)
  }

  /** Nothing starts between a start code and the byte after its header. */
  lemma SkipIsSafe(data: seq<U8>, start: nat, i: nat)
    requires StartsAt(data, start) && HeaderAfter(data, start) && start < i <= start + 3
    ensures !StartsAt(data, i)
  {
  }

  /** The scanner, which jumps past each header, decides what the specification says about every position. */
  method ValidateH264AnnexB(data: seq<U8>) returns (valid: bool)
    ensures valid <==> SomeStart(data) && AllHeaded(data)
  {
    var cursor, found := 0, false;
    while cursor + 3 <= |data|
      invariant HeadedBefore(data, cursor)
      invariant found <==> StartBefore(data, cursor)
      decreases |data| - cursor
    {
      var startCodeLength;
      if [0, 0, 0, 1] <= data[cursor..] {
        startCodeLength := 4;
        assert data[cursor..][1] == data[cursor + 1] && data[cursor..][2] == data[cursor + 2] && data[cursor..][3] == data[cursor + 3];
      } else if [0, 0, 1] <= data[cursor..] {
        startCodeLength := 3;
        assert data[cursor..][1] == data[cursor + 1] && data[cursor..][2] == data[cursor + 2];
      } else {
        cursor := cursor + 1;
        continue;
      }
      ghost var start := cursor + startCodeLength - 3;
      assert StartsAt(data, start) && (startCodeLength == 4 ==> !StartsAt(data, cursor));
      var header := cursor + startCodeLength;
      if header >= |data| || !ValidHeader(data[header], H264) {
        return false;
      }
      found := true;
      forall i | start < i <= start + 3 ensures !StartsAt(data, i) { SkipIsSafe(data, start, i); }
      cursor := header + 1;
    }
    return found;
  }

  // ----- What the phones send -----

  predicate Unit(u: seq<U8>) {
    u != [] && ValidHeader(u[0], H264)
  }

  /** Where a start code can be in a unit with what follows it: nowhere across a boundary. */
  lemma StartsWhere(u: seq<U8>, rest: seq<U8>, i: nat)
    requires Unit(u) && (rest == [] || START_CODE <= rest)
    ensures StartsAt(START_CODE + u + rest, i) <==>
            i == 1 || (i >= 4 && StartsAt(u, i - 4)) || (i >= 4 + |u| && StartsAt(rest, i - 4 - |u|))
  {
    var data := START_CODE + u + rest;
    assert forall k | 0 <= k < 4 :: data[k] == START_CODE[k];
    assert forall k | 0 <= k < |u| :: data[4 + k] == u[k];
    assert forall k | 0 <= k < |rest| :: data[4 + |u| + k] == rest[k];
  }

  lemma HeadersWhere(u: seq<U8>, rest: seq<U8>)
    requires Unit(u) && (rest == [] || START_CODE <= rest)
    ensures var data := START_CODE + u + rest;
            && HeaderAfter(data, 1)
            && (forall i: nat | StartsAt(u, i) :: HeaderAfter(data, 4 + i) <==> HeaderAfter(u, i))
            && (forall i: nat | StartsAt(rest, i) :: HeaderAfter(data, 4 + |u| + i) <==> HeaderAfter(rest, i))
  {
    var data := START_CODE + u + rest;
    assert forall k | 0 <= k < |u| :: data[4 + k] == u[k];
    assert forall k | 0 <= k < |rest| :: data[4 + |u| + k] == rest[k];
  }

  lemma UnitThenRest(u: seq<U8>, rest: seq<U8>)
    requires Unit(u) && (rest == [] || START_CODE <= rest)
    ensures AllHeaded(START_CODE + u + rest) <==> AllHeaded(u) && AllHeaded(rest)
  {
    var data := START_CODE + u + rest;
    HeadersWhere(u, rest);
    hide StartsAt, HeaderAfter, Unit;
    forall i: nat
      ensures StartsAt(data, i) <==>
              i == 1 || (i >= 4 && StartsAt(u, i - 4)) || (i >= 4 + |u| && StartsAt(rest, i - 4 - |u|)) {
      StartsWhere(u, rest, i);
    }
    if AllHeaded(data) {
      forall i: nat | StartsAt(u, i) ensures HeaderAfter(u, i) { assert StartsAt(data, 4 + i); }
      forall i: nat | StartsAt(rest, i) ensures HeaderAfter(rest, i) { assert StartsAt(data, 4 + |u| + i); }
    }
    if AllHeaded(u) && AllHeaded(rest) {
      forall i: nat | StartsAt(data, i) ensures HeaderAfter(data, i) {
        if i != 1 {
          if i >= 4 && StartsAt(u, i - 4) {
            assert HeaderAfter(u, i - 4) && 4 + (i - 4) == i;
          } else {
            assert StartsAt(rest, i - 4 - |u|) && HeaderAfter(rest, i - 4 - |u|) && 4 + |u| + (i - 4 - |u|) == i;
          }
        }
      }
    }
  }

  lemma {:induction false} AnnexBHeaded(units: seq<seq<U8>>)
    requires forall u | u in units :: Unit(u)
    ensures AllHeaded(AnnexB(units)) <==> forall u | u in units :: AllHeaded(u)
  {
    if units != [] {
      AnnexBHeaded(units[1..]);
      UnitThenRest(units[0], AnnexB(units[1..]));
      hide AllHeaded, Unit;
      assert forall u | u in units :: u == units[0] || u in units[1..];
    }
  }

  /** Annex B data made of units with valid headers is accepted exactly when there is a unit and any start code
      inside a unit is followed, in that unit, by a valid header. Emulation prevention, in section 7.4.1 of
      ITU-T H.264, leaves none inside. */
  lemma AnnexBAccepted(units: seq<seq<U8>>)
    requires forall u | u in units :: Unit(u)
    ensures SomeStart(AnnexB(units)) && AllHeaded(AnnexB(units)) <==> units != [] && forall u | u in units :: AllHeaded(u)
  {
    AnnexBHeaded(units);
    hide AllHeaded, Unit;
    if units != [] {
      assert AnnexB(units)[..4] == START_CODE;
      assert forall k | 0 <= k < 4 :: AnnexB(units)[k] == AnnexB(units)[..4][k];
      assert StartsAt(AnnexB(units), 1);
    }
  }

  // ----- Normalisation -----

  ghost function Normalized(data: seq<U8>): Option<seq<U8>> {
    if data == [] then None
    else if [0, 0, 1] <= data || START_CODE <= data then if SomeStart(data) && AllHeaded(data) then Some(data) else None
    else if ValidHeader(data[0], H264) then Some(START_CODE + data)
    else None
  }

  method NormalizeH264AnnexB(data: seq<U8>) returns (r: Option<seq<U8>>)
    ensures r == Normalized(data)
  {
    if |data| == 0 { return None; }
    if [0, 0, 1] <= data || [0, 0, 0, 1] <= data {
      var valid := ValidateH264AnnexB(data);
      return if valid then Some(data) else None;
    }
    if ValidHeader(data[0], H264) { return Some(START_CODE + data); }
    return None;
  }

  /** A payload that begins with a start code is never turned into another one. */
  lemma KeptOrRefused(payload: seq<U8>)
    requires HasStartCode(payload)
    ensures Normalized(payload) == Some(payload) || Normalized(payload) == None
  {
    assert payload[0] == 0 && payload[1] == 0;
    assert payload[2] == 1 ==> payload[..3] == [0, 0, 1];
    assert payload[2] == 0 ==> payload[..4] == START_CODE;
    hide SomeStart, AllHeaded;
  }

  /** The desktop gets the Annex B form of an Android access unit if and only if its first length does not look like
      a start code, or every unit is a single byte, and any start code inside a unit is followed by a header. */
  lemma AndroidToDesktop(units: seq<seq<U8>>)
    requires units != [] && Encodable(units, 4) && Headed(units, H264)
    ensures Normalized(Repackaged(LengthPrefixed(units, 4), H264)) == Some(AnnexB(units)) <==>
            (!Lookalike(units) || AllSingleBytes(units)) && forall u | u in units :: AllHeaded(u)
  {
    ToAnnexBExactly(units, H264);
    AnnexBAccepted(units);
    LookalikeStarts(units);
    assert START_CODE <= AnnexB(units);
    if Lookalike(units) {
      KeptOrRefused(LengthPrefixed(units, 4));
    }
    hide Encodable, Headed, Lookalike, AllSingleBytes, AllHeaded, SomeStart, HasStartCode, LengthPrefixed, AnnexB;
  }

  /** An Android access unit that is in Annex B form already reaches the decoder as it is, if and only if any start code
      inside a unit is followed there by a valid header; otherwise it is refused. */
  lemma AnnexBToDesktop(units: seq<seq<U8>>)
    requires units != [] && forall u | u in units :: Unit(u)
    ensures Normalized(Repackaged(AnnexB(units), H264)) ==
            if forall u | u in units :: AllHeaded(u) then Some(AnnexB(units)) else None
  {
    AnnexBIsKept(units, H264);
    AnnexBAccepted(units);
    hide AllHeaded, SomeStart, Unit, Repackaged;
    assert AnnexB(units)[..4] == START_CODE;
  }

  /** What becomes of every payload. Data that begins with a start code is taken unchanged if and only if each start code
      in it is followed by a valid header; other data counts as one unit, with a valid header or refused. */
  lemma NormalizedExactly(data: seq<U8>)
    ensures Normalized(data) ==
            if BeginsWithStartCode(data) then if AllHeaded(data) then Some(data) else None
            else if data != [] && ValidHeader(data[0], H264) then Some(AnnexB([data])) else None
  {
    if BeginsWithStartCode(data) {
      StartCodeSeen(data);
      assert StartsAt(data, if data[2] == 1 then 0 else 1);
      hide AllHeaded;
    } else if data != [] {
      AnnexBOfOne(data);
    }
  }

  /** The same for iOS, at any prefix width and with parameter sets in front. */
  lemma IosToDesktop(units: seq<seq<U8>>, width: int, sets: seq<seq<U8>>)
    requires 1 <= width <= 4 && Encodable(units, width) && sets + units != []
    requires forall u | u in sets + units :: Unit(u)
    ensures Assembled(LengthPrefixed(units, width), width, sets) == Ok(AnnexB(sets + units))
    ensures Normalized(AnnexB(sets + units)) ==
            if forall u | u in sets + units :: AllHeaded(u) then Some(AnnexB(sets + units)) else None
  {
    AssembledExactly(LengthPrefixed(units, width), width, sets, AnnexB(sets + units));
    AnnexBAccepted(sets + units);
    hide Encodable, AllHeaded, SomeStart, Unit, LengthPrefixed;
    assert START_CODE <= AnnexB(sets + units);
  }
}
