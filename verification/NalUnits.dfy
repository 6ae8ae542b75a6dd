/** Repackaging NAL units: from length prefixes, as the phones' encoders emit them, to Annex B start codes. The
    Android and iOS code do it separately. */
module NalUnits {

  import opened Wrappers
  import opened Protocol
  import opened Bytes

  const START_CODE: seq<U8> := [0, 0, 0, 1]
  const INT_MAX: nat := 0x7FFF_FFFF

  // ----- The two packagings -----

  function Prefixed(u: seq<U8>, width: nat): (r: seq<U8>)
    ensures |r| == width + |u|
  {
    ToBe(|u|, width) + u
  }

  function LengthPrefixed(units: seq<seq<U8>>, width: nat): seq<U8> {
    if units == [] then [] else Prefixed(units[0], width) + LengthPrefixed(units[1..], width)
  }

  function AnnexB(units: seq<seq<U8>>): seq<U8> {
    if units == [] then [] else START_CODE + units[0] + AnnexB(units[1..])
  }

  /** A unit a `width`-byte prefix can carry. */
  predicate Fits(u: seq<U8>, width: nat) {
    0 < |u| < Pow256(width)
  }

  predicate Encodable(units: seq<seq<U8>>, width: nat) {
    forall u | u in units :: Fits(u, width)
  }

  /** The unit at the front of length-prefixed data. */
  function FirstUnit(data: seq<U8>, width: nat): (r: Option<seq<U8>>)
    ensures r.Some? ==> 0 < |r.value| <= |data| - width
  {
    if |data| < width then None
    else
      var length := FromBe(data[..width]);
      if length == 0 || length > |data| - width then None else Some(data[width..width + length])
  }

  lemma FirstUnitIs(data: seq<U8>, u: seq<U8>, width: nat)
    ensures FirstUnit(data, width) == Some(u) <==> Fits(u, width) && Prefixed(u, width) <= data
  {
    if FirstUnit(data, width) == Some(u) {
      FromBeRoundTrip(data[..width]);
    }
    if Fits(u, width) && Prefixed(u, width) <= data {
      BeRoundTrip(|u|, width);
      assert data[..width] == Prefixed(u, width)[..width] == ToBe(|u|, width);
      assert data[width..width + |u|] == Prefixed(u, width)[width..] == u;
    }
  }

  function Ahead(units: seq<seq<U8>>, rest: Option<seq<seq<U8>>>): Option<seq<seq<U8>>> {
    if rest.None? then None else Some(units + rest.value)
  }

  /** Read `data` as length-prefixed units. */
  function Split(data: seq<U8>, width: nat): Option<seq<seq<U8>>>
    decreases |data|
  {
    if data == [] then Some([])
    else
      var first := FirstUnit(data, width);
      if first.None? then None else Ahead([first.value], Split(data[width + |first.value|..], width))
  }

  /** Units in front of more data come out first: prefixes leave no second reading. */
  lemma {:induction false} SplitAfter(units: seq<seq<U8>>, rest: seq<U8>, width: nat)
    requires Encodable(units, width)
    ensures Split(LengthPrefixed(units, width) + rest, width) == Ahead(units, Split(rest, width))
  {
    hide Split, Prefixed, Fits, Ahead;
    if units == [] {
      assert LengthPrefixed(units, width) + rest == rest;
      AheadNothing(Split(rest, width));
    } else {
      var u, tail := units[0], units[1..];
      var after := LengthPrefixed(tail, width) + rest;
      SplitAfter(tail, rest, width);
      assert LengthPrefixed(units, width) + rest == Prefixed(u, width) + after by {
        assert (Prefixed(u, width) + LengthPrefixed(tail, width)) + rest == Prefixed(u, width) + after;
      }
      SplitOne(u, after, width);
      AheadJoins([u], tail, Split(rest, width));
      assert [u] + tail == units;
    }
  }

  lemma SplitOne(u: seq<U8>, after: seq<U8>, width: nat)
    requires Fits(u, width)
    ensures Split(Prefixed(u, width) + after, width) == Ahead([u], Split(after, width))
  {
    var data := Prefixed(u, width) + after;
    FirstUnitIs(data, u, width);
    assert |u| > 0 && data[width + |u|..] == after;
    hide FirstUnit, Prefixed, Fits, Ahead;
  }

  lemma AheadNothing(rest: Option<seq<seq<U8>>>)
    ensures Ahead([], rest) == rest
  {
    assert rest.Some? ==> [] + rest.value == rest.value;
  }

  lemma AheadJoins(a: seq<seq<U8>>, b: seq<seq<U8>>, rest: Option<seq<seq<U8>>>)
    ensures Ahead(a, Ahead(b, rest)) == Ahead(a + b, rest)
  {
    assert rest.Some? ==> a + (b + rest.value) == a + b + rest.value;
  }

  lemma {:induction false} SplitReads(data: seq<U8>, width: nat)
    ensures Split(data, width).Some? ==>
              Encodable(Split(data, width).value, width) && LengthPrefixed(Split(data, width).value, width) == data
    decreases |data|
  {
    hide FirstUnit, Prefixed, Fits;
    var first := FirstUnit(data, width);
    if data != [] && first.Some? {
      FirstUnitIs(data, first.value, width);
      SplitReads(data[width + |first.value|..], width);
      assert data == Prefixed(first.value, width) + data[width + |first.value|..];
    }
  }

  /** Splitting undoes prefixing, and nothing else splits into those units. */
  lemma SplitExactly(data: seq<U8>, units: seq<seq<U8>>, width: nat)
    ensures Split(data, width) == Some(units) <==> Encodable(units, width) && data == LengthPrefixed(units, width)
  {
    SplitReads(data, width);
    if Encodable(units, width) && data == LengthPrefixed(units, width) {
      hide Encodable, LengthPrefixed;
      SplitAfter(units, [], width);
      assert LengthPrefixed(units, width) + [] == data && units + [] == units;
    }
  }

  lemma {:induction false} AppendedAnnexB(units: seq<seq<U8>>, u: seq<U8>)
    ensures AnnexB(units + [u]) == AnnexB(units) + START_CODE + u
  {
    if units == [] {
      assert units + [u] == [u];
    } else {
      AppendedAnnexB(units[1..], u);
      assert (units + [u])[1..] == units[1..] + [u];
    }
  }

  /** A start code is as long as a four-byte prefix. */
  lemma {:induction false} SameLength(units: seq<seq<U8>>)
    ensures |AnnexB(units)| == |LengthPrefixed(units, 4)|
  {
    if units != [] {
      SameLength(units[1..]);
    }
  }

  // ----- Android -----

  predicate ValidHeader(header: U8, codec: VideoCodec) {
    && header < 128
    && match codec
       case H264 => 1 <= header % 32 <= 23
       case Hevc => 0 <= header / 2 % 64 <= 47
  }

  predicate Headed(units: seq<seq<U8>>, codec: VideoCodec) {
    forall u | u in units :: |u| > 0 && ValidHeader(u[0], codec)
  }

  predicate HasStartCode(payload: seq<U8>) {
    && |payload| >= 3 && payload[0] == 0 && payload[1] == 0
    && (payload[2] == 1 || (|payload| >= 4 && payload[2] == 0 && payload[3] == 1))
  }

  /** The four bytes as a signed 32-bit number. */
  function ReadLength(payload: seq<U8>, offset: nat): int
    requires offset + 4 <= |payload|
  {
    var n: int :=
      payload[offset] as int * 0x100_0000 + payload[offset + 1] as int * 0x1_0000 + payload[offset + 2] as int * 0x100 + payload[offset + 3];
    if n > INT_MAX then n - 0x1_0000_0000 else n
  }

  lemma ReadsPrefix(payload: seq<U8>, offset: nat)
    requires offset + 4 <= |payload|
    ensures var n := FromBe(payload[offset..offset + 4]);
            n < 0x1_0000_0000 && ReadLength(payload, offset) == if n > INT_MAX then n - 0x1_0000_0000 else n
  {
    var s := payload[offset..offset + 4];
    FourBytes(s);
  }

  lemma FourBytes(s: seq<U8>)
    requires |s| == 4
    ensures FromBe(s) == s[0] as int * 0x100_0000 + s[1] as int * 0x1_0000 + s[2] as int * 0x100 + s[3]
  {
    assert FromBe(s) == 256 * FromBe(s[..3]) + s[3];
    assert s[..3][..2] == s[..2] && FromBe(s[..3]) == 256 * FromBe(s[..2]) + s[2];
    assert s[..2][..1] == s[..1] && FromBe(s[..2]) == 256 * FromBe(s[..1]) + s[1];
    assert FromBe(s[..1]) == 256 * FromBe([]) + s[0];
  }

  /** What length-prefixed data with valid headers converts to. */
  function Converted(payload: seq<U8>, codec: VideoCodec): Option<seq<U8>> {
    var units := Split(payload, 4);
    if units.Some? && Headed(units.value, codec) then Some(AnnexB(units.value)) else None
  }

  /** Conversion succeeds on exactly the length-prefixed lists of units with valid headers, and keeps the list. */
  lemma ConvertedExactly(payload: seq<U8>, codec: VideoCodec, annexB: seq<U8>)
    ensures Converted(payload, codec) == Some(annexB) <==>
            exists units :: Encodable(units, 4) && Headed(units, codec)
                            && payload == LengthPrefixed(units, 4) && annexB == AnnexB(units)
  {
    hide Encodable, Headed;
    if Converted(payload, codec) == Some(annexB) {
      SplitExactly(payload, Split(payload, 4).value, 4);
    }
    forall units | Encodable(units, 4) && Headed(units, codec) && payload == LengthPrefixed(units, 4) && annexB == AnnexB(units)
      ensures Converted(payload, codec) == Some(annexB)
    {
      SplitExactly(payload, units, 4);
    }
  }

  lemma SplitStarts(data: seq<U8>, width: nat)
    ensures Split(data, width) == Ahead([], Split(data[0..], width)) && AnnexB([]) == []
    ensures Headed([], H264) && Headed([], Hevc)
  {
    assert data[0..] == data;
    assert Split(data, width).Some? ==> [] + Split(data, width).value == Split(data, width).value;
  }

  /** One step of splitting at `offset`, where `done` has been split off. */
  lemma SplitStep(data: seq<U8>, done: seq<seq<U8>>, offset: nat, width: nat)
    requires offset < |data| && Split(data, width) == Ahead(done, Split(data[offset..], width))
    ensures |data| - offset < width ==> Split(data, width).None?
    ensures |data| - offset >= width ==>
              var length := FromBe(data[offset..offset + width]);
              if length == 0 || length > |data| - offset - width then Split(data, width).None?
              else
                var u := data[offset + width..offset + width + length];
                Split(data, width) == Ahead(done + [u], Split(data[offset + width + length..], width))
  {
    hide FromBe, Ahead, Split;
    var rest := data[offset..];
    SplitHead(rest, width);
    AheadNone(done);
    if |rest| >= width {
      assert rest[..width] == data[offset..offset + width];
      var length := FromBe(rest[..width]);
      if 0 < length <= |rest| - width {
        var u, after := rest[width..width + length], rest[width + length..];
        assert u == data[offset + width..offset + width + length] && after == data[offset + width + length..];
        AheadJoins(done, [u], Split(after, width));
      }
    }
  }

  lemma AheadNone(done: seq<seq<U8>>)
    ensures Ahead(done, None) == None
  {
  }

  lemma FirstUnitUnfolds(data: seq<U8>, width: nat)
    ensures |data| < width ==> FirstUnit(data, width).None?
    ensures |data| >= width ==>
              var length := FromBe(data[..width]);
              FirstUnit(data, width) == if length == 0 || length > |data| - width then None
                                        else Some(data[width..width + length])
  {
  }

  lemma SplitHead(data: seq<U8>, width: nat)
    requires data != []
    ensures |data| < width ==> Split(data, width).None?
    ensures |data| >= width ==>
              var length := FromBe(data[..width]);
              Split(data, width) == if length == 0 || length > |data| - width then None
                                    else Ahead([data[width..width + length]], Split(data[width + length..], width))
  {
    hide FromBe, Ahead;
    FirstUnitUnfolds(data, width);
    hide FirstUnit;
  }

  lemma HeadedSoFar(done: seq<seq<U8>>, u: seq<U8>, rest: Option<seq<seq<U8>>>, codec: VideoCodec)
    requires |u| > 0 && Headed(done, codec)
    ensures ValidHeader(u[0], codec) ==> Headed(done + [u], codec)
    ensures var all := Ahead(done + [u], rest);
            all.Some? && Headed(all.value, codec) ==> ValidHeader(u[0], codec)
  {
    hide ValidHeader;
    assert (done + [u])[|done|] == u;
  }

  lemma SplitEnds(data: seq<U8>, done: seq<seq<U8>>, width: nat)
    requires Split(data, width) == Ahead(done, Split(data[|data|..], width))
    ensures Split(data, width) == Some(done)
  {
    assert data[|data|..] == [] && done + [] == done;
  }

  method ConvertLengthPrefixed(payload: seq<U8>, codec: VideoCodec) returns (r: Option<seq<U8>>)
    requires |payload| <= INT_MAX
    ensures r == Converted(payload, codec)
  {
    hide Split, ReadLength, ValidHeader, AnnexB, FromBe, Ahead, Headed;
    var offset := 0;
    ghost var units: seq<seq<U8>> := [];
    SplitStarts(payload, 4);
    while offset < |payload|
      invariant offset <= |payload| && Headed(units, codec)
      invariant Split(payload, 4) == Ahead(units, Split(payload[offset..], 4))
    {
      SplitStep(payload, units, offset, 4);
      if |payload| - offset < 4 { return None; }
      ReadsPrefix(payload, offset);
      var length := ReadLength(payload, offset);
      offset := offset + 4;
      if length <= 0 || length > |payload| - offset { return None; }
      ghost var u := payload[offset..offset + length];
      HeadedSoFar(units, u, Split(payload[offset + length..], 4), codec);
      assert u[0] == payload[offset];
      units := units + [u];
      if !ValidHeader(payload[offset], codec) { return None; }
      assert Split(payload, 4) == Ahead(units, Split(payload[offset + length..], 4));
      offset := offset + length;
    }
    SplitEnds(payload, units, 4);
    var annexB := FillAnnexB(payload, units);
    return Some(annexB);
  }

  method CopyInto(source: seq<U8>, start: nat, end: nat, destination: array<U8>, offset: nat)
    requires start <= end <= |source| && offset + (end - start) <= destination.Length
    modifies destination
    ensures destination[..offset + (end - start)] == old(destination[..offset]) + source[start..end]
  {
    forall i | 0 <= i < end - start { destination[offset + i] := source[start + i]; }
  }

  method CopyUnit(payload: seq<U8>, offset: nat, length: nat, output: array<U8>, outputOffset: nat)
    requires offset + length <= |payload| && outputOffset + 4 + length <= output.Length
    modifies output
    ensures output[..outputOffset + 4 + length] == old(output[..outputOffset]) + START_CODE + payload[offset..offset + length]
  {
    CopyInto(START_CODE, 0, 4, output, outputOffset);
    assert START_CODE[0..4] == START_CODE;
    CopyInto(payload, offset, offset + length, output, outputOffset + 4);
  }

  /** The second pass: an output as long as the input is filled exactly. */
  method FillAnnexB(payload: seq<U8>, ghost units: seq<seq<U8>>) returns (r: seq<U8>)
    requires |payload| <= INT_MAX && Split(payload, 4) == Some(units)
    ensures r == AnnexB(units)
  {
    hide AnnexB, Split, ReadLength, FromBe;
    var output := new U8[|payload|](_ => 0);
    var offset, outputOffset := 0, 0;
    ghost var done: seq<seq<U8>> := [];
    SplitStarts(payload, 4);
    while offset < |payload|
      invariant offset <= |payload| && outputOffset == offset
      invariant Split(payload, 4) == Ahead(done, Split(payload[offset..], 4))
      invariant output[..outputOffset] == AnnexB(done)
    {
      SplitStep(payload, done, offset, 4);
      ReadsPrefix(payload, offset);
      var length := ReadLength(payload, offset);
      offset := offset + 4;
      ghost var u := payload[offset..offset + length];
      AppendedAnnexB(done, u);
      CopyUnit(payload, offset, length, output, outputOffset);
      outputOffset := outputOffset + 4 + length;
      offset := offset + length;
      done := done + [u];
    }
    SplitEnds(payload, done, 4);
    assert output[..outputOffset] == output[..];
    return output[..];
  }

  // ----- Android: any payload -----

  function Repackaged(payload: seq<U8>, codec: VideoCodec): seq<U8> {
    if payload == [] || HasStartCode(payload) then payload
    else if Converted(payload, codec).Some? then Converted(payload, codec).value
    else if ValidHeader(payload[0], codec) then START_CODE + payload
    else payload
  }

  method ToAnnexB(payload: seq<U8>, codec: VideoCodec) returns (r: seq<U8>)
    requires |payload| <= INT_MAX
    ensures r == Repackaged(payload, codec)
  {
    if |payload| == 0 || HasStartCode(payload) {
      return payload;
    }
    var converted := ConvertLengthPrefixed(payload, codec);
    if converted.Some? {
      return converted.value;
    }
    if ValidHeader(payload[0], codec) {
      return START_CODE + payload;
    }
    return payload;
  }

  /** The first length reads as a start code. */
  predicate Lookalike(units: seq<seq<U8>>) {
    units != [] && (|units[0]| == 1 || 256 <= |units[0]| <= 511)
  }

  lemma FourBytesOf(n: nat)
    ensures ToBe(n, 4) == [n / 0x100_0000 % 256, n / 0x1_0000 % 256, n / 0x100 % 256, n % 256]
  {
    var n1, n2, n3 := n / 256, n / 0x1_0000, n / 0x100_0000;
    ToBeUnfolds(n, 3);
    ToBeUnfolds(n1, 2);
    ToBeUnfolds(n2, 1);
    ToBeUnfolds(n3, 0);
    assert ToBe(n3 / 256, 0) == [];
    hide ToBe;
    assert n1 / 256 == n2 && n2 / 256 == n3;
  }

  lemma ToBeUnfolds(n: nat, width: nat)
    ensures ToBe(n, width + 1) == ToBe(n / 256, width) + [n % 256]
  {
  }

  lemma LookalikeStarts(units: seq<seq<U8>>)
    requires Encodable(units, 4)
    ensures HasStartCode(LengthPrefixed(units, 4)) <==> Lookalike(units)
  {
    if units != [] {
      assert units[0] in units;
      PrefixStarts(units[0]);
      hide Fits, Prefixed;
      assert Prefixed(units[0], 4) <= LengthPrefixed(units, 4);
      assert forall i | 0 <= i < 4 :: LengthPrefixed(units, 4)[i] == Prefixed(units[0], 4)[i];
    }
  }

  lemma PrefixStarts(u: seq<U8>)
    requires Fits(u, 4)
    ensures HasStartCode(Prefixed(u, 4)) <==> |u| == 1 || 256 <= |u| <= 511
  {
    FourBytesOf(|u|);
    PowersOf256();
    hide ToBe, Pow256;
    assert forall i | 0 <= i < 4 :: Prefixed(u, 4)[i] == ToBe(|u|, 4)[i];
  }

  predicate AllSingleBytes(units: seq<seq<U8>>) {
    forall u | u in units :: |u| == 1
  }

  lemma {:induction false} SamePackaging(units: seq<seq<U8>>)
    requires Encodable(units, 4)
    ensures LengthPrefixed(units, 4) == AnnexB(units) <==> AllSingleBytes(units)
  {
    hide Prefixed, Fits;
    if units != [] {
      assert units[0] in units && forall u | u in units :: u == units[0] || u in units[1..];
      SamePackaging(units[1..]);
      SameFront(units[0], LengthPrefixed(units[1..], 4), AnnexB(units[1..]));
      hide AnnexB, LengthPrefixed;
    }
  }

  /** A prefix is a start code exactly in front of a single byte. */
  lemma SamePrefix(u: seq<U8>)
    requires Fits(u, 4)
    ensures Prefixed(u, 4) == START_CODE + u <==> |u| == 1
  {
    FourBytesOf(|u|);
    PowersOf256();
    hide ToBe, Pow256;
    assert (START_CODE + u)[..4] == START_CODE && Prefixed(u, 4)[..4] == ToBe(|u|, 4);
  }

  lemma SameFront(u: seq<U8>, a: seq<U8>, b: seq<U8>)
    requires Fits(u, 4)
    ensures Prefixed(u, 4) + a == START_CODE + u + b <==> |u| == 1 && a == b
  {
    SamePrefix(u);
    hide Prefixed, Fits;
    var p, c, n := Prefixed(u, 4), START_CODE + u, 4 + |u|;
    assert (p + a)[..n] == p && (c + b)[..n] == c;
    assert (p + a)[n..] == a && (c + b)[n..] == b;
  }

  /** A list of units with valid headers comes out as Annex B exactly when its first length does not look like a
      start code, or every unit is a single byte, so that the prefixes are start codes. */
  lemma ToAnnexBExactly(units: seq<seq<U8>>, codec: VideoCodec)
    requires Encodable(units, 4) && Headed(units, codec)
    ensures Repackaged(LengthPrefixed(units, 4), codec) == AnnexB(units) <==> !Lookalike(units) || AllSingleBytes(units)
  {
    LookalikeStarts(units);
    SamePackaging(units);
    SplitExactly(LengthPrefixed(units, 4), units, 4);
    hide Encodable, Headed, Lookalike, AllSingleBytes, HasStartCode, Split;
    if LengthPrefixed(units, 4) == [] {
      SameLength(units);
    }
  }

  /** The three- or four-byte start code of section B.1 of ITU-T H.264. */
  predicate BeginsWithStartCode(payload: seq<U8>) {
    [0, 0, 1] <= payload || START_CODE <= payload
  }

  /** The payload is this list of units, each with a valid header, behind four-byte lengths. */
  ghost predicate IsListOf(payload: seq<U8>, units: seq<seq<U8>>, codec: VideoCodec) {
    Encodable(units, 4) && Headed(units, codec) && payload == LengthPrefixed(units, 4)
  }

  lemma StartCodeSeen(payload: seq<U8>)
    ensures HasStartCode(payload) <==> BeginsWithStartCode(payload)
  {
    if [0, 0, 1] <= payload {
      assert forall i | 0 <= i < 3 :: payload[i] == payload[..3][i];
    }
    if START_CODE <= payload {
      assert forall i | 0 <= i < 4 :: payload[i] == payload[..4][i];
    }
    if HasStartCode(payload) {
      assert payload[2] == 1 ==> payload[..3] == [0, 0, 1];
      assert payload[2] == 0 ==> payload[..4] == START_CODE;
    }
  }

  /** What becomes of every payload. One that begins with a start code is passed on. Otherwise a length-prefixed list
      with valid headers becomes that list with start codes; what is no such list counts as one unit if it begins with
      a valid header, and is passed on if not. */
  lemma RepackagedExactly(payload: seq<U8>, codec: VideoCodec)
    ensures BeginsWithStartCode(payload) ==> Repackaged(payload, codec) == payload
    ensures forall units | IsListOf(payload, units, codec) && !BeginsWithStartCode(payload) ::
              Repackaged(payload, codec) == AnnexB(units)
    ensures !BeginsWithStartCode(payload) && (forall units :: !IsListOf(payload, units, codec)) ==>
              Repackaged(payload, codec)
              == if payload != [] && ValidHeader(payload[0], codec) then AnnexB([payload]) else payload
  {
    StartCodeSeen(payload);
    hide HasStartCode, BeginsWithStartCode, Encodable, Headed, Split, ValidHeader;
    forall units | IsListOf(payload, units, codec) && !BeginsWithStartCode(payload)
      ensures Repackaged(payload, codec) == AnnexB(units)
    {
      ConvertedExactly(payload, codec, AnnexB(units));
      SameLength(units);
    }
    if Converted(payload, codec).Some? {
      var units := Split(payload, 4).value;
      SplitExactly(payload, units, 4);
      assert IsListOf(payload, units, codec);
    }
    AnnexBOfOne(payload);
  }

  lemma AnnexBOfOne(u: seq<U8>)
    ensures AnnexB([u]) == START_CODE + u
  {
    assert [u][1..] == [];
    assert START_CODE + u + [] == START_CODE + u;
  }

  /** Data that is in Annex B form already stays as it is. */
  lemma AnnexBIsKept(units: seq<seq<U8>>, codec: VideoCodec)
    ensures Repackaged(AnnexB(units), codec) == AnnexB(units)
  {
    hide Converted, ValidHeader, HasStartCode;
    if units != [] {
      StartCodeSeen(AnnexB(units));
      assert AnnexB(units)[..4] == START_CODE;
    }
  }

  /** Repackaging what was repackaged changes nothing. */
  lemma RepackagedTwice(payload: seq<U8>, codec: VideoCodec)
    ensures Repackaged(Repackaged(payload, codec), codec) == Repackaged(payload, codec)
  {
    if payload != [] && !HasStartCode(payload) {
      if Converted(payload, codec).Some? {
        AnnexBIsKept(Split(payload, 4).value, codec);
      } else {
        AnnexBIsKept([payload], codec);
        AnnexBOfOne(payload);
      }
      hide HasStartCode, Split, Headed, ValidHeader, AnnexB;
    }
  }

  // ----- iOS -----

  datatype EncoderError = MalformedAccessUnit

  lemma JoinedTwice(a: seq<U8>, b: seq<U8>, c: seq<U8>)
    ensures a + (b + c) == a + b + c
  {
  }

  lemma {:induction false} AnnexBJoins(a: seq<seq<U8>>, b: seq<seq<U8>>)
    ensures AnnexB(a + b) == AnnexB(a) + AnnexB(b)
  {
    if a == [] {
      assert a + b == b;
    } else {
      AnnexBJoins(a[1..], b);
      assert (a + b)[1..] == a[1..] + b;
      JoinedTwice(START_CODE + a[0], AnnexB(a[1..]), AnnexB(b));
    }
  }

  function Assembled(data: seq<U8>, width: int, sets: seq<seq<U8>>): Result<seq<U8>, EncoderError> {
    if width < 1 || width > 4 then Err(MalformedAccessUnit)
    else
      var units := Split(data, width);
      if units.None? || AnnexB(sets) + AnnexB(units.value) == [] then Err(MalformedAccessUnit)
      else Ok(AnnexB(sets) + AnnexB(units.value))
  }

  /** Success means a list of units, not all absent, behind the parameter sets; failure is everything else. */
  lemma AssembledExactly(data: seq<U8>, width: int, sets: seq<seq<U8>>, annexB: seq<U8>)
    ensures Assembled(data, width, sets) == Ok(annexB) <==>
            1 <= width <= 4 && exists units :: Encodable(units, width) && data == LengthPrefixed(units, width)
                                               && sets + units != [] && annexB == AnnexB(sets + units)
  {
    if 1 <= width <= 4 {
      hide Encodable, LengthPrefixed;
      if Split(data, width).Some? {
        SplitExactly(data, Split(data, width).value, width);
        AnnexBJoins(sets, Split(data, width).value);
      }
      forall units | Encodable(units, width) && data == LengthPrefixed(units, width)
        ensures Split(data, width) == Some(units)
      {
        SplitExactly(data, units, width);
      }
    }
  }

  /** Both phones make the same Annex B of the same access unit; iOS also takes units with headers Android rejects,
      and Android also takes an empty one. */
  lemma PhonesAgree(data: seq<U8>, codec: VideoCodec, annexB: seq<U8>)
    ensures Converted(data, codec) == Some(annexB) && data != [] <==>
            Assembled(data, 4, []) == Ok(annexB) && Headed(Split(data, 4).value, codec)
  {
    hide Headed;
    var units := Split(data, 4);
    if units.Some? {
      SplitReads(data, 4);
      SameLength(units.value);
      assert [] + AnnexB(units.value) == AnnexB(units.value);
      hide Split, Encodable, LengthPrefixed;
    }
  }

  method MakeAnnexB(data: seq<U8>, nalLengthBytes: int, parameterSets: seq<seq<U8>>) returns (r: Result<seq<U8>, EncoderError>)
    ensures r == Assembled(data, nalLengthBytes, parameterSets)
  {
    hide AnnexB;
    if nalLengthBytes < 1 || nalLengthBytes > 4 { return Err(MalformedAccessUnit); }
    var output := [];
    NoAnnexB();
    for i := 0 to |parameterSets|
      invariant output == AnnexB(parameterSets[..i])
    {
      AppendedAnnexB(parameterSets[..i], parameterSets[i]);
      assert parameterSets[..i + 1] == parameterSets[..i] + [parameterSets[i]];
      output := output + START_CODE;
      output := output + parameterSets[i];
    }
    assert parameterSets[..|parameterSets|] == parameterSets;
    r := AppendUnits(data, nalLengthBytes, parameterSets, output);
  }

  lemma NoAnnexB()
    ensures AnnexB([]) == []
  {
  }

  method AppendUnits(data: seq<U8>, width: nat, ghost sets: seq<seq<U8>>, start: seq<U8>) returns (r: Result<seq<U8>, EncoderError>)
    requires 1 <= width <= 4 && start == AnnexB(sets)
    ensures r == Assembled(data, width, sets)
  {
    hide AnnexB, Split, Ahead, FromBe;
    var output, offset := start, 0;
    ghost var units: seq<seq<U8>> := [];
    SplitStarts(data, width);
    while offset < |data|
      invariant offset <= |data| && output == AnnexB(sets) + AnnexB(units)
      invariant Split(data, width) == Ahead(units, Split(data[offset..], width))
    {
      SplitStep(data, units, offset, width);
      if offset + width > |data| { return Err(MalformedAccessUnit); }
      var length := FoldBytes(data[offset..offset + width]);
      offset := offset + width;
      if length == 0 || offset + length > |data| { return Err(MalformedAccessUnit); }
      AppendedAnnexB(units, data[offset..offset + length]);
      output := output + START_CODE;
      output := output + data[offset..offset + length];
      units := units + [data[offset..offset + length]];
      offset := offset + length;
    }
    SplitEnds(data, units, width);
    if |output| == 0 { return Err(MalformedAccessUnit); }
    return Ok(output);
  }

  method FoldBytes(bytes: seq<U8>) returns (length: nat)
    ensures length == FromBe(bytes)
  {
    length := 0;
    for i := 0 to |bytes|
      invariant length == FromBe(bytes[..i])
    {
      assert bytes[..i + 1][..i] == bytes[..i];
      length := length * 256 + bytes[i];
    }
    assert bytes[..|bytes|] == bytes;
  }
}
