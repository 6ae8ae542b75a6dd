/** The packets that carry frames to the native camera drivers: a 16-byte header with width, height and
    timestamp, then the NV12 payload. One writer, and the parse every receiver is measured against. */
module FramePackets {

  import opened Wrappers
  import opened Protocol
  import opened Bytes

  const HEADER_SIZE: nat := 16
  const MAXIMUM_NV12_BYTES: nat := 12_441_600

  datatype Packet = Packet(width: U32, height: U32, timestampNs: U64, payload: seq<U8>)

  const RESOLUTIONS: seq<(nat, nat)> := [(640, 480), (1280, 720), (1920, 1080), (2560, 1440), (3840, 2160)]

  // ----- Payload sizes, as each program computes them -----

  /** The macOS receiver. */
  function SwiftPayloadSize(width: nat, height: nat): Option<nat> {
    if width % 2 != 0 || height % 2 != 0 || (width, height) !in RESOLUTIONS then None
    else
      var luma := width * height;
      var total := luma + luma / 2;
      if total > 0 && total <= MAXIMUM_NV12_BYTES then Some(total) else None
  }

  /** The Windows receiver. */
  function CppPayloadSize(width: nat, height: nat): Option<nat> {
    if (width, height) !in RESOLUTIONS || width % 2 != 0 || height % 2 != 0 then None
    else
      var total := width * height * 3 / 2;
      if total == 0 || total > MAXIMUM_NV12_BYTES then None else Some(total)
  }

  datatype WriteError = EmptyDimensions | OddDimensions | PayloadSizeMismatch | NotConnected | PipeFailed

  /** The desktop writer. */
  function ExpectedPayload(width: nat, height: nat): Result<nat, WriteError> {
    if width == 0 || height == 0 then Err(EmptyDimensions)
    else if width % 2 != 0 || height % 2 != 0 then Err(OddDimensions)
    else
      var pixels := width * height;
      Ok(pixels + pixels / 2)
  }

  /** For even sizes `w*h + w*h/2` and `w*h*3/2` are the same number. */
  lemma HalfAgain(width: nat, height: nat)
    requires width % 2 == 0
    ensures width * height + width * height / 2 == width * height * 3 / 2
  {
    var half := width / 2 * height;
    assert width * height == 2 * half by {
      assert width == 2 * (width / 2);
      assert 2 * (width / 2) * height == 2 * (width / 2 * height);
    }
  }

  /** All three programs agree: both receivers accept exactly the five resolutions, at the writer's size. */
  lemma PayloadSizesAgree(width: nat, height: nat)
    ensures SwiftPayloadSize(width, height) == CppPayloadSize(width, height)
    ensures SwiftPayloadSize(width, height).Some? <==> (width, height) in RESOLUTIONS
    ensures (width, height) in RESOLUTIONS ==>
              ExpectedPayload(width, height) == Ok(SwiftPayloadSize(width, height).value)
  {
  }

  // ----- Parsing -----

  function HeaderWidth(bytes: seq<U8>): nat
    requires |bytes| >= HEADER_SIZE
  {
    FromLe(bytes[0..4])
  }

  function HeaderHeight(bytes: seq<U8>): nat
    requires |bytes| >= HEADER_SIZE
  {
    FromLe(bytes[4..8])
  }

  function HeaderTimestamp(bytes: seq<U8>): nat
    requires |bytes| >= HEADER_SIZE
  {
    FromLe(bytes[8..16])
  }

  /** The payload size a header announces, if it is a legal header. */
  function Announced(bytes: seq<U8>): Option<nat>
    requires |bytes| >= HEADER_SIZE
  {
    SwiftPayloadSize(HeaderWidth(bytes), HeaderHeight(bytes))
  }

  function FirstPacket(bytes: seq<U8>): Packet
    requires |bytes| >= HEADER_SIZE && Announced(bytes).Some?
    requires |bytes| >= HEADER_SIZE + Announced(bytes).value
  {
    FromLeBound(bytes[0..4]);
    FromLeBound(bytes[4..8]);
    FromLeBound(bytes[8..16]);
    PowersOf256();
    Packet(HeaderWidth(bytes), HeaderHeight(bytes), HeaderTimestamp(bytes),
           bytes[HEADER_SIZE..HEADER_SIZE + Announced(bytes).value])
  }

  /** The packets of a byte string and what is left: an incomplete header or an incomplete packet. A header
      that is not legal is skipped as a whole. */
  function Parse(bytes: seq<U8>): (seq<Packet>, seq<U8>)
    decreases |bytes|
  {
    if |bytes| < HEADER_SIZE then ([], bytes)
    else if Announced(bytes).None? then Parse(bytes[HEADER_SIZE..])
    else
      var size := HEADER_SIZE + Announced(bytes).value;
      if |bytes| < size then ([], bytes)
      else
        var (packets, rest) := Parse(bytes[size..]);
        ([FirstPacket(bytes)] + packets, rest)
  }

  /** One turn of any parse loop. */
  lemma ParseTurn(bytes: seq<U8>)
    requires |bytes| >= HEADER_SIZE
    ensures Announced(bytes).None? ==> Parse(bytes) == Parse(bytes[HEADER_SIZE..])
    ensures Announced(bytes).Some? ==>
              var size := HEADER_SIZE + Announced(bytes).value;
              if |bytes| < size then Parse(bytes) == ([], bytes)
              else Parse(bytes) == ([FirstPacket(bytes)] + Parse(bytes[size..]).0, Parse(bytes[size..]).1)
  {
  }

  /** What an incremental parser may be left with. */
  ghost predicate Remainder(bytes: seq<U8>) {
    |bytes| >= HEADER_SIZE ==> Announced(bytes).Some? && |bytes| < HEADER_SIZE + Announced(bytes).value
  }

  lemma {:induction false} ParseRemainder(bytes: seq<U8>)
    ensures Remainder(Parse(bytes).1)
    decreases |bytes|
  {
    if |bytes| < HEADER_SIZE {
    } else if Announced(bytes).None? {
      ParseRemainder(bytes[HEADER_SIZE..]);
    } else if |bytes| >= HEADER_SIZE + Announced(bytes).value {
      ParseRemainder(bytes[HEADER_SIZE + Announced(bytes).value..]);
    }
  }

  lemma SameHeader(a: seq<U8>, b: seq<U8>)
    requires |a| >= HEADER_SIZE
    ensures Announced(a + b) == Announced(a)
    ensures Announced(a).Some? && |a| >= HEADER_SIZE + Announced(a).value ==> FirstPacket(a + b) == FirstPacket(a)
  {
    assert (a + b)[0..4] == a[0..4] && (a + b)[4..8] == a[4..8] && (a + b)[8..16] == a[8..16];
    if Announced(a).Some? && |a| >= HEADER_SIZE + Announced(a).value {
      var size := HEADER_SIZE + Announced(a).value;
      assert (a + b)[HEADER_SIZE..size] == a[HEADER_SIZE..size];
    }
  }

  lemma Regrouped(p: Packet, first: seq<Packet>, second: seq<Packet>)
    ensures [p] + (first + second) == [p] + first + second && [] + second == second
  {
  }

  lemma FrontCut(a: seq<U8>, b: seq<U8>, n: nat)
    requires n <= |a|
    ensures (a + b)[n..] == a[n..] + b
  {
  }

  /** Parsing in two goes, carrying the remainder over, is parsing at once. */
  lemma {:induction false} ParseAppend(a: seq<U8>, b: seq<U8>)
    ensures var (first, rest) := Parse(a);
            var (second, last) := Parse(rest + b);
            Parse(a + b) == (first + second, last)
    decreases |a|
  {
    hide FirstPacket, FromLe, SwiftPayloadSize;
    if |a| < HEADER_SIZE {
      assert [] + Parse(a + b).0 == Parse(a + b).0;
    } else {
      SameHeader(a, b);
      var size := HEADER_SIZE + if Announced(a).None? then 0 else Announced(a).value;
      if |a| < size {
        assert [] + Parse(a + b).0 == Parse(a + b).0;
      } else {
        FrontCut(a, b, size);
        ParseAppend(a[size..], b);
        var (first, rest) := Parse(a[size..]);
        if Announced(a).Some? {
          Regrouped(FirstPacket(a), first, Parse(rest + b).0);
        }
      }
    }
  }

  /** A remainder is already parsed as far as it goes. */
  lemma RemainderIsFixed(bytes: seq<U8>)
    requires Remainder(bytes)
    ensures Parse(bytes) == ([], bytes)
  {
  }

  // ----- Writing -----

  function HeaderBytes(width: U32, height: U32, timestampNs: U64): (header: seq<U8>)
    ensures |header| == HEADER_SIZE
  {
    ToLe(width, 4) + ToLe(height, 4) + ToLe(timestampNs, 8)
  }

  function PacketBytes(p: Packet): seq<U8> {
    HeaderBytes(p.width, p.height, p.timestampNs) + p.payload
  }

  function WrittenBytes(packets: seq<Packet>): seq<U8> {
    if packets == [] then [] else PacketBytes(packets[0]) + WrittenBytes(packets[1..])
  }

  /** A packet the writer accepts and the receivers know the dimensions of. */
  ghost predicate Sendable(p: Packet) {
    (p.width, p.height) in RESOLUTIONS && ExpectedPayload(p.width, p.height) == Ok(|p.payload|)
  }

  lemma PacketHeader(p: Packet, after: seq<U8>)
    requires Sendable(p)
    ensures var bytes := PacketBytes(p) + after;
            && |bytes| >= HEADER_SIZE + |p.payload|
            && Announced(bytes) == Some(|p.payload|)
            && FirstPacket(bytes) == p
            && bytes[HEADER_SIZE + |p.payload|..] == after
  {
    var bytes := PacketBytes(p) + after;
    PowersOf256();
    assert bytes[0..4] == ToLe(p.width, 4) && bytes[4..8] == ToLe(p.height, 4) && bytes[8..16] == ToLe(p.timestampNs, 8);
    LeRoundTrip(p.width, 4);
    LeRoundTrip(p.height, 4);
    LeRoundTrip(p.timestampNs, 8);
    PayloadSizesAgree(p.width, p.height);
    assert bytes[HEADER_SIZE..HEADER_SIZE + |p.payload|] == p.payload;
  }

  /** What is written is what is read, and nothing is left over. */
  lemma {:induction false} WriteThenParse(packets: seq<Packet>)
    requires forall p | p in packets :: Sendable(p)
    ensures Parse(WrittenBytes(packets)) == (packets, [])
  {
    if packets != [] {
      WriteThenParse(packets[1..]);
      PacketHeader(packets[0], WrittenBytes(packets[1..]));
      assert [packets[0]] + packets[1..] == packets;
    }
  }

  /** What a stream may hold: whole packets, and headers of a size no receiver knows. */
  datatype Item = Whole(packet: Packet) | Junk(header: seq<U8>)

  ghost predicate Proper(i: Item) {
    match i
    case Whole(p) => Sendable(p)
    case Junk(h) => |h| == HEADER_SIZE && (FromLe(h[0..4]), FromLe(h[4..8])) !in RESOLUTIONS
  }

  function StreamOf(items: seq<Item>): seq<U8> {
    if items == [] then []
    else (if items[0].Whole? then PacketBytes(items[0].packet) else items[0].header) + StreamOf(items[1..])
  }

  function PacketsOf(items: seq<Item>): seq<Packet> {
    if items == [] then []
    else (if items[0].Whole? then [items[0].packet] else []) + PacketsOf(items[1..])
  }

  lemma JunkHeader(h: seq<U8>, after: seq<U8>)
    requires Proper(Junk(h))
    ensures Parse(h + after) == Parse(after)
  {
    var bytes := h + after;
    assert bytes[0..4] == h[0..4] && bytes[4..8] == h[4..8];
    PayloadSizesAgree(HeaderWidth(bytes), HeaderHeight(bytes));
    ParseTurn(bytes);
    hide SwiftPayloadSize, FromLe;
    assert bytes[HEADER_SIZE..] == after;
  }

  /** Unknown headers are skipped as a whole, and every packet around them is read. */
  lemma {:induction false} ParsesAroundJunk(items: seq<Item>)
    requires forall i | i in items :: Proper(i)
    ensures Parse(StreamOf(items)) == (PacketsOf(items), [])
  {
    if items != [] {
      ParsesAroundJunk(items[1..]);
      var after := StreamOf(items[1..]);
      assert Proper(items[0]) by { assert items[0] in items; }
      if items[0].Whole? {
        PacketHeader(items[0].packet, after);
        hide FirstPacket, Announced, PacketBytes;
      } else {
        JunkHeader(items[0].header, after);
        hide Parse;
        assert [] + PacketsOf(items[1..]) == PacketsOf(items[1..]);
      }
    }
  }

  // ----- The pipe writer in the form the source gives it -----

  /** Calls into the system, each of which fails or takes so many bytes, take `n` bytes before one fails or takes none.
      No call is offered more than 2^32 - 1 bytes. */
  predicate Taken(n: nat, accepts: seq<Option<nat>>)
    decreases |accepts|
  {
    || n == 0
    || (&& accepts != [] && accepts[0].Some? && accepts[0].value > 0
        && var offered := if n < 0xFFFF_FFFF then n else 0xFFFF_FFFF;
           Taken(if accepts[0].value < offered then n - accepts[0].value else n - offered, accepts[1..]))
  }

  /** The driver connection; `written` is what the other end can read. */
  class PipeWriter {
    var connected: bool
    var written: seq<U8>

    /** `accepts` says how each call into the system goes: it fails, or it takes that many bytes. */
    method WriteAll(bytes: seq<U8>, accepts: seq<Option<nat>>) returns (ok: bool, ghost taken: nat)
      modifies this`written
      ensures taken <= |bytes| && written == old(written) + bytes[..taken]
      ensures (ok <==> Taken(|bytes|, accepts)) && (ok <==> taken == |bytes|)
    {
      var rest, call := bytes, 0;
      assert accepts[0..] == accepts;
      taken := 0;
      while rest != []
        invariant taken <= |bytes| && rest == bytes[taken..] && written == old(written) + bytes[..taken]
        invariant call <= |accepts| && (Taken(|bytes|, accepts) <==> Taken(|rest|, accepts[call..]))
        decreases |rest|
      {
        if call >= |accepts| || accepts[call].None? {
          return false, taken;
        }
        assert accepts[call..][1..] == accepts[call + 1..];
        var chunk := if |rest| < 0xFFFF_FFFF then |rest| else 0xFFFF_FFFF;
        var count := if accepts[call].value < chunk then accepts[call].value else chunk;
        if count == 0 {
          return false, taken;
        }
        written := written + rest[..count];
        assert bytes[..taken] + rest[..count] == bytes[..taken + count];
        rest := rest[count..];
        taken := taken + count;
        call := call + 1;
      }
      ok := true;
    }

    /** A frame is written as its packet; an error leaves a part of the packet, at worst. */
    method WriteFrame(width: U32, height: U32, timestampNs: U64, data: seq<U8>,
                      header: seq<Option<nat>>, body: seq<Option<nat>>)
      returns (r: Result<(), WriteError>)
      modifies this`written
      ensures r.Ok? <==> connected && ExpectedPayload(width, height) == Ok(|data|)
                         && Taken(HEADER_SIZE, header) && Taken(|data|, body)
      ensures r.Ok? ==> written == old(written) + PacketBytes(Packet(width, height, timestampNs, data))
      ensures r.Err? ==> old(written) <= written <= old(written) + PacketBytes(Packet(width, height, timestampNs, data))
                         && written != old(written) + PacketBytes(Packet(width, height, timestampNs, data))
      ensures r.Err? && r.error != PipeFailed ==> written == old(written)
      ensures var expected := ExpectedPayload(width, height);
              && (expected.Err? ==> r == Err(expected.error))
              && (expected.Ok? && |data| != expected.value ==> r == Err(PayloadSizeMismatch))
              && (expected == Ok(|data|) && !connected ==> r == Err(NotConnected))
    {
      var expected := ExpectedPayload(width, height);
      if expected.Err? {
        return Err(expected.error);
      }
      if |data| != expected.value {
        return Err(PayloadSizeMismatch);
      }
      if !connected {
        return Err(NotConnected);
      }
      var bytes := ToLe(width, 4) + ToLe(height, 4) + ToLe(timestampNs, 8);
      var ok, taken := WriteAll(bytes, header);
      if !ok {
        assert written == (old(written) + PacketBytes(Packet(width, height, timestampNs, data)))[..|written|];
        return Err(PipeFailed);
      }
      assert bytes[..|bytes|] == bytes;
      ok, taken := WriteAll(data, body);
      if !ok {
        assert written == (old(written) + PacketBytes(Packet(width, height, timestampNs, data)))[..|written|];
        return Err(PipeFailed);
      }
      assert data[..|data|] == data;
      return Ok(());
    }
  }
}
