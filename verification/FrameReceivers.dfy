/** The two drivers that read packets from a byte stream as it arrives in chunks: the macOS camera extension,
    and the Windows filter, which caps the bytes it keeps. */
module FrameReceivers {

  import opened Wrappers
  import opened Protocol
  import opened Bytes
  import opened FramePackets

  function Concat(chunks: seq<seq<U8>>): seq<U8> {
    if chunks == [] then [] else chunks[0] + Concat(chunks[1..])
  }

  // ----- macOS -----

  /** Feed chunks one by one, parsing after each. */
  function Feed(pending: seq<U8>, chunks: seq<seq<U8>>): (seq<Packet>, seq<U8>)
    decreases |chunks|
  {
    if chunks == [] then ([], pending)
    else
      var (now, rest) := Parse(pending + chunks[0]);
      var (later, last) := Feed(rest, chunks[1..]);
      (now + later, last)
  }

  /** However the stream is cut, the same packets come out and the same bytes are left over. */
  lemma {:induction false} ChunkIndependence(pending: seq<U8>, chunks: seq<seq<U8>>)
    requires Remainder(pending)
    ensures Feed(pending, chunks) == Parse(pending + Concat(chunks))
    decreases |chunks|
  {
    if chunks == [] {
      assert pending + [] == pending;
      RemainderIsFixed(pending);
    } else {
      var all := pending + chunks[0];
      var rest := Parse(all).1;
      ParseRemainder(all);
      ChunkIndependence(rest, chunks[1..]);
      ParseAppend(all, Concat(chunks[1..]));
      assert pending + Concat(chunks) == all + Concat(chunks[1..]);
    }
  }

  class IpcClient {
    var pendingData: seq<U8>
    var delivered: seq<Packet>

    constructor ()
      ensures pendingData == [] && delivered == []
    {
      pendingData, delivered := [], [];
    }

    method ProcessPendingData()
      modifies this
      ensures delivered == old(delivered) + Parse(old(pendingData)).0
      ensures pendingData == Parse(old(pendingData)).1
    {
      assert old(pendingData) == pendingData && old(delivered) + Parse(pendingData).0 == delivered + Parse(pendingData).0;
      while |pendingData| >= HEADER_SIZE
        invariant old(delivered) + Parse(old(pendingData)).0 == delivered + Parse(pendingData).0
        invariant Parse(old(pendingData)).1 == Parse(pendingData).1
        decreases |pendingData|
      {
        var size := Announced(pendingData);
        if size.None? {
          pendingData := pendingData[HEADER_SIZE..];
          continue;
        }
        if |pendingData| < HEADER_SIZE + size.value {
          return;
        }
        var packet := FirstPacket(pendingData);
        ghost var later := Parse(pendingData[HEADER_SIZE + size.value..]).0;
        assert delivered + ([packet] + later) == (delivered + [packet]) + later;
        pendingData := pendingData[HEADER_SIZE + size.value..];
        delivered := delivered + [packet];
      }
    }

    /** The read loop of one connection. */
    method ReadAll(chunks: seq<seq<U8>>)
      requires Remainder(pendingData)
      modifies this
      ensures delivered == old(delivered) + Parse(old(pendingData) + Concat(chunks)).0
      ensures pendingData == Parse(old(pendingData) + Concat(chunks)).1
    {
      hide Parse, Concat, Remainder;
      ChunkIndependence(pendingData, chunks);
      assert old(delivered) + Feed(pendingData, chunks).0 == delivered + Feed(pendingData, chunks).0;
      for i := 0 to |chunks|
        invariant old(delivered) + Feed(old(pendingData), chunks).0 == delivered + Feed(pendingData, chunks[i..]).0
        invariant Feed(old(pendingData), chunks).1 == Feed(pendingData, chunks[i..]).1
      {
        ghost var all := pendingData + chunks[i];
        ghost var later := Feed(Parse(all).1, chunks[i + 1..]).0;
        assert chunks[i..][1..] == chunks[i + 1..];
        assert delivered + (Parse(all).0 + later) == (delivered + Parse(all).0) + later;
        pendingData := pendingData + chunks[i];
        ProcessPendingData();
      }
      assert chunks[|chunks|..] == [];
    }
  }

  /** Frames of the known resolutions survive the whole way: written, cut into chunks, read back. */
  lemma MacRoundTrip(packets: seq<Packet>, chunks: seq<seq<U8>>)
    requires forall p | p in packets :: Sendable(p)
    requires Concat(chunks) == WrittenBytes(packets)
    ensures Feed([], chunks) == (packets, [])
  {
    ChunkIndependence([], chunks);
    assert [] + Concat(chunks) == Concat(chunks);
    WriteThenParse(packets);
  }

  // ----- Windows -----

  const READ_BUFFER_SIZE: nat := 64 * 1024
  const MAX_PENDING_BYTES: nat := HEADER_SIZE + MAXIMUM_NV12_BYTES

  /** One read: too many pending bytes are dropped, all of them, the new ones included. */
  function CappedRead(pending: seq<U8>, data: seq<U8>): (seq<Packet>, seq<U8>) {
    if data == [] then ([], pending)
    else if |pending| + |data| > MAX_PENDING_BYTES then ([], [])
    else Parse(pending + data)
  }

  function CappedFeed(pending: seq<U8>, chunks: seq<seq<U8>>): (seq<Packet>, seq<U8>)
    decreases |chunks|
  {
    if chunks == [] then ([], pending)
    else
      var (now, rest) := CappedRead(pending, chunks[0]);
      var (later, last) := CappedFeed(rest, chunks[1..]);
      (now + later, last)
  }

  lemma RemainderIsShort(bytes: seq<U8>)
    requires Remainder(bytes)
    ensures |bytes| < MAX_PENDING_BYTES
  {
  }

  lemma CappedRemainder(pending: seq<U8>, data: seq<U8>)
    requires Remainder(pending)
    ensures Remainder(CappedRead(pending, data).1)
    ensures |CappedRead(pending, data).1| < MAX_PENDING_BYTES
  {
    ParseRemainder(pending + data);
    RemainderIsShort(CappedRead(pending, data).1);
  }

  /** The sequence number and the latest frame after these packets, in this order. */
  function Published(sequence: U64, latest: Option<Packet>, packets: seq<Packet>): (U64, Option<Packet>) {
    ((sequence + |packets|) % 0x1_0000_0000_0000_0000,
     if packets == [] then latest else Some(packets[|packets| - 1]))
  }

  lemma PublishedNothing(sequence: U64, latest: Option<Packet>)
    ensures Published(sequence, latest, []) == (sequence, latest)
  {
  }

  lemma PublishedStep(sequence: U64, latest: Option<Packet>, packet: Packet, later: seq<Packet>)
    ensures Published(sequence, latest, [packet] + later)
         == Published((sequence + 1) % 0x1_0000_0000_0000_0000, Some(packet), later)
  {
  }

  /** What a reader of the latest frame gets: nothing while the number is 0. */
  function Visible(sequence: U64, latest: Option<Packet>): Option<Packet> {
    if sequence == 0 then None else latest
  }

  /** After any packets since the start, the last of them is visible, unless their number is a multiple of 2^64. */
  lemma LastIsVisible(packets: seq<Packet>)
    ensures var (sequence, latest) := Published(0, None, packets);
            Visible(sequence, latest) ==
            if |packets| % 0x1_0000_0000_0000_0000 == 0 then None else Some(packets[|packets| - 1])
  {
  }

  /** Publishing one list and then another is publishing both. */
  lemma PublishedJoins(sequence: U64, latest: Option<Packet>, now: seq<Packet>, later: seq<Packet>)
    ensures var (sequence', latest') := Published(sequence, latest, now);
            Published(sequence, latest, now + later) == Published(sequence', latest', later)
  {
  }

  class FrameReceiver {
    var pendingBytes: seq<U8>
    var latestFrame: Option<Packet>
    var frameSequence: U64

    constructor ()
      ensures pendingBytes == [] && latestFrame == None && frameSequence == 0
    {
      pendingBytes, latestFrame, frameSequence := [], None, 0;
    }

    method ProcessBytes(data: seq<U8>)
      requires Remainder(pendingBytes)
      modifies this
      ensures Remainder(pendingBytes) && |pendingBytes| < MAX_PENDING_BYTES
      ensures var (packets, rest) := CappedRead(old(pendingBytes), data);
              && pendingBytes == rest
              && (frameSequence, latestFrame) == Published(old(frameSequence), old(latestFrame), packets)
    {
      CappedRemainder(pendingBytes, data);
      if data == [] {
        return;
      }
      pendingBytes := pendingBytes + data;
      if |pendingBytes| > MAX_PENDING_BYTES {
        pendingBytes := [];
        return;
      }
      Drain();
    }

    /** The parse loop of a read. */
    method Drain()
      modifies this
      ensures pendingBytes == Parse(old(pendingBytes)).1
      ensures (frameSequence, latestFrame) == Published(old(frameSequence), old(latestFrame), Parse(old(pendingBytes)).0)
    {
      hide Parse, Published, FirstPacket, FromLe;
      while |pendingBytes| >= HEADER_SIZE
        invariant Parse(old(pendingBytes)).1 == Parse(pendingBytes).1
        invariant Published(old(frameSequence), old(latestFrame), Parse(old(pendingBytes)).0)
               == Published(frameSequence, latestFrame, Parse(pendingBytes).0)
        decreases |pendingBytes|
      {
        var size := CppPayloadSize(HeaderWidth(pendingBytes), HeaderHeight(pendingBytes));
        PayloadSizesAgree(HeaderWidth(pendingBytes), HeaderHeight(pendingBytes));
        ParseTurn(pendingBytes);
        if size.None? {
          pendingBytes := pendingBytes[HEADER_SIZE..];
          continue;
        }
        var packetSize := HEADER_SIZE + size.value;
        if |pendingBytes| < packetSize {
          PublishedNothing(frameSequence, latestFrame);
          return;
        }
        var frame := FirstPacket(pendingBytes);
        PublishedStep(frameSequence, latestFrame, frame, Parse(pendingBytes[packetSize..]).0);
        latestFrame := Some(frame);
        frameSequence := (frameSequence + 1) % 0x1_0000_0000_0000_0000;
        pendingBytes := pendingBytes[packetSize..];
      }
      RemainderIsFixed(pendingBytes);
      PublishedNothing(frameSequence, latestFrame);
    }

    /** The read loop of one connection, whatever the reads bring. */
    method ReadAll(chunks: seq<seq<U8>>)
      requires Remainder(pendingBytes)
      modifies this
      ensures Remainder(pendingBytes) && |pendingBytes| < MAX_PENDING_BYTES
      ensures var (packets, rest) := CappedFeed(old(pendingBytes), chunks);
              && pendingBytes == rest
              && (frameSequence, latestFrame) == Published(old(frameSequence), old(latestFrame), packets)
    {
      hide Remainder, CappedRead, Published;
      RemainderIsShort(pendingBytes);
      for i := 0 to |chunks|
        invariant Remainder(pendingBytes) && |pendingBytes| < MAX_PENDING_BYTES
        invariant CappedFeed(old(pendingBytes), chunks).1 == CappedFeed(pendingBytes, chunks[i..]).1
        invariant Published(old(frameSequence), old(latestFrame), CappedFeed(old(pendingBytes), chunks).0)
               == Published(frameSequence, latestFrame, CappedFeed(pendingBytes, chunks[i..]).0)
      {
        assert chunks[i..][1..] == chunks[i + 1..];
        var (now, rest) := CappedRead(pendingBytes, chunks[i]);
        PublishedJoins(frameSequence, latestFrame, now, CappedFeed(rest, chunks[i + 1..]).0);
        ProcessBytes(chunks[i]);
      }
      assert chunks[|chunks|..] == [];
      PublishedNothing(frameSequence, latestFrame);
    }

    method TryGetLatestFrame() returns (frame: Option<Packet>)
      ensures frame == Visible(frameSequence, latestFrame)
    {
      if frameSequence == 0 {
        return None;
      }
      return latestFrame;
    }
  }

  // ----- When the cap does no harm -----

  /** A read that does not fit loses the packets it completes, and it completes at least one. */
  lemma LosesWhenFull(pending: seq<U8>, data: seq<U8>)
    requires Remainder(pending) && 0 < |data| <= READ_BUFFER_SIZE
    ensures |pending| + |data| > MAX_PENDING_BYTES ==> CappedRead(pending, data).0 == [] && |Parse(pending + data).0| > 0
    ensures |pending| + |data| <= MAX_PENDING_BYTES ==> CappedRead(pending, data) == Parse(pending + data)
  {
    if |pending| + |data| > MAX_PENDING_BYTES {
      SameHeader(pending, data);
      RemainderIsShort(pending);
    }
  }

  /** For the reads the filter makes, at most one buffer at a time, a read is the uncapped one exactly when the
      bytes fit under the cap. */
  lemma CapExactly(pending: seq<U8>, data: seq<U8>)
    requires Remainder(pending) && data != [] && |data| <= READ_BUFFER_SIZE
    ensures CappedRead(pending, data) == Parse(pending + data) <==> |pending| + |data| <= MAX_PENDING_BYTES
  {
    LosesWhenFull(pending, data);
    hide Parse, CappedRead;
  }

  /** Along a run, every read finds room under the cap. */
  predicate AllFit(pending: seq<U8>, chunks: seq<seq<U8>>)
    decreases |chunks|
  {
    chunks != [] ==>
      && |pending| + |chunks[0]| <= MAX_PENDING_BYTES
      && AllFit(Parse(pending + chunks[0]).1, chunks[1..])
  }

  /** The packets of each read, with and without the cap. */
  function CappedReads(pending: seq<U8>, chunks: seq<seq<U8>>): seq<seq<Packet>>
    decreases |chunks|
  {
    if chunks == [] then []
    else
      var (now, rest) := CappedRead(pending, chunks[0]);
      [now] + CappedReads(rest, chunks[1..])
  }

  function UncappedReads(pending: seq<U8>, chunks: seq<seq<U8>>): seq<seq<Packet>>
    decreases |chunks|
  {
    if chunks == [] then []
    else
      var (now, rest) := Parse(pending + chunks[0]);
      [now] + UncappedReads(rest, chunks[1..])
  }

  lemma FirstReads(now: seq<Packet>, now': seq<Packet>, later: seq<seq<Packet>>, later': seq<seq<Packet>>)
    ensures [now] + later == [now'] + later' <==> now == now' && later == later'
  {
    assert ([now] + later)[0] == now && ([now'] + later')[0] == now';
    assert ([now] + later)[1..] == later && ([now'] + later')[1..] == later';
  }

  /** Over a run of reads, the filter delivers read by read what the uncapped parse delivers if and only if every
      read finds room; the first that does not loses the packets it completes, and it completes at least one. Then
      also the whole run is the uncapped one. */
  lemma {:induction false} RunsExactly(pending: seq<U8>, chunks: seq<seq<U8>>)
    requires Remainder(pending)
    requires forall c | c in chunks :: 0 < |c| <= READ_BUFFER_SIZE
    ensures CappedReads(pending, chunks) == UncappedReads(pending, chunks) <==> AllFit(pending, chunks)
    ensures AllFit(pending, chunks) ==> CappedFeed(pending, chunks) == Feed(pending, chunks)
    decreases |chunks|
  {
    if chunks != [] {
      var (now, rest) := Parse(pending + chunks[0]);
      ParseRemainder(pending + chunks[0]);
      LosesWhenFull(pending, chunks[0]);
      RunsExactly(rest, chunks[1..]);
      var (kept, left) := CappedRead(pending, chunks[0]);
      FirstReads(kept, now, CappedReads(left, chunks[1..]), UncappedReads(rest, chunks[1..]));
      hide Parse, CappedRead, Remainder;
    }
  }

  /** Every header the parse accepts announces at most `limit` bytes, also the one it stops at. */
  ghost predicate HeadersWithin(bytes: seq<U8>, limit: nat)
    decreases |bytes|
  {
    if |bytes| < HEADER_SIZE then true
    else if Announced(bytes).None? then HeadersWithin(bytes[HEADER_SIZE..], limit)
    else
      var size := HEADER_SIZE + Announced(bytes).value;
      Announced(bytes).value <= limit && (|bytes| < size || HeadersWithin(bytes[size..], limit))
  }

  lemma {:induction false} HeadersWithinPrefix(a: seq<U8>, b: seq<U8>, limit: nat)
    requires HeadersWithin(a + b, limit)
    ensures HeadersWithin(a, limit)
    ensures |Parse(a).1| < HEADER_SIZE + limit
    decreases |a|
  {
    if |a| >= HEADER_SIZE {
      SameHeader(a, b);
      if Announced(a).None? {
        assert (a + b)[HEADER_SIZE..] == a[HEADER_SIZE..] + b;
        HeadersWithinPrefix(a[HEADER_SIZE..], b, limit);
      } else if |a| >= HEADER_SIZE + Announced(a).value {
        var size := HEADER_SIZE + Announced(a).value;
        assert (a + b)[size..] == a[size..] + b;
        HeadersWithinPrefix(a[size..], b, limit);
      }
    }
  }

  const NV12_BYTES_1440P: nat := 2560 * 1440 * 3 / 2

  /** Reads of at most one buffer and nothing larger than 1440p: the cap never bites. `before` is what has been
      read so far. */
  lemma {:induction false} CapNeverBites(before: seq<U8>, pending: seq<U8>, chunks: seq<seq<U8>>)
    requires pending == Parse(before).1
    requires forall c | c in chunks :: 0 < |c| <= READ_BUFFER_SIZE
    requires HeadersWithin(before + Concat(chunks), NV12_BYTES_1440P)
    ensures CappedFeed(pending, chunks) == Feed(pending, chunks)
    decreases |chunks|
  {
    hide HeadersWithin, Parse;
    if chunks != [] {
      HeadersWithinPrefix(before, Concat(chunks), NV12_BYTES_1440P);
      assert before + Concat(chunks) == (before + chunks[0]) + Concat(chunks[1..]);
      ParseAppend(before, chunks[0]);
      CapNeverBites(before + chunks[0], Parse(pending + chunks[0]).1, chunks[1..]);
    }
  }

  lemma {:induction false} WrittenHeadersWithin(packets: seq<Packet>, limit: nat)
    requires forall p | p in packets :: Sendable(p) && |p.payload| <= limit
    ensures HeadersWithin(WrittenBytes(packets), limit)
  {
    if packets != [] {
      PacketHeader(packets[0], WrittenBytes(packets[1..]));
      WrittenHeadersWithin(packets[1..], limit);
    }
  }

  /** Under the same premises the latest frame and the sequence number are those of the uncapped parse of all the
      bytes, however they were cut. */
  lemma PublishesTheUncappedParse(chunks: seq<seq<U8>>, sequence: U64, latest: Option<Packet>)
    requires forall c | c in chunks :: 0 < |c| <= READ_BUFFER_SIZE
    requires HeadersWithin(Concat(chunks), NV12_BYTES_1440P)
    ensures Published(sequence, latest, CappedFeed([], chunks).0) == Published(sequence, latest, Parse(Concat(chunks)).0)
    ensures CappedFeed([], chunks).1 == Parse(Concat(chunks)).1
  {
    hide Published;
    assert [] + Concat(chunks) == Concat(chunks);
    CapNeverBites([], [], chunks);
    ChunkIndependence([], chunks);
  }

  lemma EmptyIsParsed()
    ensures Parse([]).1 == []
  {
  }

  /** Up to 1440p every frame survives the whole way to the Windows filter too: the last one written is published,
      under a number that counts them all. */
  lemma WindowsRoundTrip(packets: seq<Packet>, chunks: seq<seq<U8>>)
    requires forall p | p in packets :: Sendable(p) && |p.payload| <= NV12_BYTES_1440P
    requires forall c | c in chunks :: 0 < |c| <= READ_BUFFER_SIZE
    requires Concat(chunks) == WrittenBytes(packets)
    ensures CappedFeed([], chunks) == (packets, [])
    ensures packets != [] ==>
              Published(0, None, CappedFeed([], chunks).0)
              == (|packets| % 0x1_0000_0000_0000_0000, Some(packets[|packets| - 1]))
  {
    hide HeadersWithin, Sendable, CappedFeed, Feed, Concat, WrittenBytes;
    WrittenHeadersWithin(packets, NV12_BYTES_1440P);
    assert [] + Concat(chunks) == Concat(chunks);
    EmptyIsParsed();
    CapNeverBites([], [], chunks);
    MacRoundTrip(packets, chunks);
  }

  // ----- When it does -----

  /** `count` full buffers read from the stream, from buffer `from` on. */
  ghost function FullReads(stream: seq<U8>, from: nat, count: nat): seq<seq<U8>>
    requires (from + count) * READ_BUFFER_SIZE <= |stream|
    decreases count
  {
    if count == 0 then []
    else [stream[from * READ_BUFFER_SIZE..(from + 1) * READ_BUFFER_SIZE]] + FullReads(stream, from + 1, count - 1)
  }

  ghost predicate StartsUhdFrame(bytes: seq<U8>) {
    |bytes| >= HEADER_SIZE && HeaderWidth(bytes) == 3840 && HeaderHeight(bytes) == 2160
  }

  /** A read while a 2160p frame is incomplete: keep everything, or overrun the cap and forget everything. */
  lemma UhdRead(pending: seq<U8>, data: seq<U8>)
    requires StartsUhdFrame(pending + data) && data != []
    ensures |pending| + |data| < MAX_PENDING_BYTES ==> CappedRead(pending, data) == ([], pending + data)
    ensures |pending| + |data| > MAX_PENDING_BYTES ==> CappedRead(pending, data) == ([], [])
  {
    hide FromLe;
    assert Announced(pending + data) == Some(MAXIMUM_NV12_BYTES);
  }

  lemma CappedFeedTurn(pending: seq<U8>, data: seq<U8>, later: seq<seq<U8>>)
    requires CappedRead(pending, data).0 == []
    ensures CappedFeed(pending, [data] + later) == CappedFeed(CappedRead(pending, data).1, later)
  {
    assert ([data] + later)[1..] == later;
    var rest := CappedFeed(CappedRead(pending, data).1, later).0;
    assert [] + rest == rest;
  }

  lemma {:induction false} BelowTheCap(stream: seq<U8>, from: nat)
    requires from <= 189 && 190 * READ_BUFFER_SIZE <= |stream| && StartsUhdFrame(stream)
    ensures CappedFeed(stream[..from * READ_BUFFER_SIZE], FullReads(stream, from, 190 - from)) == ([], [])
    decreases 190 - from
  {
    hide CappedRead, CappedFeed;
    var next := (from + 1) * READ_BUFFER_SIZE;
    var pending, data := stream[..from * READ_BUFFER_SIZE], stream[from * READ_BUFFER_SIZE..next];
    var later := FullReads(stream, from + 1, 189 - from);
    assert pending + data == stream[..next] && stream[..next] + stream[next..] == stream;
    assert (pending + data)[0..4] == stream[0..4] && (pending + data)[4..8] == stream[4..8];
    UhdRead(pending, data);
    CappedFeedTurn(pending, data, later);
    if from < 189 {
      BelowTheCap(stream, from + 1);
    } else {
      FeedNothing([]);
    }
  }

  lemma FeedNothing(pending: seq<U8>)
    ensures CappedFeed(pending, []) == ([], pending)
  {
  }

  /** A 2160p stream read in full buffers loses its frame: the 190th read overruns the cap, the receiver
      forgets everything, and the complete frame it held is never delivered. The uncapped parse delivers it. */
  lemma FullReadsLoseUhdFrame(stream: seq<U8>)
    requires 190 * READ_BUFFER_SIZE <= |stream| && StartsUhdFrame(stream)
    ensures CappedFeed([], FullReads(stream, 0, 190)) == ([], [])
    ensures |Parse(stream).0| > 0 && Parse(stream).0[0].width == 3840
  {
    hide FromLe, CappedFeed, FullReads;
    BelowTheCap(stream, 0);
    assert stream[..0] == [];
    UhdDelivered(stream);
    hide Parse, StartsUhdFrame;
  }

  lemma UhdDelivered(stream: seq<U8>)
    requires HEADER_SIZE + MAXIMUM_NV12_BYTES <= |stream| && StartsUhdFrame(stream)
    ensures |Parse(stream).0| > 0 && Parse(stream).0[0].width == 3840
  {
    hide FromLe;
    assert Announced(stream) == Some(MAXIMUM_NV12_BYTES);
  }
}
