/** The byte stream between the peers: framed messages, keepalive pings among them, and the loops at both ends.
    The payload codec is a parameter. */
module Transport {

  import opened Wrappers
  import opened Bytes
  import Protocol

  type U8 = Protocol.U8

  const MAX_FRAME_BYTES: nat := 32 * 1024 * 1024
  const KEEPALIVE_PING := "__phonecam_ping__"

  /** Bodies that neither loop looks into stay as they are. */
  datatype Message =
    | Handshake(handshake: Protocol.Handshake)
    | VideoFrame(frame: Protocol.VideoFrame)
    | AudioFrame(audio: seq<U8>)
    | CameraControl(control: seq<U8>)
    | StatusUpdate(status: string)
    | Disconnect(reason: Option<string>)
    | StreamConfigurationResult(result: seq<U8>)
    | VideoCapabilitiesUpdate(supported: seq<Protocol.StreamProfile>)

  const PING: Message := StatusUpdate(KEEPALIVE_PING)

  function TypeByte(m: Message): U8 {
    match m
    case Handshake(_) => 1
    case VideoFrame(_) => 2
    case AudioFrame(_) => 3
    case CameraControl(_) => 4
    case StatusUpdate(_) => 5
    case Disconnect(_) => 6
    case StreamConfigurationResult(_) => 7
    case VideoCapabilitiesUpdate(_) => 8
  }

  /** `decode` also says how many bytes of the payload it used. */
  datatype PayloadCodec = PayloadCodec(
    encode: Message -> Option<seq<U8>>,
    decode: (U8, seq<U8>) -> Option<(Message, nat)>)

  ghost predicate RoundTrips(codec: PayloadCodec) {
    forall m: Message | codec.encode(m).Some? ::
      codec.decode(TypeByte(m), codec.encode(m).value) == Some((m, |codec.encode(m).value|))
  }

  // ----- Frames -----

  datatype FrameError =
    | FrameTooShort
    | LengthMismatch(declared: nat, actual: nat)
    | FrameTooLarge(bytes: nat)
    | Unencodable
    | UnknownMessageType(value: U8)
    | Undecodable
    | TrailingBytes(decoded: nat, payload: nat)

  function EncodeFrame(codec: PayloadCodec, m: Message): Result<seq<U8>, FrameError> {
    if m.VideoFrame? && |m.frame.data| >= MAX_FRAME_BYTES then Err(FrameTooLarge(|m.frame.data|))
    else
      var payload := codec.encode(m);
      if payload.None? then Err(Unencodable)
      else if 1 + |payload.value| > MAX_FRAME_BYTES then Err(FrameTooLarge(1 + |payload.value|))
      else Ok(ToBe(1 + |payload.value|, 4) + [TypeByte(m)] + payload.value)
  }

  function DecodePayload(codec: PayloadCodec, kind: U8, payload: seq<U8>): Result<Message, FrameError> {
    if kind < 1 || kind > 8 then Err(UnknownMessageType(kind))
    else
      var decoded := codec.decode(kind, payload);
      if decoded.None? then Err(Undecodable)
      else if decoded.value.1 != |payload| then Err(TrailingBytes(decoded.value.1, |payload|))
      else Ok(decoded.value.0)
  }

  function DecodeFrame(codec: PayloadCodec, frame: seq<U8>): Result<Message, FrameError> {
    if |frame| < 5 then Err(FrameTooShort)
    else
      var declared := FromBe(frame[..4]);
      if declared > MAX_FRAME_BYTES then Err(FrameTooLarge(declared))
      else if declared != |frame| - 4 then Err(LengthMismatch(declared, |frame| - 4))
      else DecodePayload(codec, frame[4], frame[5..])
  }

  /** A frame decodes to its message, and declares from one byte to 32 MiB. */
  lemma FrameRoundTrip(codec: PayloadCodec, m: Message)
    requires RoundTrips(codec) && EncodeFrame(codec, m).Ok?
    ensures var frame := EncodeFrame(codec, m).value;
            && |frame| >= 5
            && 1 <= FromBe(frame[..4]) == |frame| - 4 <= MAX_FRAME_BYTES
            && DecodeFrame(codec, frame) == Ok(m)
  {
    var frame, payload := EncodeFrame(codec, m).value, codec.encode(m).value;
    PowersOf256();
    BeRoundTrip(1 + |payload|, 4);
    hide ToBe, FromBe, Pow256;
    assert frame[..4] == ToBe(1 + |payload|, 4) && frame[5..] == payload && frame[4] == TypeByte(m);
  }

  /** A message is framed exactly if its body can be encoded and stays within the limit; the frame is its length, its
      type and its body. */
  lemma EncodesExactly(codec: PayloadCodec, m: Message)
    ensures var body := codec.encode(m);
            EncodeFrame(codec, m).Ok? <==>
              body.Some? && |body.value| < MAX_FRAME_BYTES && (m.VideoFrame? ==> |m.frame.data| < MAX_FRAME_BYTES)
    ensures EncodeFrame(codec, m).Ok? ==>
              var frame := EncodeFrame(codec, m).value;
              && |frame| >= 5 && FromBe(frame[..4]) == |frame| - 4
              && frame[4] == TypeByte(m) && Some(frame[5..]) == codec.encode(m)
  {
    if EncodeFrame(codec, m).Ok? {
      var frame, body := EncodeFrame(codec, m).value, codec.encode(m).value;
      PowersOf256();
      BeRoundTrip(1 + |body|, 4);
      hide ToBe, FromBe, Pow256;
      assert frame[..4] == ToBe(1 + |body|, 4) && frame[5..] == body && frame[4] == TypeByte(m);
    }
  }

  /** A frame decodes to a message exactly if it declares its own length, within the limit, has a known type, and its
      body is one encoding of the message with nothing after it. Otherwise the first thing wrong is named. */
  lemma DecodesExactly(codec: PayloadCodec, frame: seq<U8>)
    ensures forall m :: DecodeFrame(codec, frame) == Ok(m) <==>
              && |frame| >= 5 && FromBe(frame[..4]) == |frame| - 4 <= MAX_FRAME_BYTES && 1 <= frame[4] <= 8
              && codec.decode(frame[4], frame[5..]) == Some((m, |frame| - 5))
    ensures DecodeFrame(codec, frame) == Err(FrameTooShort) <==> |frame| < 5
    ensures |frame| >= 5 ==>
              var declared, actual := FromBe(frame[..4]), |frame| - 4;
              && (declared > MAX_FRAME_BYTES ==> DecodeFrame(codec, frame) == Err(FrameTooLarge(declared)))
              && (actual != declared <= MAX_FRAME_BYTES ==> DecodeFrame(codec, frame) == Err(LengthMismatch(declared, actual)))
  {
    hide FromBe;
  }

  // ----- Reading one message -----

  datatype Reading =
    | Got(message: Message, rest: seq<U8>)
    | EndOfStream
    | Refused(error: FrameError)

  function ReadMessage(codec: PayloadCodec, stream: seq<U8>): (r: Reading)
    ensures r.Got? ==> |r.rest| < |stream|
  {
    if |stream| < 4 then EndOfStream
    else
      var length := FromBe(stream[..4]);
      if length > MAX_FRAME_BYTES then Refused(FrameTooLarge(length))
      else if |stream| - 4 < length then EndOfStream
      else
        var decoded := DecodeFrame(codec, stream[..4 + length]);
        if decoded.Err? then Refused(decoded.error) else Got(decoded.value, stream[4 + length..])
  }

  /** Whoever wrote it: a message that is read took a declared length of one byte to 32 MiB and a known type. */
  lemma ReadsWithinBounds(codec: PayloadCodec, stream: seq<U8>)
    requires ReadMessage(codec, stream).Got?
    ensures var length := |stream| - 4 - |ReadMessage(codec, stream).rest|;
            1 <= length <= MAX_FRAME_BYTES && FromBe(stream[..4]) == length && 1 <= stream[4] <= 8
  {
    hide FromBe;
    var length := FromBe(stream[..4]);
    assert stream[..4 + length][..4] == stream[..4];
    assert length >= 1 && stream[..4 + length][4] == stream[4];
  }

  /** A message is read exactly if the stream begins with a frame of it; what follows that frame is left. Nothing is read
      while the length or a part of the declared bytes is still to come. */
  lemma ReadsExactly(codec: PayloadCodec, stream: seq<U8>, m: Message, rest: seq<U8>)
    ensures ReadMessage(codec, stream) == Got(m, rest) <==>
            && |rest| <= |stream| && stream[|stream| - |rest|..] == rest
            && DecodeFrame(codec, stream[..|stream| - |rest|]) == Ok(m)
    ensures ReadMessage(codec, stream) == EndOfStream <==>
            |stream| < 4 || |stream| - 4 < FromBe(stream[..4]) <= MAX_FRAME_BYTES
  {
    if |rest| <= |stream| {
      var frame := stream[..|stream| - |rest|];
      DecodesExactly(codec, frame);
      if |frame| >= 4 && |stream| >= 4 {
        assert frame[..4] == stream[..4];
      }
    }
    hide FromBe, DecodeFrame;
  }

  /** A written message is read back, and nothing of what follows it is consumed. */
  lemma ReadsWritten(codec: PayloadCodec, m: Message, rest: seq<U8>)
    requires RoundTrips(codec) && EncodeFrame(codec, m).Ok?
    ensures ReadMessage(codec, EncodeFrame(codec, m).value + rest) == Got(m, rest)
  {
    FrameRoundTrip(codec, m);
    hide EncodeFrame, DecodeFrame, FromBe;
    var frame := EncodeFrame(codec, m).value;
    var stream := frame + rest;
    assert stream[..4] == frame[..4] && stream[..|frame|] == frame && stream[|frame|..] == rest;
  }

  /** No part of a message is delivered before all of it has come. */
  lemma ReadsNothingEarly(codec: PayloadCodec, m: Message, n: nat)
    requires RoundTrips(codec) && EncodeFrame(codec, m).Ok? && n < |EncodeFrame(codec, m).value|
    ensures ReadMessage(codec, EncodeFrame(codec, m).value[..n]) == EndOfStream
  {
    FrameRoundTrip(codec, m);
    hide EncodeFrame, DecodeFrame, FromBe;
    var frame := EncodeFrame(codec, m).value;
    if n >= 4 {
      assert frame[..n][..4] == frame[..4];
    }
  }

  // ----- The reader's loop -----

  datatype ReaderEnd = StreamEnded | BadFrame(error: FrameError) | UnexpectedHandshake

  /** `left` is what the last attempt at a message found. */
  datatype Reception = Reception(messages: seq<Message>, end: ReaderEnd, left: seq<U8>)

  function Receive(codec: PayloadCodec, stream: seq<U8>): Reception
    decreases |stream|
  {
    match ReadMessage(codec, stream)
    case EndOfStream => Reception([], StreamEnded, stream)
    case Refused(error) => Reception([], BadFrame(error), stream)
    case Got(m, rest) =>
      if m.Handshake? then Reception([], UnexpectedHandshake, stream)
      else
        var later := Receive(codec, rest);
        if m == PING then later else Before([m], later)
  }

  /** Whatever the bytes are, those that come first already decide what is delivered first. */
  lemma {:induction false} DeliversInOrder(codec: PayloadCodec, stream: seq<U8>, n: nat)
    requires n <= |stream|
    ensures Receive(codec, stream[..n]).messages <= Receive(codec, stream).messages
    decreases |stream|
  {
    var m := PrefixReading(codec, stream, n);
    var part, all := ReadMessage(codec, stream[..n]), ReadMessage(codec, stream);
    if part.Got? {
      DeliversInOrder(codec, all.rest, m);
      var less, more := Receive(codec, part.rest), Receive(codec, all.rest);
      BeforeKeepsOrder(part.message, less, more);
      AfterGot(codec, stream[..n]);
      AfterGot(codec, stream);
      hide Receive, ReadMessage, Before;
    } else {
      hide ReadMessage, Before;
    }
  }

  lemma AfterGot(codec: PayloadCodec, stream: seq<U8>)
    requires ReadMessage(codec, stream).Got?
    ensures var r := ReadMessage(codec, stream);
            Receive(codec, stream).messages ==
              if r.message.Handshake? then []
              else if r.message == PING then Receive(codec, r.rest).messages
              else Before([r.message], Receive(codec, r.rest)).messages
  {
    hide ReadMessage, Before;
  }

  lemma BeforeKeepsOrder(m: Message, a: Reception, b: Reception)
    requires a.messages <= b.messages
    ensures Before([m], a).messages <= Before([m], b).messages
  {
  }

  /** What a prefix reads, the whole reads; `m` is how much of the rest the prefix has. */
  lemma PrefixReading(codec: PayloadCodec, stream: seq<U8>, n: nat) returns (m: nat)
    requires n <= |stream|
    ensures var part, all := ReadMessage(codec, stream[..n]), ReadMessage(codec, stream);
            && (part.Got? ==> all.Got? && all.message == part.message && m <= |all.rest| && part.rest == all.rest[..m])
            && (part.Refused? ==> all == part)
  {
    hide DecodeFrame, FromBe;
    m := 0;
    if n >= 4 {
      assert stream[..n][..4] == stream[..4];
      var length := FromBe(stream[..4]);
      if length <= n - 4 {
        m := n - 4 - length;
        assert stream[..n][..4 + length] == stream[..4 + length];
        assert stream[..n][4 + length..] == stream[4 + length..][..m];
      }
    }
  }

  function Before(messages: seq<Message>, later: Reception): Reception {
    later.(messages := messages + later.messages)
  }

  lemma OneMoreBefore(messages: seq<Message>, m: Message, later: Reception)
    ensures Before(messages, Before([m], later)) == Before(messages + [m], later)
  {
    assert messages + ([m] + later.messages) == messages + [m] + later.messages;
  }

  // ----- The writer's loop -----

  /** What the writer wakes up for. */
  datatype Wake = Outbound(message: Message) | Tick

  function Queued(w: Wake): Message {
    if w.Tick? then PING else w.message
  }

  /** The bytes on the wire. A message that cannot be framed ends the writer. */
  function Written(codec: PayloadCodec, wakes: seq<Wake>): seq<U8> {
    if wakes == [] || EncodeFrame(codec, Queued(wakes[0])).Err? then []
    else EncodeFrame(codec, Queued(wakes[0])).value + Written(codec, wakes[1..])
  }

  function Sent(wakes: seq<Wake>): seq<Message> {
    if wakes == [] then [] else (if wakes[0].Tick? then [] else [wakes[0].message]) + Sent(wakes[1..])
  }

  /** The messages that lie wholly in the first `n` bytes, up to a handshake, without pings. */
  function Contained(codec: PayloadCodec, wakes: seq<Wake>, n: int): seq<Message> {
    if wakes == [] || EncodeFrame(codec, Queued(wakes[0])).Err? then []
    else
      var m, size := Queued(wakes[0]), |EncodeFrame(codec, Queued(wakes[0])).value|;
      if size > n || m.Handshake? then []
      else (if m == PING then [] else [m]) + Contained(codec, wakes[1..], n - size)
  }

  /** At any moment the reader has delivered exactly the messages that have come in full. */
  lemma {:induction false} DeliversContained(codec: PayloadCodec, wakes: seq<Wake>, n: nat)
    requires RoundTrips(codec) && n <= |Written(codec, wakes)|
    ensures Receive(codec, Written(codec, wakes)[..n]).messages == Contained(codec, wakes, n)
  {
    hide EncodeFrame, ReadMessage, RoundTrips, FromBe;
    var stream := Written(codec, wakes);
    if wakes == [] || EncodeFrame(codec, Queued(wakes[0])).Err? {
      NothingRead(codec);
      assert stream[..n] == [];
    } else {
      var m, frame := Queued(wakes[0]), EncodeFrame(codec, Queued(wakes[0])).value;
      if |frame| > n {
        ReadsNothingEarly(codec, m, n);
        assert stream[..n] == frame[..n];
      } else {
        var later := Written(codec, wakes[1..])[..n - |frame|];
        ReadsWritten(codec, m, later);
        assert stream[..n] == frame + later;
        DeliversContained(codec, wakes[1..], n - |frame|);
      }
    }
  }

  lemma NothingRead(codec: PayloadCodec)
    ensures ReadMessage(codec, []) == EndOfStream
  {
  }

  /** A message the transport carries: it can be framed, and is neither a handshake nor the ping. */
  ghost predicate Carried(codec: PayloadCodec, m: Message) {
    EncodeFrame(codec, m).Ok? && !m.Handshake? && m != PING
  }

  ghost predicate AllCarried(codec: PayloadCodec, wakes: seq<Wake>) {
    forall w | w in wakes && w.Outbound? :: Carried(codec, w.message)
  }

  /** However pings fall between the messages, exactly the messages sent arrive, in order, with no byte left
      over, if and only if the transport carries each of them. */
  lemma {:induction false} DeliversExactly(codec: PayloadCodec, wakes: seq<Wake>)
    requires RoundTrips(codec) && EncodeFrame(codec, PING).Ok?
    ensures Receive(codec, Written(codec, wakes)) == Reception(Sent(wakes), StreamEnded, []) <==> AllCarried(codec, wakes)
    ensures |Receive(codec, Written(codec, wakes)).messages| <= |Sent(wakes)|
  {
    hide EncodeFrame, ReadMessage, RoundTrips, FromBe;
    NothingRead(codec);
    if wakes != [] {
      var m, rest := Queued(wakes[0]), Written(codec, wakes[1..]);
      DeliversExactly(codec, wakes[1..]);
      assert AllCarried(codec, wakes) <==> (wakes[0].Outbound? ==> Carried(codec, m)) && AllCarried(codec, wakes[1..]) by {
        assert forall w | w in wakes :: w == wakes[0] || w in wakes[1..];
      }
      if EncodeFrame(codec, m).Ok? {
        ReadsWritten(codec, m, rest);
        assert Written(codec, wakes) == EncodeFrame(codec, m).value + rest;
        SameAfter(m, Receive(codec, rest).messages, Sent(wakes[1..]));
        assert [] + Sent(wakes[1..]) == Sent(wakes[1..]);
      }
    }
  }

  lemma SameAfter(m: Message, a: seq<Message>, b: seq<Message>)
    ensures [m] + a == [m] + b <==> a == b
  {
    assert ([m] + a)[1..] == a && ([m] + b)[1..] == b;
  }

  // ----- The loops over a socket -----

  /** The receiving half: the bytes still to come before the peer closes or goes silent. */
  class ReadHalf {
    var unread: seq<U8>

    constructor (stream: seq<U8>)
      ensures unread == stream
    {
      unread := stream;
    }

    method ReadExact(n: nat) returns (r: Option<seq<U8>>)
      modifies this
      ensures n <= old(|unread|) ==> r == Some(old(unread[..n])) && unread == old(unread[n..])
      ensures n > old(|unread|) ==> r == None && unread == []
    {
      if n > |unread| {
        unread := [];
        return None;
      }
      r := Some(unread[..n]);
      unread := unread[n..];
    }
  }

  method Read(codec: PayloadCodec, half: ReadHalf) returns (r: Reading)
    modifies half
    ensures r == ReadMessage(codec, old(half.unread))
    ensures r.Got? ==> half.unread == r.rest
  {
    hide DecodeFrame, FromBe;
    ghost var stream := half.unread;
    var prefix := half.ReadExact(4);
    if prefix.None? { return EndOfStream; }
    var length := FromBe(prefix.value);
    if length > MAX_FRAME_BYTES { return Refused(FrameTooLarge(length)); }
    var body := half.ReadExact(length);
    if body.None? { return EndOfStream; }
    assert prefix.value + body.value == stream[..4 + length];
    var decoded := DecodeFrame(codec, prefix.value + body.value);
    if decoded.Err? { return Refused(decoded.error); }
    assert stream[4..][length..] == stream[4 + length..];
    return Got(decoded.value, half.unread);
  }

  method ReaderLoop(codec: PayloadCodec, half: ReadHalf) returns (inbound: seq<Message>, end: ReaderEnd, ghost left: seq<U8>)
    modifies half
    ensures Reception(inbound, end, left) == Receive(codec, old(half.unread))
  {
    hide ReadMessage;
    inbound := [];
    ghost var stream := half.unread;
    while true
      invariant Receive(codec, stream) == Before(inbound, Receive(codec, half.unread))
      decreases |half.unread|
    {
      left := half.unread;
      var reading := Read(codec, half);
      match reading
      case EndOfStream => return inbound, StreamEnded, left;
      case Refused(error) => return inbound, BadFrame(error), left;
      case Got(m, rest) =>
        if m.Handshake? { return inbound, UnexpectedHandshake, left; }
        if m == PING { continue; }
        OneMoreBefore(inbound, m, Receive(codec, rest));
        inbound := inbound + [m];
    }
  }

  method WriterLoop(codec: PayloadCodec, wakes: seq<Wake>) returns (wire: seq<U8>)
    ensures wire == Written(codec, wakes)
  {
    hide EncodeFrame;
    wire := [];
    for i := 0 to |wakes|
      invariant Written(codec, wakes) == wire + Written(codec, wakes[i..])
    {
      var encoded := EncodeFrame(codec, Queued(wakes[i]));
      if encoded.Err? { return; }
      assert wakes[i..][1..] == wakes[i + 1..];
      wire := wire + encoded.value;
    }
  }
}
