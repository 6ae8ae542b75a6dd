/** The decode worker: one current codec, a keyframe gate, two decoder backends and bounded queues.
    The codec libraries are abstract. What a decode call returns is an input of the step, and a backend
    is represented by the successful decode calls it has served since it was created. */
module Decoding {

  import opened Wrappers
  import opened Protocol

  const FRAME_QUEUE_CAPACITY: nat := 2

  datatype Picture = Picture(width: nat, height: nat)

  datatype DecodeOutcome = Decoded(pictures: seq<Picture>) | DecodeFailed | Panicked

  /** One successful decode call: the frame it was given and how many pictures it returned. */
  datatype Call = Call(frame: VideoFrame, pictures: nat)

  /** A picture is tagged with the calls its backend had served, the emitting call last. */
  datatype DecodeEvent = Frame(picture: Picture, calls: seq<Call>) | RecoveryRequired | Error

  datatype Worker = Worker(
    alive: bool,
    codec: VideoCodec,
    waitingForIdr: bool,
    h264: seq<Call>,
    hevc: seq<Call>,
    frames: seq<VideoFrame>,
    events: seq<DecodeEvent>)

  const STARTED := Worker(true, H264, true, [], [], [], [])

  function Backend(w: Worker): seq<Call> {
    if w.codec.H264? then w.h264 else w.hevc
  }

  function WithBackend(w: Worker, codec: VideoCodec, calls: seq<Call>): Worker {
    if codec.H264? then w.(h264 := calls) else w.(hevc := calls)
  }

  // ----- Steps -----

  /** `try_send`: refused when the queue is full or the worker is gone. */
  function TrySend(w: Worker, frame: VideoFrame): (Worker, bool) {
    if w.alive && |w.frames| < FRAME_QUEUE_CAPACITY then (w.(frames := w.frames + [frame]), true) else (w, false)
  }

  function FramesOf(pictures: seq<Picture>, calls: seq<Call>): seq<DecodeEvent> {
    seq(|pictures|, i requires 0 <= i < |pictures| => Frame(pictures[i], calls))
  }

  /** A failed backend is replaced; only the H.264 library can fail to start again, which ends the thread. */
  function Recreate(w: Worker, restarts: bool): Worker {
    if w.codec.H264? && !restarts then w.(waitingForIdr := true, alive := false)
    else WithBackend(w, w.codec, []).(waitingForIdr := true)
  }

  predicate PassesGate(w: Worker, frame: VideoFrame) {
    frame.codec == w.codec && (w.waitingForIdr ==> frame.isKeyframe)
  }

  /** The events the worker reports while it handles its oldest queued frame. */
  function Report(w: Worker, outcome: DecodeOutcome, restarts: bool): seq<DecodeEvent> {
    if !w.alive || w.frames == [] then []
    else if !PassesGate(w, w.frames[0]) then [RecoveryRequired]
    else match outcome
      case Decoded(pictures) => FramesOf(pictures, Backend(w) + [Call(w.frames[0], |pictures|)])
      case DecodeFailed => if Recreate(w, restarts).alive then [Error, RecoveryRequired] else []
      case Panicked => if Recreate(w, restarts).alive then [Error] else []
  }

  /** The worker handles its oldest queued frame. */
  function Work(w: Worker, outcome: DecodeOutcome, restarts: bool): Worker {
    if !w.alive || w.frames == [] then w
    else
      var frame := w.frames[0];
      var w1 := w.(frames := w.frames[1..], events := w.events + Report(w, outcome, restarts));
      if !PassesGate(w, frame) then w1
      else if outcome.Decoded? then
        WithBackend(w1, w.codec, Backend(w) + [Call(frame, |outcome.pictures|)]).(
          waitingForIdr := w.waitingForIdr && !frame.isKeyframe)
      else Recreate(w1, restarts)
  }

  /** `DecodeWorker::reset`, from the request to the drained event queue. */
  function Reset(w: Worker, codec: VideoCodec, starts: bool): (Worker, bool) {
    if !w.alive then (w, false)
    else if codec.H264? && !starts then (w.(frames := []), false)
    else (WithBackend(w, codec, []).(frames := [], codec := codec, waitingForIdr := true, events := []), true)
  }

  function TakeEvent(w: Worker): Worker {
    if w.events == [] then w else w.(events := w.events[1..])
  }

  datatype Action =
    | Send(frame: VideoFrame)
    | Turn(outcome: DecodeOutcome, restarts: bool)
    | Restart(codec: VideoCodec, starts: bool)
    | Receive

  function Step(w: Worker, a: Action): Worker {
    match a
    case Send(frame) => TrySend(w, frame).0
    case Turn(outcome, restarts) => Work(w, outcome, restarts)
    case Restart(codec, starts) => Reset(w, codec, starts).0
    case Receive => TakeEvent(w)
  }

  /** The state after a whole run. */
  function Run(w: Worker, actions: seq<Action>): Worker {
    if actions == [] then w
    else Step(Run(w, actions[..|actions| - 1]), actions[|actions| - 1])
  }

  /** The worker thread in the form the source gives it: fields updated in place. */
  class DecoderThread {
    var alive: bool
    var codec: VideoCodec
    var waitingForIdr: bool
    var h264: seq<Call>
    var hevc: seq<Call>
    var frames: seq<VideoFrame>
    var events: seq<DecodeEvent>

    function State(): Worker
      reads this
    {
      Worker(alive, codec, waitingForIdr, h264, hevc, frames, events)
    }

    constructor ()
      ensures State() == STARTED
    {
      alive, codec, waitingForIdr := true, H264, true;
      h264, hevc, frames, events := [], [], [], [];
    }

    method ApplyReset(next: VideoCodec, starts: bool) returns (acknowledged: bool)
      modifies this
      ensures (State(), acknowledged) == Reset(old(State()), next, starts)
    {
      if !alive {
        return false;
      }
      while frames != []
        invariant State() == old(State()).(frames := frames)
        decreases |frames|
      {
        frames := frames[1..];
      }
      acknowledged := true;
      match next {
        case H264 => if starts { h264 := []; } else { acknowledged := false; }
        case Hevc => hevc := [];
      }
      if acknowledged {
        codec := next;
        waitingForIdr := true;
        while events != []
          invariant State() == Reset(old(State()), next, starts).0.(events := events)
          decreases |events|
        {
          events := events[1..];
        }
      }
    }

    method HandleFrame(outcome: DecodeOutcome, restarts: bool)
      modifies this
      ensures State() == Work(old(State()), outcome, restarts)
    {
      if !alive || frames == [] {
        return;
      }
      var frame := frames[0];
      frames := frames[1..];
      if frame.codec != codec || (waitingForIdr && !frame.isKeyframe) {
        events := events + [RecoveryRequired];
        return;
      }
      match outcome {
        case Decoded(pictures) =>
          var call := Call(frame, |pictures|);
          var calls;
          if codec.H264? {
            h264 := h264 + [call];
            calls := h264;
          } else {
            hevc := hevc + [call];
            calls := hevc;
          }
          if frame.isKeyframe {
            waitingForIdr := false;
          }
          Emit(pictures, calls);
        case DecodeFailed =>
          waitingForIdr := true;
          Rebuild(restarts);
          if alive {
            events := events + [Error, RecoveryRequired];
          }
        case Panicked =>
          waitingForIdr := true;
          Rebuild(restarts);
          if alive {
            events := events + [Error];
          }
      }
    }

    /** Report the pictures of one call, one event each. */
    method Emit(pictures: seq<Picture>, calls: seq<Call>)
      modifies `events
      ensures events == old(events) + FramesOf(pictures, calls)
    {
      for i := 0 to |pictures|
        invariant events == old(events) + FramesOf(pictures[..i], calls)
      {
        events := events + [Frame(pictures[i], calls)];
        assert FramesOf(pictures[..i + 1], calls) == FramesOf(pictures[..i], calls) + [Frame(pictures[i], calls)];
      }
      assert pictures[..|pictures|] == pictures;
    }

    /** Replace the current codec's backend; the thread ends when the H.264 library cannot restart. */
    method Rebuild(restarts: bool)
      requires alive && waitingForIdr
      modifies this
      ensures State() == Recreate(old(State()), restarts)
    {
      match codec {
        case H264 => if restarts { h264 := []; } else { alive := false; }
        case Hevc => hevc := [];
      }
    }
  }

  // ----- The keyframe gate -----

  ghost predicate OpensWithKeyframe(calls: seq<Call>, codec: VideoCodec) {
    && (calls != [] ==> calls[0].frame.isKeyframe)
    && (forall c | c in calls :: c.frame.codec == codec)
  }

  /** The gate is shut exactly while the current backend has decoded nothing, and every backend that has
      decoded something was opened by a keyframe of its own codec. */
  ghost predicate Gated(w: Worker) {
    && (w.alive ==> (w.waitingForIdr <==> Backend(w) == []))
    && OpensWithKeyframe(w.h264, H264)
    && OpensWithKeyframe(w.hevc, Hevc)
  }

  lemma TurnKeepsGate(w: Worker, outcome: DecodeOutcome, restarts: bool)
    requires Gated(w) && w.alive && w.frames != []
    ensures Gated(Work(w, outcome, restarts))
  {
    var frame := w.frames[0];
    if PassesGate(w, frame) && outcome.Decoded? {
      var calls := Backend(w) + [Call(frame, |outcome.pictures|)];
      assert OpensWithKeyframe(calls, w.codec);
    }
  }

  lemma StepKeepsGate(w: Worker, a: Action)
    requires Gated(w)
    ensures Gated(Step(w, a))
  {
    if a.Turn? && w.alive && w.frames != [] {
      TurnKeepsGate(w, a.outcome, a.restarts);
    }
  }

  lemma {:induction false} GateOverRuns(actions: seq<Action>)
    ensures Gated(Run(STARTED, actions))
  {
    if actions != [] {
      GateOverRuns(actions[..|actions| - 1]);
      StepKeepsGate(Run(STARTED, actions[..|actions| - 1]), actions[|actions| - 1]);
    }
  }

  // ----- What follows a reset -----

  /** The events one step adds to the queue. */
  ghost function Emits(w: Worker, a: Action): seq<DecodeEvent> {
    if a.Turn? then Report(w, a.outcome, a.restarts) else []
  }

  /** Every event a run emits, in order, whether or not it has been received yet. */
  ghost function Emitted(w: Worker, actions: seq<Action>): seq<DecodeEvent> {
    if actions == [] then []
    else
      var init := actions[..|actions| - 1];
      Emitted(w, init) + Emits(Run(w, init), actions[|actions| - 1])
  }

  ghost predicate NoRestart(actions: seq<Action>) {
    forall a | a in actions :: !a.Restart?
  }

  ghost predicate SentIn(frame: VideoFrame, actions: seq<Action>) {
    Send(frame) in actions
  }

  ghost predicate FedBy(calls: seq<Call>, codec: VideoCodec, actions: seq<Action>) {
    && OpensWithKeyframe(calls, codec)
    && (forall c | c in calls :: SentIn(c.frame, actions))
  }

  ghost predicate Silent(calls: seq<Call>) {
    forall c | c in calls :: c.pictures == 0
  }

  ghost predicate NoFrame(events: seq<DecodeEvent>) {
    forall e | e in events :: !e.Frame?
  }

  /** What is true of the worker while a run that began at a reset to `codec` goes on. */
  ghost predicate Fresh(w: Worker, codec: VideoCodec, actions: seq<Action>, emitted: seq<DecodeEvent>) {
    && Gated(w)
    && w.codec == codec
    && FedBy(Backend(w), codec, actions)
    && (forall f | f in w.frames :: SentIn(f, actions))
    && (NoFrame(emitted) ==> Silent(Backend(w)))
    && (forall e | e in emitted && e.Frame? :: e.calls != [] && FedBy(e.calls, codec, actions))
  }

  ghost predicate FirstFrameAt(emitted: seq<DecodeEvent>, i: nat) {
    i < |emitted| && emitted[i].Frame? && NoFrame(emitted[..i])
  }

  /** The calls before the one that produced the first picture produced none. */
  ghost predicate FirstPictureCall(calls: seq<Call>) {
    calls != [] && Silent(calls[..|calls| - 1]) && calls[|calls| - 1].pictures > 0
  }

  /** Sending more frames later takes nothing away. */
  lemma FedByMonotone(calls: seq<Call>, codec: VideoCodec, init: seq<Action>, a: Action)
    requires FedBy(calls, codec, init)
    ensures FedBy(calls, codec, init + [a])
  {
    forall c | c in calls ensures SentIn(c.frame, init + [a]) {
      assert SentIn(c.frame, init);
    }
  }

  lemma DecodedTurn(w: Worker, codec: VideoCodec, init: seq<Action>, emitted: seq<DecodeEvent>, a: Action)
    requires Fresh(w, codec, init, emitted) && a.Turn? && a.outcome.Decoded?
    requires w.alive && w.frames != [] && PassesGate(w, w.frames[0])
    ensures Fresh(Step(w, a), codec, init, emitted + Emits(w, a))
  {
    var calls := Backend(w) + [Call(w.frames[0], |a.outcome.pictures|)];
    assert Backend(Step(w, a)) == calls;
    assert FedBy(calls, codec, init);
    var now := Emits(w, a);
    assert now == FramesOf(a.outcome.pictures, calls);
    if |a.outcome.pictures| > 0 {
      assert now[0] in emitted + now;
    } else {
      assert emitted + now == emitted;
    }
    StepKeepsGate(w, a);
  }

  lemma OtherStep(w: Worker, codec: VideoCodec, init: seq<Action>, emitted: seq<DecodeEvent>, a: Action)
    requires Fresh(w, codec, init, emitted) && !a.Restart? && !a.Send?
    requires !(a.Turn? && a.outcome.Decoded? && w.alive && w.frames != [] && PassesGate(w, w.frames[0]))
    ensures Fresh(Step(w, a), codec, init, emitted + Emits(w, a))
  {
    var now := Emits(w, a);
    assert NoFrame(now);
    assert forall e | e in emitted :: e in emitted + now;
    StepKeepsGate(w, a);
  }

  lemma FreshStep(w: Worker, codec: VideoCodec, init: seq<Action>, emitted: seq<DecodeEvent>, a: Action)
    requires Fresh(w, codec, init, emitted) && !a.Restart?
    ensures Fresh(Step(w, a), codec, init + [a], emitted + Emits(w, a))
  {
    var w', now := Step(w, a), emitted + Emits(w, a);
    if a.Send? {
      assert now == emitted && Backend(w') == Backend(w);
      StepKeepsGate(w, a);
    } else if a.Turn? && a.outcome.Decoded? && w.alive && w.frames != [] && PassesGate(w, w.frames[0]) {
      DecodedTurn(w, codec, init, emitted, a);
    } else {
      OtherStep(w, codec, init, emitted, a);
    }
    FedByMonotone(Backend(w'), codec, init, a);
    forall e | e in now && e.Frame? ensures FedBy(e.calls, codec, init + [a]) {
      FedByMonotone(e.calls, codec, init, a);
    }
    forall f | f in w'.frames ensures SentIn(f, init + [a]) {
      assert f in w.frames ==> SentIn(f, init);
    }
  }

  lemma {:induction false} FreshRun(w: Worker, codec: VideoCodec, actions: seq<Action>)
    requires Fresh(w, codec, [], []) && NoRestart(actions)
    ensures Fresh(Run(w, actions), codec, actions, Emitted(w, actions))
  {
    if actions != [] {
      var init, a := actions[..|actions| - 1], actions[|actions| - 1];
      FreshRun(w, codec, init);
      FreshStep(Run(w, init), codec, init, Emitted(w, init), a);
      assert init + [a] == actions;
    }
  }

  /** After a successful reset to `codec`, every picture comes from a backend that was opened by a keyframe
      and fed only frames of that codec, all of them sent after the reset. */
  lemma PicturesAfterReset(w: Worker, codec: VideoCodec, starts: bool, actions: seq<Action>)
    requires Gated(w) && Reset(w, codec, starts).1 && NoRestart(actions)
    ensures forall e | e in Emitted(Reset(w, codec, starts).0, actions) && e.Frame? ::
              e.calls != [] && FedBy(e.calls, codec, actions)
  {
    FreshRun(Reset(w, codec, starts).0, codec, actions);
  }

  /** The step that emits the first picture emits it for the call it makes. */
  lemma FirstPictureStep(w: Worker, codec: VideoCodec, init: seq<Action>, before: seq<DecodeEvent>, a: Action, i: nat)
    requires Fresh(w, codec, init, before) && !a.Restart? && NoFrame(before)
    requires i < |Emits(w, a)| && Emits(w, a)[i].Frame?
    ensures FirstPictureCall(Emits(w, a)[i].calls)
  {
    var calls := Emits(w, a)[i].calls;
    assert calls == Backend(w) + [Call(w.frames[0], |a.outcome.pictures|)];
    assert calls[..|calls| - 1] == Backend(w);
  }

  lemma {:induction false} FirstPicture(w: Worker, codec: VideoCodec, actions: seq<Action>, i: nat)
    requires Fresh(w, codec, [], []) && NoRestart(actions)
    requires FirstFrameAt(Emitted(w, actions), i)
    ensures FirstPictureCall(Emitted(w, actions)[i].calls)
  {
    var init, a := actions[..|actions| - 1], actions[|actions| - 1];
    var all, before := Emitted(w, actions), Emitted(w, init);
    assert all == before + Emits(Run(w, init), a);
    hide Emits, Emitted, Fresh, FirstPictureCall, Run;
    if i < |before| {
      assert all[..i] == before[..i];
      FirstPicture(w, codec, init, i);
    } else {
      assert before == all[..i][..|before|];
      FreshRun(w, codec, init);
      FirstPictureStep(Run(w, init), codec, init, before, a, i - |before|);
    }
  }

  /** Does the first picture after a reset come from a keyframe? It comes from the keyframe that opened the
      backend exactly when the decoder returned a picture for that keyframe at once. */
  lemma FirstPictureFromKeyframe(w: Worker, codec: VideoCodec, starts: bool, actions: seq<Action>, i: nat)
    requires Gated(w) && Reset(w, codec, starts).1 && NoRestart(actions)
    requires FirstFrameAt(Emitted(Reset(w, codec, starts).0, actions), i)
    ensures var calls := Emitted(Reset(w, codec, starts).0, actions)[i].calls;
            calls != [] && calls[0].frame.isKeyframe && (|calls| == 1 <==> calls[0].pictures > 0)
  {
    var w1 := Reset(w, codec, starts).0;
    FirstPicture(w1, codec, actions, i);
    FreshRun(w1, codec, actions);
    var calls := Emitted(w1, actions)[i].calls;
    assert Emitted(w1, actions)[i] in Emitted(w1, actions);
    if |calls| > 1 {
      assert calls[0] in calls[..|calls| - 1];
    }
  }

  /** A run in which it does not: the decoder holds the keyframe back and answers on the next frame. */
  lemma DelayedPictureCounterexample(key: VideoFrame, delta: VideoFrame, picture: Picture)
    returns (actions: seq<Action>)
    requires key.codec == delta.codec == Hevc && key.isKeyframe && !delta.isKeyframe
    ensures NoRestart(actions)
    ensures Emitted(Reset(STARTED, Hevc, true).0, actions) == [Frame(picture, [Call(key, 0), Call(delta, 1)])]
  {
    var w := Reset(STARTED, Hevc, true).0;
    var first := OneFrame(w, [], key, []);
    actions := OneFrame(w, first, delta, [picture]);
    assert [] + [Call(key, 0)] == [Call(key, 0)] && [Call(key, 0)] + [Call(delta, 1)] == [Call(key, 0), Call(delta, 1)];
  }

  /** Extend a run that leaves an idle HEVC worker by one frame, sent and decoded. */
  lemma OneFrame(w: Worker, init: seq<Action>, frame: VideoFrame, pictures: seq<Picture>) returns (more: seq<Action>)
    requires NoRestart(init) && ReadyFor(Run(w, init), frame)
    ensures NoRestart(more) && Run(w, more) == AfterFrame(Run(w, init), frame, pictures)
    ensures Emitted(w, more) == Emitted(w, init) + FramesOf(pictures, Run(w, init).hevc + [Call(frame, |pictures|)])
  {
    more := init + ([Send(frame)] + [Turn(Decoded(pictures), true)]);
    SendThenTurn(w, init, frame, pictures);
  }

  ghost predicate ReadyFor(w: Worker, frame: VideoFrame) {
    w.alive && w.codec == Hevc && w.frames == [] && PassesGate(w, frame)
  }

  /** What an idle HEVC worker becomes when it is sent a frame and decodes it. */
  ghost function AfterFrame(w: Worker, frame: VideoFrame, pictures: seq<Picture>): Worker {
    var calls := w.hevc + [Call(frame, |pictures|)];
    w.(hevc := calls, waitingForIdr := w.waitingForIdr && !frame.isKeyframe,
       events := w.events + FramesOf(pictures, calls))
  }

  lemma SendThenTurnSteps(w: Worker, frame: VideoFrame, pictures: seq<Picture>)
    requires ReadyFor(w, frame)
    ensures var sent, turn := Step(w, Send(frame)), Turn(Decoded(pictures), true);
            && Emits(w, Send(frame)) == []
            && Emits(sent, turn) == FramesOf(pictures, w.hevc + [Call(frame, |pictures|)])
            && Step(sent, turn) == AfterFrame(w, frame, pictures)
  {
    assert ([] + [frame])[1..] == [];
  }

  lemma SendThenTurn(w: Worker, init: seq<Action>, frame: VideoFrame, pictures: seq<Picture>)
    requires ReadyFor(Run(w, init), frame)
    ensures var w0, more := Run(w, init), init + ([Send(frame)] + [Turn(Decoded(pictures), true)]);
            && Emitted(w, more) == Emitted(w, init) + FramesOf(pictures, w0.hevc + [Call(frame, |pictures|)])
            && Run(w, more) == AfterFrame(w0, frame, pictures)
  {
    var turn := Turn(Decoded(pictures), true);
    SendThenTurnSteps(Run(w, init), frame, pictures);
    RunExtend(w, init, Send(frame));
    RunExtend(w, init + [Send(frame)], turn);
    hide Run, Step, Emitted, Emits, FramesOf, ReadyFor, AfterFrame;
    assert init + [Send(frame)] + [turn] == init + ([Send(frame)] + [turn]);
    assert Emitted(w, init) + [] == Emitted(w, init);
  }

  lemma RunExtend(w: Worker, init: seq<Action>, a: Action)
    ensures Run(w, init + [a]) == Step(Run(w, init), a)
    ensures Emitted(w, init + [a]) == Emitted(w, init) + Emits(Run(w, init), a)
  {
    assert (init + [a])[..|init|] == init;
  }

  // ----- The HEVC backend and its parameter sets -----

  datatype NalKind = Vps | Sps | Pps | Idr | OtherNal

  datatype Nal = Nal(kind: NalKind, bytes: seq<U8>)

  /** What the library answers to one NAL, given everything it has been handed. */
  datatype NalOutcome = NoPicture | GotPicture(convertible: bool, picture: Picture) | NalFailed

  datatype HevcError = MalformedAnnexB | IdrBeforeParameterSets | LibraryFailed | UnsupportedPicture

  function Saw(fed: seq<Nal>, kind: NalKind): bool {
    exists n | n in fed :: n.kind == kind
  }

  function ParametersKnown(fed: seq<Nal>): bool {
    Saw(fed, Vps) && Saw(fed, Sps) && Saw(fed, Pps)
  }

  /** What the library has been fed after decoding `nals`, and what the caller gets. */
  function DecodeNals(fed: seq<Nal>, nals: seq<Nal>, library: seq<Nal> -> NalOutcome)
    : (seq<Nal>, Result<seq<Picture>, HevcError>)
    decreases |nals|
  {
    if nals == [] then (fed, Ok([]))
    else if nals[0].kind.Idr? && !ParametersKnown(fed) then (fed, Err(IdrBeforeParameterSets))
    else
      var more := fed + [nals[0]];
      match library(more)
      case NalFailed => (more, Err(LibraryFailed))
      case GotPicture(false, _) => (more, Err(UnsupportedPicture))
      case GotPicture(true, picture) =>
        var (last, rest) := DecodeNals(more, nals[1..], library);
        (last, if rest.Ok? then Ok([picture] + rest.value) else rest)
      case NoPicture => DecodeNals(more, nals[1..], library)
  }

  ghost function Prepend(front: seq<Picture>, r: (seq<Nal>, Result<seq<Picture>, HevcError>))
    : (seq<Nal>, Result<seq<Picture>, HevcError>)
  {
    (r.0, if r.1.Ok? then Ok(front + r.1.value) else r.1)
  }

  lemma PrependNothing(r: (seq<Nal>, Result<seq<Picture>, HevcError>))
    ensures Prepend([], r) == r
  {
    assert r.1.Ok? ==> [] + r.1.value == r.1.value;
  }

  /** One turn of the decode loop, with the pictures already collected in front. */
  lemma OneNal(front: seq<Picture>, fed: seq<Nal>, nals: seq<Nal>, library: seq<Nal> -> NalOutcome)
    requires nals != []
    ensures Prepend(front, DecodeNals(fed, nals, library)) ==
            if nals[0].kind.Idr? && !ParametersKnown(fed) then (fed, Err(IdrBeforeParameterSets))
            else
              var more := fed + [nals[0]];
              match library(more)
              case NalFailed => (more, Err(LibraryFailed))
              case GotPicture(convertible, picture) =>
                if convertible then Prepend(front + [picture], DecodeNals(more, nals[1..], library))
                else (more, Err(UnsupportedPicture))
              case NoPicture => Prepend(front, DecodeNals(more, nals[1..], library))
  {
    var more := fed + [nals[0]];
    var rest := DecodeNals(more, nals[1..], library).1;
    if rest.Ok? && library(more).GotPicture? {
      var picture := library(more).picture;
      assert front + ([picture] + rest.value) == (front + [picture]) + rest.value;
    }
  }

  /** Each IDR the library was handed came after a VPS, an SPS and a PPS. */
  ghost predicate ParametersFirst(fed: seq<Nal>) {
    forall i | 0 <= i < |fed| && fed[i].kind.Idr? :: ParametersKnown(fed[..i])
  }

  lemma SawMore(fed: seq<Nal>, nal: Nal)
    ensures forall kind :: Saw(fed + [nal], kind) <==> Saw(fed, kind) || nal.kind == kind
  {
    assert nal in fed + [nal];
    assert forall n | n in fed :: n in fed + [nal];
  }

  lemma Hand(fed: seq<Nal>, nal: Nal)
    requires ParametersFirst(fed) && (nal.kind.Idr? ==> ParametersKnown(fed))
    ensures ParametersFirst(fed + [nal])
  {
    var more := fed + [nal];
    forall i | 0 <= i < |more| ensures more[..i] == fed[..i] {
    }
    assert more[..|fed|] == fed;
  }

  /** Decoding hands the library a prefix of the NALs, all of them on success, and stops in front of an IDR
      whose parameter sets are missing; it never hands over an IDR too early. */
  lemma {:induction false} DecodeNalsOrder(fed: seq<Nal>, nals: seq<Nal>, library: seq<Nal> -> NalOutcome) returns (k: nat)
    requires ParametersFirst(fed)
    ensures ParametersFirst(DecodeNals(fed, nals, library).0)
    ensures k <= |nals| && DecodeNals(fed, nals, library).0 == fed + nals[..k]
    ensures DecodeNals(fed, nals, library).1.Ok? ==> k == |nals|
    ensures DecodeNals(fed, nals, library).1 == Err(IdrBeforeParameterSets) ==>
              k < |nals| && nals[k].kind.Idr? && !ParametersKnown(fed + nals[..k])
    decreases |nals|
  {
    hide ParametersKnown, ParametersFirst;
    k := 0;
    if nals != [] && (nals[0].kind.Idr? ==> ParametersKnown(fed)) {
      Hand(fed, nals[0]);
      var more := fed + [nals[0]];
      k := 1;
      assert nals[..1] == [nals[0]];
      if library(more).NoPicture? || (library(more).GotPicture? && library(more).convertible) {
        var rest := DecodeNalsOrder(more, nals[1..], library);
        k := rest + 1;
        assert nals[..k] == [nals[0]] + nals[1..][..rest];
        assert fed + [nals[0]] + nals[1..][..rest] == fed + ([nals[0]] + nals[1..][..rest]);
      }
    }
  }

  class HevcBackend {
    var sawVps: bool
    var sawSps: bool
    var sawPps: bool
    var handed: seq<Nal>  // the library decoder, represented by the NALs it has been handed

    /** The three flags say what the library has been handed, and no IDR was handed too early. */
    ghost predicate Valid()
      reads this
    {
      FlagsTrue() && ParametersFirst(handed)
    }

    ghost predicate FlagsTrue()
      reads this
    {
      sawVps == Saw(handed, Vps) && sawSps == Saw(handed, Sps) && sawPps == Saw(handed, Pps)
    }

    constructor ()
      ensures Valid() && handed == []
    {
      sawVps, sawSps, sawPps := false, false, false;
      handed := [];
    }

    /** Look at a NAL before handing it over: record a parameter set, refuse an IDR that came too early. */
    method Admit(nal: Nal) returns (admitted: bool)
      requires FlagsTrue()
      modifies this
      ensures admitted <==> (nal.kind.Idr? ==> ParametersKnown(old(handed)))
      ensures handed == if admitted then old(handed) + [nal] else old(handed)
      ensures FlagsTrue()
    {
      SawMore(handed, nal);
      match nal.kind {
        case Vps => sawVps := true;
        case Sps => sawSps := true;
        case Pps => sawPps := true;
        case Idr =>
          if !(sawVps && sawSps && sawPps) {
            return false;
          }
        case OtherNal =>
      }
      handed := handed + [nal];
      return true;
    }

    method Decode(nals: seq<Nal>, library: seq<Nal> -> NalOutcome) returns (r: Result<seq<Picture>, HevcError>)
      requires Valid()
      modifies this
      ensures Valid()
      ensures nals == [] ==> r == Err(MalformedAnnexB) && handed == old(handed)
      ensures nals != [] ==> (handed, r) == DecodeNals(old(handed), nals, library)
    {
      if nals == [] {
        return Err(MalformedAnnexB);
      }
      var decoded := [];
      ghost var _ := DecodeNalsOrder(handed, nals, library);
      PrependNothing(DecodeNals(handed, nals, library));
      assert nals[0..] == nals;
      for i := 0 to |nals|
        invariant FlagsTrue()
        invariant DecodeNals(old(handed), nals, library) == Prepend(decoded, DecodeNals(handed, nals[i..], library))
      {
        OneNal(decoded, handed, nals[i..], library);
        assert nals[i..][1..] == nals[i + 1..];
        var admitted := Admit(nals[i]);
        if !admitted {
          return Err(IdrBeforeParameterSets);
        }
        match library(handed) {
          case NalFailed => return Err(LibraryFailed);
          case GotPicture(convertible, picture) =>
            if !convertible {
              return Err(UnsupportedPicture);
            }
            decoded := decoded + [picture];
          case NoPicture =>
        }
      }
      assert nals[|nals|..] == [] && decoded + [] == decoded;
      return Ok(decoded);
    }
  }
}
