/** What reaches the output: across every switch, of codec, size or rate, only pictures of the active stream. */
module WrittenPictures {

  import opened Wrappers
  import opened Protocol
  import opened Pipeline
  import opened Decoding

  /** A frame of the stream `p`: its codec, width and height. */
  predicate Of(frame: VideoFrame, p: StreamProfile) {
    ValidateAgainst(frame, p).Ok?
  }

  ghost predicate AllOf(calls: seq<Call>, p: StreamProfile) {
    forall c | c in calls :: Of(c.frame, p)
  }

  /** A queued picture was decoded by a backend that a keyframe opened and that got frames of one stream only. */
  ghost predicate Genuine(e: DecodeEvent, p: StreamProfile) {
    e.Frame? ==> e.calls != [] && e.calls[0].frame.isKeyframe && AllOf(e.calls, p)
  }

  /** The worker decodes `p`: so do the frames it waits for, the calls it made and the pictures it made of them. */
  ghost predicate Serves(w: Worker, p: StreamProfile) {
    && Gated(w)
    && w.codec == p.codec
    && (forall f | f in w.frames :: Of(f, p))
    && AllOf(Backend(w), p)
    && (forall e | e in w.events :: Genuine(e, p))
  }

  lemma DecodedServes(w: Worker, p: StreamProfile, pictures: seq<Picture>, restarts: bool)
    requires Serves(w, p) && w.alive && w.frames != [] && PassesGate(w, w.frames[0])
    ensures Serves(Work(w, Decoded(pictures), restarts), p)
  {
    StepKeepsGate(w, Turn(Decoded(pictures), restarts));
    var calls := Backend(w) + [Call(w.frames[0], |pictures|)];
    assert AllOf(calls, p) && calls[0].frame.isKeyframe;
    assert Report(w, Decoded(pictures), restarts) == FramesOf(pictures, calls);
    hide Gated, AllOf, Of, Report;
    assert forall e | e in FramesOf(pictures, calls) :: Genuine(e, p);
    hide Genuine;
  }

  lemma TurnServes(w: Worker, p: StreamProfile, outcome: DecodeOutcome, restarts: bool)
    requires Serves(w, p)
    ensures Serves(Work(w, outcome, restarts), p)
  {
    if w.alive && w.frames != [] && PassesGate(w, w.frames[0]) && outcome.Decoded? {
      DecodedServes(w, p, outcome.pictures, restarts);
    } else {
      StepKeepsGate(w, Turn(outcome, restarts));
      SilentTurn(w, outcome, restarts);
      hide Gated, Of, Work, Report;
    }
  }

  /** A turn that decodes nothing takes a frame, reports no picture, and keeps the past or forgets it. */
  lemma SilentTurn(w: Worker, outcome: DecodeOutcome, restarts: bool)
    requires !(w.alive && w.frames != [] && PassesGate(w, w.frames[0]) && outcome.Decoded?)
    ensures var w' := Work(w, outcome, restarts);
            && w'.codec == w.codec && (Backend(w') == Backend(w) || Backend(w') == [])
            && (forall f | f in w'.frames :: f in w.frames)
            && (forall e | e in w'.events :: e in w.events || !e.Frame?)
  {
    hide FramesOf;
  }

  /** Whatever it does, a worker that is sent only frames of `p` and is not restarted goes on serving `p`. */
  lemma WorkerServes(w: Worker, p: StreamProfile, a: Action)
    requires Serves(w, p) && !a.Restart? && (a.Send? ==> Of(a.frame, p))
    ensures Serves(Decoding.Step(w, a), p)
  {
    StepKeepsGate(w, a);
    if a.Turn? { TurnServes(w, p, a.outcome, a.restarts); }
    hide Gated, Of;
  }

  /** A switch that succeeds leaves nothing of the old stream; one that fails leaves the old stream. */
  lemma SwitchServes(d: Desktop, old': StreamProfile, p: StreamProfile, env: Env)
    requires Serves(d.worker, old')
    ensures var (d', ok) := CommitAndReset(d, p, env);
            Serves(d'.worker, if ok then p else old')
  {
    StepKeepsGate(d.worker, Restart(p.codec, env.starts));
    hide Gated, Of;
  }

  ghost predicate Current(d: Desktop) {
    d.status.Running? ==> Serves(d.worker, d.active)
  }

  lemma UnsolicitedKeepsCurrent(d: Desktop, outcome: Outcome, env: Env)
    requires Current(d) && d.status.Running?
    ensures Current(OnUnsolicited(d, outcome, env))
  {
    if outcome.Applied? { SwitchServes(d, d.active, outcome.profile, env); }
    hide Serves, CommitAndReset;
  }

  lemma AnswerKeepsCurrent(d: Desktop, requested: StreamProfile, kind: PendingKind, outcome: Outcome, env: Env)
    requires Current(d) && d.status.Running? && kind.prior == d.active
    ensures Current(OnAnswer(d, requested, kind, outcome, env))
  {
    if outcome.Applied? { SwitchServes(d, d.active, outcome.profile, env); }
    hide Serves, CommitAndReset;
  }

  lemma ResultKeepsCurrent(d: Desktop, id: U32, outcome: Outcome, env: Env)
    requires Coherent(d) && Current(d) && d.status.Running?
    ensures Current(OnResult(d, id, outcome, env))
  {
    if d.pending.None? {
      UnsolicitedKeepsCurrent(d, outcome, env);
    } else {
      AnswerKeepsCurrent(d.(pending := None), d.pending.value.requested, d.pending.value.kind, outcome, env);
    }
    hide Serves, OnAnswer, OnUnsolicited, Accounted, AsksForCommand, WorkerInStep;
  }

  /** These steps change neither the active profile nor the worker. */
  lemma WorkerUntouched(d: Desktop, input: Input)
    requires !input.WorkerTurn? && !input.DecoderEvent?
    requires !(input.Message? && (input.message.ConfigurationResult? || input.message.VideoFrameMessage?))
    ensures Pipeline.Step(d, input).worker == d.worker && Pipeline.Step(d, input).active == d.active
  {
    hide ResolveProfile, ValidateUpdate, CommonProfiles;
  }

  /** The one action these steps hand the worker, if any; a frame they send is one of the active stream. */
  function Handed(input: Input): Action
    requires input.WorkerTurn? || input.DecoderEvent? || (input.Message? && input.message.VideoFrameMessage?)
  {
    match input
    case WorkerTurn(outcome, restarts) => Turn(outcome, restarts)
    case Message(VideoFrameMessage(frame), _) => Send(frame)
    case _ => Receive
  }

  lemma WorkerActs(d: Desktop, input: Input)
    requires input.WorkerTurn? || input.DecoderEvent? || (input.Message? && input.message.VideoFrameMessage?)
    requires d.status.Running?
    ensures Pipeline.Step(d, input).active == d.active
    ensures || Pipeline.Step(d, input).worker == d.worker
            || (Pipeline.Step(d, input).worker == Decoding.Step(d.worker, Handed(input))
                && (input.Message? ==> Of(input.message.frame, d.active)))
  {
    hide Work, TakeEvent, TrySend, Reset, ValidateAgainst;
  }

  lemma StepKeepsCurrent(d: Desktop, input: Input)
    requires Coherent(d) && Current(d)
    ensures Current(Pipeline.Step(d, input))
  {
    if !d.status.Running? {
    } else if input.Message? && input.message.ConfigurationResult? {
      ResultKeepsCurrent(d, input.message.id, input.message.outcome, input.env);
      hide Current, Coherent, OnResult;
    } else if input.WorkerTurn? || input.DecoderEvent? || (input.Message? && input.message.VideoFrameMessage?) {
      WorkerActs(d, input);
      if Pipeline.Step(d, input).worker != d.worker {
        WorkerServes(d.worker, d.active, Handed(input));
      }
      hide Serves, Coherent, Pipeline.Step, Decoding.Step, Of;
    } else {
      WorkerUntouched(d, input);
      hide Serves, Coherent, Pipeline.Step;
    }
  }

  /** The worker, its queues and its past serve the active profile in every running state of every run. */
  lemma {:induction false} RunsStayCurrent(local: seq<StreamProfile>, phone: Handshake, env: Env, inputs: seq<Input>)
    requires Start(local, phone, env).Ok?
    ensures Current(Pipeline.Run(Start(local, phone, env).value, inputs))
  {
    if inputs == [] {
      StartServes(Start(local, phone, env).value.(worker := STARTED), phone.active.value, env);
    } else {
      var init := inputs[..|inputs| - 1];
      RunsStayCurrent(local, phone, env, init);
      RunsAreCoherent(local, phone, env, init);
      hide Current, Coherent, Pipeline.Step;
      StepKeepsCurrent(Pipeline.Run(Start(local, phone, env).value, init), inputs[|inputs| - 1]);
    }
  }

  lemma StartServes(d: Desktop, p: StreamProfile, env: Env)
    requires d.worker == STARTED
    ensures var (d', ok) := CommitAndReset(d, p, env);
            ok ==> Serves(d'.worker, p)
  {
    SwitchServes(d, p.(codec := H264), p, env);
    hide Serves, CommitAndReset;
  }

  /** Every picture a run takes to the output was decoded from frames of the active profile's codec, width and height,
      the first of them a keyframe; and if the output takes it, it has the committed size, which is the active
      profile's outside a compensation. */
  lemma OnlyActivePicturesAreWritten(
    local: seq<StreamProfile>, phone: Handshake, env: Env, inputs: seq<Input>, last: Env)
    requires Start(local, phone, env).Ok?
    requires var d := Pipeline.Run(Start(local, phone, env).value, inputs);
             d.status.Running? && d.worker.events != [] && d.worker.events[0].Frame?
    ensures var d := Pipeline.Run(Start(local, phone, env).value, inputs);
            var picture, calls := d.worker.events[0].picture, d.worker.events[0].calls;
            && calls != [] && calls[0].frame.isKeyframe
            && (forall c | c in calls ::
                  c.frame.codec == d.active.codec && c.frame.width == d.active.width && c.frame.height == d.active.height)
            && (Pipeline.Step(d, DecoderEvent(last)).status.Running? && !Compensating(d) ==>
                  picture.width == d.active.width && picture.height == d.active.height)
  {
    RunsStayCurrent(local, phone, env, inputs);
    RunsAreCoherent(local, phone, env, inputs);
    var d := Pipeline.Run(Start(local, phone, env).value, inputs);
    assert Genuine(d.worker.events[0], d.active);
    assert forall c | c in d.worker.events[0].calls :: Of(c.frame, d.active);
  }
}
