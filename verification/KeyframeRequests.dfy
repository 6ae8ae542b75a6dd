/** How the desktop asks for keyframes: never twice without one in between, and, once one is needed, until one is queued. */
module KeyframeRequests {

  import opened Wrappers
  import opened Protocol
  import opened Pipeline
  import Decoding

  function Requests(messages: seq<DesktopMessage>): nat {
    if messages == [] then 0
    else Requests(messages[..|messages| - 1]) + if messages[|messages| - 1].RequestKeyframe? then 1 else 0
  }

  /** The input is a keyframe of the active profile, which answers a request. */
  predicate Answers(d: Desktop, input: Input) {
    && d.status.Running? && d.keyframeRequestInFlight
    && input.Message? && input.message.VideoFrameMessage?
    && input.message.frame.isKeyframe && ValidateAgainst(input.message.frame, d.active).Ok?
  }

  ghost function Answered(d: Desktop, inputs: seq<Input>): nat {
    if inputs == [] then 0
    else
      var init := inputs[..|inputs| - 1];
      Answered(d, init) + if Answers(Run(d, init), inputs[|inputs| - 1]) then 1 else 0
  }

  function Outstanding(d: Desktop): nat {
    if d.keyframeRequestInFlight then 1 else 0
  }

  lemma OneMore(messages: seq<DesktopMessage>, m: DesktopMessage)
    ensures Requests(messages + [m]) == Requests(messages) + if m.RequestKeyframe? then 1 else 0
  {
    assert (messages + [m])[..|messages|] == messages;
  }

  /** Asking leaves exactly one request outstanding, or ends the actor. */
  lemma AskOnce(d: Desktop, env: Env)
    requires d.status.Running?
    ensures var d' := AskKeyframe(d, env);
            && Requests(d'.sent) + Outstanding(d) == Requests(d.sent) + Outstanding(d')
            && (d'.status.Running? ==> d'.keyframeRequestInFlight)
  {
    OneMore(d.sent, RequestKeyframe);
  }

  lemma FrameRequests(d: Desktop, frame: VideoFrame, env: Env)
    requires d.status.Running?
    ensures var d', input := OnVideoFrame(d, frame, env), Message(VideoFrameMessage(frame), env);
            Requests(d'.sent) + Outstanding(d) == Requests(d.sent) + Outstanding(d') + if Answers(d, input) then 1 else 0
  {
    var d1 := if frame.isKeyframe then d.(keyframeRequestInFlight := false) else d;
    AskOnce(d1, env);
    hide AskKeyframe, Requests;
  }

  predicate SameRequests(d: Desktop, d': Desktop) {
    d'.keyframeRequestInFlight == d.keyframeRequestInFlight && Requests(d'.sent) == Requests(d.sent)
  }

  lemma ConfigurationAsked(d: Desktop, d1: Desktop, requested: StreamProfile, kind: PendingKind, env: Env)
    requires d1.sent == d.sent && d1.keyframeRequestInFlight == d.keyframeRequestInFlight
    ensures SameRequests(d, Request(d1, requested, kind, env))
  {
    OneMore(d.sent, ConfigureStream(NextRequestId(d1.requestCounter), requested));
  }

  lemma ResultRequests(d: Desktop, id: U32, outcome: Outcome, env: Env)
    ensures SameRequests(d, OnResult(d, id, outcome, env))
  {
    hide Request, Requests, Decoding.Reset;
    if outcome.Applied? {
      var d1 := CommitAndReset(d, outcome.profile, env).0;
      ConfigurationAsked(d, d1, d.active, Compensation(d.active, CommitFailed, None), env);
      if d.pending.Some? && d.pending.value.kind.Configure? {
        var kind, d2 := d.pending.value.kind, CommitAndReset(d.(pending := None), outcome.profile, env).0;
        ConfigurationAsked(d, d2, kind.prior, Compensation(kind.prior, CommitFailed, kind.reply), env);
      }
    }
  }

  lemma CommandRequests(d: Desktop, command: Command, env: Env)
    ensures SameRequests(d, OnCommand(d, command, env))
  {
    hide Request, Requests;
    var d1 := d.(taken := d.taken + [Taken(command, d.active)]);
    var resolved := ResolveProfile(d.common, command);
    if resolved.Ok? {
      ConfigurationAsked(d, d1, resolved.value, Configure(d.active, Some(|d.taken|)), env);
    }
  }

  /** No other step touches the flag, or asks for a keyframe. */
  lemma OtherRequests(d: Desktop, input: Input)
    requires d.status.Running? && !input.DecoderEvent? && !(input.Message? && input.message.VideoFrameMessage?)
    ensures SameRequests(d, Step(d, input))
  {
    hide Requests;
    match input
    case TakeCommand(command, env) => CommandRequests(d, command, env);
    case Message(ConfigurationResult(id, outcome), env) => ResultRequests(d, id, outcome, env);
    case UserSwitchesCamera(front) => OneMore(d.sent, SwitchCamera(front));
    case _ =>
  }

  lemma StepRequests(d: Desktop, input: Input)
    ensures Requests(Step(d, input).sent) + Outstanding(d)
         == Requests(d.sent) + Outstanding(Step(d, input)) + if Answers(d, input) then 1 else 0
  {
    if d.status.Running? {
      if input.DecoderEvent? {
        if d.worker.events != [] { AskOnce(d.(worker := Decoding.TakeEvent(d.worker)), input.env); }
      } else if input.Message? && input.message.VideoFrameMessage? {
        FrameRequests(d, input.message.frame, input.env);
      } else {
        OtherRequests(d, input);
      }
    }
  }

  /** In every run, the requests sent are the requests answered, and one more while one is outstanding: the desktop
      never asks again before a keyframe of the active profile has come. */
  lemma {:induction false} RequestsAreAnswered(
    local: seq<StreamProfile>, phone: Handshake, env: Env, inputs: seq<Input>)
    requires Start(local, phone, env).Ok?
    ensures var d := Start(local, phone, env).value;
            Requests(Run(d, inputs).sent) == Answered(d, inputs) + Outstanding(Run(d, inputs))
  {
    hide Step, Requests;
    if inputs == [] {
      NoRequests();
    } else {
      var init := inputs[..|inputs| - 1];
      RequestsAreAnswered(local, phone, env, init);
      StepRequests(Run(Start(local, phone, env).value, init), inputs[|inputs| - 1]);
    }
  }

  lemma NoRequests()
    ensures Requests([]) == 0
  {
  }

  /** The decoder asks for a keyframe, or the queue has no room for one that came. */
  predicate Needs(d: Desktop, input: Input) {
    && d.status.Running?
    && (|| (input.DecoderEvent? && d.worker.events != [] && d.worker.events[0].RecoveryRequired?)
        || (KeyframeComes(d, input) && !Decoding.TrySend(d.worker, input.message.frame).1))
  }

  predicate KeyframeComes(d: Desktop, input: Input) {
    && d.status.Running? && input.Message? && input.message.VideoFrameMessage?
    && input.message.frame.isKeyframe && ValidateAgainst(input.message.frame, d.active).Ok?
  }

  /** A keyframe of the active profile reaches the decoder's queue. */
  predicate Queues(d: Desktop, input: Input) {
    KeyframeComes(d, input) && Decoding.TrySend(d.worker, input.message.frame).1
  }

  lemma NeedIsAskedFor(d: Desktop, input: Input)
    requires Needs(d, input)
    ensures Step(d, input).status.Running? ==> Step(d, input).keyframeRequestInFlight
  {
  }

  lemma RequestStays(d: Desktop, input: Input)
    requires d.status.Running? ==> d.keyframeRequestInFlight
    requires !Queues(d, input)
    ensures Step(d, input).status.Running? ==> Step(d, input).keyframeRequestInFlight
  {
    if d.status.Running? {
      if input.DecoderEvent? || (input.Message? && input.message.VideoFrameMessage?) {
        hide Requests, Decoding.TrySend, Decoding.TakeEvent;
      } else {
        OtherRequests(d, input);
        hide Step, Requests;
      }
    }
  }

  lemma {:induction false} RequestStaysOverRuns(d: Desktop, inputs: seq<Input>)
    requires d.status.Running? ==> d.keyframeRequestInFlight
    requires forall i | 0 <= i < |inputs| :: !Queues(Run(d, inputs[..i]), inputs[i])
    ensures Run(d, inputs).status.Running? ==> Run(d, inputs).keyframeRequestInFlight
  {
    hide Step, Queues;
    if inputs != [] {
      var init, n := inputs[..|inputs| - 1], |inputs| - 1;
      assert forall i | 0 <= i < n :: init[..i] == inputs[..i] && init[i] == inputs[i];
      RequestStaysOverRuns(d, init);
      assert !Queues(Run(d, inputs[..n]), inputs[n]);
      RequestStays(Run(d, init), inputs[n]);
    }
  }

  /** Once a keyframe is needed, a request for one is outstanding in every running state of every run until a keyframe
      of the active profile reaches the decoder's queue. */
  lemma NeedStaysAskedFor(d: Desktop, need: Input, inputs: seq<Input>)
    requires Needs(d, need)
    requires forall i | 0 <= i < |inputs| :: !Queues(Run(Step(d, need), inputs[..i]), inputs[i])
    ensures Run(Step(d, need), inputs).status.Running? ==> Run(Step(d, need), inputs).keyframeRequestInFlight
  {
    NeedIsAskedFor(d, need);
    RequestStaysOverRuns(Step(d, need), inputs);
    hide Step, Queues, Run;
  }
}
