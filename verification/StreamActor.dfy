/** The desktop actor in the form the source gives it: local state updated arm by arm. Each arm computes the step of
    the same name in Pipeline, keeps the actor coherent, and gives no untrue reply. */
module StreamActor {

  import opened Wrappers
  import opened Protocol
  import opened Pipeline
  import Decoding

  /** Between these two states of a running, coherent actor, at most one reply was given, which is true of the second,
      and the second is coherent. */
  ghost predicate KeepsItsWord(before: Desktop, after: Desktop) {
    Coherent(before) && before.status.Running? ==> Coherent(after) && RepliesHonestly(before, after)
  }

  lemma StepKeepsItsWord(d: Desktop, input: Input)
    ensures KeepsItsWord(d, Step(d, input))
  {
    if Coherent(d) {
      StepKeepsCoherence(d, input);
      StepReplies(d, input);
    }
    hide Coherent, Step, RepliesHonestly;
  }

  lemma ArmsKeepTheirWord(d: Desktop, expired: bool, env: Env)
    ensures KeepsItsWord(d, Pipeline.OnTick(d, expired)) && KeepsItsWord(d, Pipeline.OnDecoderEvent(d, env))
  {
    StepKeepsItsWord(d, Tick(expired));
    StepKeepsItsWord(d, DecoderEvent(env));
    hide Coherent, RepliesHonestly, Pipeline.OnTick, Pipeline.OnDecoderEvent;
  }

  lemma CommandKeepsItsWord(d: Desktop, command: Command, env: Env)
    ensures KeepsItsWord(d, Pipeline.OnCommand(d, command, env))
  {
    StepKeepsItsWord(d, TakeCommand(command, env));
    hide Coherent, RepliesHonestly, Pipeline.OnCommand;
  }

  lemma MessageKeepsItsWord(d: Desktop, message: PhoneMessage, env: Env)
    ensures KeepsItsWord(d, Pipeline.OnMessage(d, message, env))
  {
    StepKeepsItsWord(d, Message(message, env));
    hide Coherent, RepliesHonestly, Pipeline.OnMessage;
  }

  class StreamConnection {
    const local: seq<StreamProfile>
    var peer: seq<StreamProfile>
    var common: seq<StreamProfile>
    var active: StreamProfile
    var requestCounter: U32
    var pending: Option<Pending>
    var keyframeRequestInFlight: bool
    var committed: Option<StreamProfile>
    var worker: Decoding.Worker
    var status: Status
    var taken: seq<Taken>
    var replies: seq<Reply>
    var sent: seq<DesktopMessage>

    function State(): Desktop
      reads this
    {
      Desktop(local, peer, common, active, requestCounter, pending, keyframeRequestInFlight, committed, worker,
              status, taken, replies, sent)
    }

    constructor (start: Desktop)
      ensures State() == start
    {
      local, peer, common, active := start.local, start.peer, start.common, start.active;
      requestCounter, pending := start.requestCounter, start.pending;
      keyframeRequestInFlight, committed := start.keyframeRequestInFlight, start.committed;
      worker, status := start.worker, start.status;
      taken, replies, sent := start.taken, start.replies, start.sent;
    }

    method Answer(ticket: Option<nat>, result: Result<StreamProfile, ActorError>)
      modifies this
      ensures State() == Pipeline.Answer(old(State()), ticket, result)
    {
      if ticket.Some? {
        replies := replies + [Reply(ticket.value, result)];
      }
    }

    method Request(requested: StreamProfile, kind: PendingKind, env: Env)
      requires pending.None?
      modifies this
      ensures State() == Pipeline.Request(old(State()), requested, kind, env)
    {
      requestCounter := (requestCounter + 1) % 0x1_0000_0000;
      if requestCounter == 0 {
        requestCounter := 1;
      }
      if !env.sends {
        status := Failed(ConnectionClosed);
        return;
      }
      sent := sent + [ConfigureStream(requestCounter, requested)];
      pending := Some(Pending(requestCounter, requested, kind));
    }

    method CommitAndReset(p: StreamProfile, env: Env) returns (ok: bool)
      modifies this
      ensures (State(), ok) == Pipeline.CommitAndReset(old(State()), p, env)
    {
      if !env.commits {
        return false;
      }
      committed := Some(p);
      var result := Decoding.Reset(worker, p.codec, env.starts);
      worker := result.0;
      return result.1;
    }

    method AskKeyframe(env: Env)
      modifies this
      ensures State() == Pipeline.AskKeyframe(old(State()), env)
    {
      if !keyframeRequestInFlight {
        if !env.sends {
          status := Failed(ConnectionClosed);
          return;
        }
        sent := sent + [RequestKeyframe];
        keyframeRequestInFlight := true;
      }
    }

    method OnTick(expired: bool)
      modifies this
      ensures State() == Pipeline.OnTick(old(State()), expired)
      ensures KeepsItsWord(old(State()), State())
    {
      ArmsKeepTheirWord(State(), expired, Env(true, true, true, true, true));
      hide KeepsItsWord;
      if pending.Some? && expired {
        var kind := pending.value.kind;
        pending := None;
        match kind {
          case Configure(_, reply) => Answer(reply, Err(TimedOut));
          case Compensation(_, error, reply) =>
            Answer(reply, Err(error));
            status := Failed(TimedOut);
        }
      }
    }

    method OnCommand(command: Command, env: Env)
      requires pending.None?
      modifies this
      ensures State() == Pipeline.OnCommand(old(State()), command, env)
      ensures KeepsItsWord(old(State()), State())
    {
      CommandKeepsItsWord(State(), command, env);
      hide KeepsItsWord;
      var ticket := Some(|taken|);
      taken := taken + [Taken(command, active)];
      var resolved := ResolveProfile(common, command);
      if resolved.Err? {
        Answer(ticket, Err(resolved.error));
        return;
      }
      var requested := resolved.value;
      if !env.preflights {
        Answer(ticket, Err(PreflightFailed));
        return;
      }
      if requested == active {
        Answer(ticket, Ok(active));
        return;
      }
      Request(requested, Configure(active, ticket), env);
    }

    method OnDecoderEvent(env: Env)
      modifies this
      ensures State() == Pipeline.OnDecoderEvent(old(State()), env)
      ensures KeepsItsWord(old(State()), State())
    {
      ArmsKeepTheirWord(State(), false, env);
      hide KeepsItsWord;
      if worker.events == [] {
        if !worker.alive {
          status := Failed(WorkerStopped);
        }
        return;
      }
      var event := worker.events[0];
      worker := Decoding.TakeEvent(worker);
      match event {
        case Frame(picture, _) =>
          if committed.None? || picture.width != committed.value.width || picture.height != committed.value.height
             || !env.writes {
            status := Failed(OutputFailed);
          }
        case RecoveryRequired => AskKeyframe(env);
        case Error =>
      }
    }

    method OnVideoFrame(frame: VideoFrame, env: Env)
      modifies this
      ensures State() == Pipeline.OnVideoFrame(old(State()), frame, env)
      ensures KeepsItsWord(old(State()), State())
    {
      MessageKeepsItsWord(State(), VideoFrameMessage(frame), env);
      hide KeepsItsWord;
      if ValidateAgainst(frame, active).Err? {
        return;
      }
      if frame.isKeyframe {
        keyframeRequestInFlight := false;
      }
      var queued := Decoding.TrySend(worker, frame);
      worker := queued.0;
      if !queued.1 && frame.isKeyframe {
        AskKeyframe(env);
      }
    }

    method OnCapabilities(profiles: seq<StreamProfile>)
      modifies this
      ensures State() == Pipeline.OnCapabilities(old(State()), profiles)
      ensures KeepsItsWord(old(State()), State())
    {
      MessageKeepsItsWord(State(), CapabilitiesUpdate(profiles), Env(true, true, true, true, true));
      hide KeepsItsWord;
      if ValidateUpdate(profiles, active).Ok? {
        peer := profiles;
        common := CommonProfiles(local, peer);
      }
    }

    method OnUnsolicited(outcome: Outcome, env: Env)
      requires pending.None?
      modifies this
      ensures State() == Pipeline.OnUnsolicited(old(State()), outcome, env)
      ensures KeepsItsWord(old(State()), State())
    {
      MessageKeepsItsWord(State(), ConfigurationResult(0, outcome), env);
      hide KeepsItsWord;
      if outcome.Applied? && outcome.profile in common {
        var prior := active;
        var ok := CommitAndReset(outcome.profile, env);
        if ok {
          active := outcome.profile;
        } else {
          Request(prior, Compensation(prior, CommitFailed, None), env);
        }
      }
    }

    method OnConfigured(requested: StreamProfile, prior: StreamProfile, reply: Option<nat>, outcome: Outcome, env: Env)
      requires pending.None?
      modifies this
      ensures State() == Pipeline.OnAnswer(old(State()), requested, Configure(prior, reply), outcome, env)
    {
      if outcome.Applied? && AcceptsApplied(common, requested, outcome.profile) {
        var ok := CommitAndReset(outcome.profile, env);
        if ok {
          active := outcome.profile;
          Answer(reply, Ok(outcome.profile));
        } else {
          Request(prior, Compensation(prior, CommitFailed, reply), env);
        }
      } else {
        Answer(reply, Err(Rejected(outcome)));
      }
    }

    method OnCompensated(requested: StreamProfile, prior: StreamProfile, error: ActorError, reply: Option<nat>,
                         outcome: Outcome, env: Env)
      requires pending.None?
      modifies this
      ensures State() == Pipeline.OnAnswer(old(State()), requested, Compensation(prior, error, reply), outcome, env)
    {
      if outcome == Applied(prior) {
        var ok := CommitAndReset(prior, env);
        if !ok {
          status := Failed(RestoreFailed);
          return;
        }
        active := prior;
        Answer(reply, Err(error));
      } else {
        Answer(reply, Err(error));
        status := Failed(CompensationFailed);
      }
    }

    method OnResult(id: U32, outcome: Outcome, env: Env)
      modifies this
      ensures State() == Pipeline.OnResult(old(State()), id, outcome, env)
      ensures KeepsItsWord(old(State()), State())
    {
      MessageKeepsItsWord(State(), ConfigurationResult(id, outcome), env);
      hide KeepsItsWord;
      if id == 0 && pending.None? {
        OnUnsolicited(outcome, env);
        return;
      }
      if pending.None? || pending.value.id != id {
        return;
      }
      var current := pending.value;
      pending := None;
      match current.kind {
        case Configure(prior, reply) => OnConfigured(current.requested, prior, reply, outcome, env);
        case Compensation(prior, error, reply) =>
          OnCompensated(current.requested, prior, error, reply, outcome, env);
      }
    }

    method OnMessage(message: PhoneMessage, env: Env)
      modifies this
      ensures State() == Pipeline.OnMessage(old(State()), message, env)
      ensures KeepsItsWord(old(State()), State())
    {
      MessageKeepsItsWord(State(), message, env);
      hide KeepsItsWord;
      match message {
        case VideoFrameMessage(frame) => OnVideoFrame(frame, env);
        case CapabilitiesUpdate(profiles) => OnCapabilities(profiles);
        case ConfigurationResult(id, outcome) => OnResult(id, outcome, env);
        case PhoneDisconnect => status := Exited(PeerDisconnected);
        case OtherPhoneMessage =>
      }
    }

    /** One turn of the select loop. */
    method Turn(input: Input)
      requires status.Running?
      modifies this
      ensures State() == Step(old(State()), input)
      ensures KeepsItsWord(old(State()), State())
    {
      StepKeepsItsWord(State(), input);
      hide KeepsItsWord;
      match input {
        case Shutdown => status := Exited(ShutdownRequested);
        case PeerLost => status := Exited(PeerDisconnected);
        case Tick(expired) => OnTick(expired);
        case CommandsClosedInput => if pending.None? { status := Failed(CommandsClosed); }
        case TakeCommand(command, env) => if pending.None? { OnCommand(command, env); }
        case DecoderEvent(env) => OnDecoderEvent(env);
        case Message(message, env) => OnMessage(message, env);
        case WorkerTurn(outcome, restarts) => worker := Decoding.Work(worker, outcome, restarts);
        case UserSwitchesCamera(front) => sent := sent + [SwitchCamera(front)];
      }
    }

    /** The loop itself, over whatever happens next, until the actor returns. */
    method Loop(inputs: seq<Input>)
      requires Coherent(State())
      modifies this
      ensures State() == Run(old(State()), inputs)
      ensures Coherent(State())
    {
      var i := 0;
      while i < |inputs| && status.Running?
        invariant 0 <= i <= |inputs|
        invariant State() == Run(old(State()), inputs[..i])
        invariant Coherent(State())
      {
        StepKeepsCoherence(State(), inputs[i]);
        assert inputs[..i + 1][..i] == inputs[..i];
        Turn(inputs[i]);
        i := i + 1;
      }
      StoppedRun(old(State()), inputs, i);
      assert inputs[..|inputs|] == inputs;
    }
  }
}
