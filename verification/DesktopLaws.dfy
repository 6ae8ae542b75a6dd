/** What the desktop owes its two sides: every frame it can queue is handed to the decoder, every picture it can show
    is written, every command is answered or asked of the phone, and every answer of the phone has its effect. Each law
    speaks of the state and the input before a step and of the state after it. */
module DesktopLaws {

  import opened Wrappers
  import opened Protocol
  import opened Pipeline
  import Decoding

  // ----- Frames -----

  /** A video frame of the active codec, width and height arrives. */
  predicate FrameComes(d: Desktop, input: Input) {
    && d.status.Running? && input.Message? && input.message.VideoFrameMessage?
    && input.message.frame.codec == d.active.codec
    && input.message.frame.width == d.active.width && input.message.frame.height == d.active.height
  }

  /** The phone's answer makes the desktop commit a profile and restart its live decoder. */
  predicate Restarts(d: Desktop, input: Input) {
    && d.status.Running? && d.worker.alive
    && input.Message? && input.message.ConfigurationResult? && input.message.outcome.Applied? && input.env.commits
    && var id, p := input.message.id, input.message.outcome.profile;
       if id == 0 && d.pending.None? then p in d.common
       else
         && d.pending.Some? && d.pending.value.id == id
         && match d.pending.value.kind
            case Configure(_, _) => p in d.common && SameShape(p, d.pending.value.requested)
            case Compensation(prior, _, _) => p == prior
  }

  /** A frame that matches goes to the end of a live decoder's queue if fewer than two wait there; otherwise the queue
      is as it was. A keyframe answers the outstanding request, and one that finds no room is asked for again; nothing
      else changes. */
  lemma FrameIsHandedOver(d: Desktop, frame: VideoFrame, env: Env)
    requires d.status.Running?
    ensures var input := Message(VideoFrameMessage(frame), env);
            var comes, room := FrameComes(d, input), d.worker.alive && |d.worker.frames| < 2;
            var key := comes && frame.isKeyframe;
            Step(d, input) ==
            d.(worker := if comes && room then d.worker.(frames := d.worker.frames + [frame]) else d.worker,
               keyframeRequestInFlight := if key then !room && env.sends else d.keyframeRequestInFlight,
               sent := if key && !room && env.sends then d.sent + [RequestKeyframe] else d.sent,
               status := if key && !room && !env.sends then Failed(ConnectionClosed) else Running)
  {
  }

  /** The frames handed to the decoder since it was last restarted, and how many of them it has handled. */
  datatype Handover = Handover(handed: seq<VideoFrame>, handled: nat)

  ghost function Handed(d: Desktop, inputs: seq<Input>): Handover {
    if inputs == [] then Handover(d.worker.frames, 0)
    else
      var init, last := inputs[..|inputs| - 1], inputs[|inputs| - 1];
      var h, s := Handed(d, init), Run(d, init);
      if Restarts(s, last) then Handover([], 0)
      else if FrameComes(s, last) && s.worker.alive && |h.handed| - h.handled < 2
      then h.(handed := h.handed + [last.message.frame])
      else if last.WorkerTurn? && s.status.Running? && s.worker.alive && h.handled < |h.handed|
      then h.(handled := h.handled + 1)
      else h
  }

  lemma ResultKeepsQueue(d: Desktop, id: U32, outcome: Outcome, env: Env)
    requires d.status.Running? && !Restarts(d, Message(ConfigurationResult(id, outcome), env))
    ensures OnResult(d, id, outcome, env).worker.frames == d.worker.frames
  {
  }

  /** No other input touches the queue. */
  lemma QueueUntouched(d: Desktop, input: Input)
    requires !input.WorkerTurn? && !(input.Message? && input.message.VideoFrameMessage?) && !Restarts(d, input)
    ensures Step(d, input).worker.frames == d.worker.frames
  {
    if d.status.Running? && input.Message? && input.message.ConfigurationResult? {
      ResultKeepsQueue(d, input.message.id, input.message.outcome, input.env);
      hide OnResult;
    } else {
      hide Restarts, OnResult, ResolveProfile, ValidateUpdate, CommonProfiles;
    }
  }

  lemma RestartEmptiesQueue(d: Desktop, input: Input)
    requires Restarts(d, input)
    ensures Step(d, input).worker.frames == []
  {
  }

  lemma TurnTakesOne(d: Desktop, outcome: Decoding.DecodeOutcome, restarts: bool)
    requires d.status.Running?
    ensures Step(d, WorkerTurn(outcome, restarts)).worker.frames ==
            if d.worker.alive && d.worker.frames != [] then d.worker.frames[1..] else d.worker.frames
  {
  }

  /** In every run the decoder's queue holds, in order, exactly the matching frames that arrived while there was room
      since the decoder was last restarted, without those it has handled. */
  lemma {:induction false} QueueIsWhatArrived(d: Desktop, inputs: seq<Input>)
    ensures var h := Handed(d, inputs);
            h.handled <= |h.handed| && Run(d, inputs).worker.frames == h.handed[h.handled..]
  {
    if inputs != [] {
      var init, last := inputs[..|inputs| - 1], inputs[|inputs| - 1];
      QueueIsWhatArrived(d, init);
      var h, s := Handed(d, init), Run(d, init);
      if Restarts(s, last) {
        RestartEmptiesQueue(s, last);
      } else if last.Message? && last.message.VideoFrameMessage? && s.status.Running? {
        FrameIsHandedOver(s, last.message.frame, last.env);
      } else if last.WorkerTurn? && s.status.Running? {
        TurnTakesOne(s, last.outcome, last.restarts);
      } else if s.status.Running? {
        QueueUntouched(s, last);
      }
      hide Step, Restarts;
      assert h.handed[h.handled..] + [] == h.handed[h.handled..];
    }
  }

  // ----- Pictures -----

  /** A picture at the head of the queue is written, and nothing else changes but that it is taken, exactly if it has
      the committed size and the write succeeds; otherwise the actor ends. */
  lemma PictureIsWritten(d: Desktop, env: Env)
    requires d.status.Running? && d.worker.events != [] && d.worker.events[0].Frame?
    ensures var d', picture := Step(d, DecoderEvent(env)), d.worker.events[0].picture;
            var fits := d.committed.Some? && picture.width == d.committed.value.width && picture.height == d.committed.value.height;
            && (d'.status.Running? <==> fits && env.writes)
            && d' == d.(worker := d.worker.(events := d.worker.events[1..]),
                        status := if fits && env.writes then Running else Failed(OutputFailed))
  {
  }

  /** Over every run, outside a compensation: a decoded picture ends the actor exactly if it has not the active size or
      cannot be written. */
  lemma GoodPicturesAreWritten(
    local: seq<StreamProfile>, phone: Handshake, env: Env, inputs: seq<Input>, last: Env)
    requires Start(local, phone, env).Ok?
    requires var d := Run(Start(local, phone, env).value, inputs);
             d.status.Running? && !Compensating(d) && d.worker.events != [] && d.worker.events[0].Frame?
    ensures var d := Run(Start(local, phone, env).value, inputs);
            var d', picture := Step(d, DecoderEvent(last)), d.worker.events[0].picture;
            d'.status.Running? <==> picture.width == d.active.width && picture.height == d.active.height && last.writes
  {
    RunsAreCoherent(local, phone, env, inputs);
    PictureIsWritten(Run(Start(local, phone, env).value, inputs), last);
    hide Run, Step, Start;
  }

  /** Any other decoder event is taken and never ends the actor, but for a request that cannot be sent; a decoder that
      ended with nothing left to show ends the actor. */
  lemma OtherEventsAreTaken(d: Desktop, env: Env)
    requires d.status.Running? && (d.worker.events == [] || !d.worker.events[0].Frame?)
    ensures var d' := Step(d, DecoderEvent(env));
            if d.worker.events == [] then d' == d.(status := if d.worker.alive then Running else Failed(WorkerStopped))
            else
              var asks := d.worker.events[0].RecoveryRequired? && !d.keyframeRequestInFlight;
              d' == d.(worker := d.worker.(events := d.worker.events[1..]),
                       sent := if asks && env.sends then d.sent + [RequestKeyframe] else d.sent,
                       keyframeRequestInFlight := d.keyframeRequestInFlight || (asks && env.sends),
                       status := if asks && !env.sends then Failed(ConnectionClosed) else Running)
  {
  }

  // ----- Commands -----

  /** The profile a command asks for: HEVC if both sides have it and the command allows it, else H.264 likewise. */
  function Wanted(d: Desktop, c: Command): Option<StreamProfile> {
    var hevc, h264 := StreamProfile(Hevc, c.width, c.height, c.fps), StreamProfile(H264, c.width, c.height, c.fps);
    if c.preference != PreferH264 && hevc in d.local && hevc in d.peer then Some(hevc)
    else if c.preference != PreferHevc && h264 in d.local && h264 in d.peer then Some(h264)
    else None
  }

  /** The error a command gets at once, if any. */
  function CannotAsk(d: Desktop, c: Command, env: Env): Option<ActorError> {
    if Wanted(d, c).None? then Some(UnsupportedCommon) else if !env.preflights then Some(PreflightFailed) else None
  }

  /** The next request id: they run through 1 to 2^32 - 1. */
  function NextId(counter: U32): U32 {
    if counter == 0xFFFF_FFFF then 1 else counter + 1
  }

  /** What asking the phone for a profile leaves: the request is pending under the next id, or the connection is closed
      and the actor ends. */
  function Asking(d: Desktop, p: StreamProfile, kind: PendingKind, sends: bool): Desktop {
    var id := NextId(d.requestCounter);
    if sends then d.(requestCounter := id, sent := d.sent + [ConfigureStream(id, p)], pending := Some(Pending(id, p, kind)))
    else d.(requestCounter := id, pending := None, status := Failed(ConnectionClosed))
  }

  /** A command is refused at once exactly if no common profile fits it or the output cannot show it; it succeeds at
      once exactly if its profile is active; otherwise the phone is asked for that profile. While a request is pending
      no command is taken. */
  lemma CommandIsTaken(d: Desktop, c: Command, env: Env)
    requires d.status.Running? && d.common == CommonProfiles(d.local, d.peer)
    ensures var d', error, ticket := Step(d, TakeCommand(c, env)), CannotAsk(d, c, env), |d.taken|;
            var noted := d.(taken := d.taken + [Taken(c, d.active)]);
            if d.pending.Some? then d' == d
            else if error.Some? then d' == noted.(replies := d.replies + [Reply(ticket, Err(error.value))])
            else if Wanted(d, c).value == d.active then d' == noted.(replies := d.replies + [Reply(ticket, Ok(d.active))])
            else d' == Asking(noted, Wanted(d, c).value, Configure(d.active, Some(ticket)), env.sends)
  {
    ResolveProfileMeaning(d.common, c);
    CommonProfilesMeaning(d.local, d.peer, StreamProfile(Hevc, c.width, c.height, c.fps));
    CommonProfilesMeaning(d.local, d.peer, StreamProfile(H264, c.width, c.height, c.fps));
    hide ResolveProfile, CommonProfiles;
  }

  // ----- Answers -----

  function Told(d: Desktop, ticket: Option<nat>, result: Result<StreamProfile, ActorError>): Desktop {
    if ticket.None? then d else d.(replies := d.replies + [Reply(ticket.value, result)])
  }

  /** Committing a profile and restarting a live decoder for it goes through. */
  predicate GoesThrough(d: Desktop, p: StreamProfile, env: Env) {
    env.commits && d.worker.alive && (p.codec.Hevc? || env.starts)
  }

  /** The decoder is as new, for this codec. */
  ghost predicate AsNew(w: Decoding.Worker, codec: VideoCodec) {
    w.alive && w.codec == codec && w.waitingForIdr && Decoding.Backend(w) == [] && w.frames == [] && w.events == []
  }

  /** The desktop after a change went through, but for the new decoder. */
  ghost predicate Switched(d: Desktop, d': Desktop, p: StreamProfile) {
    AsNew(d'.worker, p.codec) && d' == d.(active := p, committed := Some(p), worker := d'.worker)
  }

  /** The desktop after a change did not go through: the output may be committed, waiting frames may be dropped. */
  ghost predicate HalfWay(d: Desktop, d': Desktop, p: StreamProfile, env: Env) {
    && d' == d.(committed := if env.commits then Some(p) else d.committed, worker := d'.worker)
    && d'.worker == d.worker.(frames := if env.commits && d.worker.alive then [] else d.worker.frames)
  }

  lemma CommitAndResetMeans(d: Desktop, p: StreamProfile, env: Env)
    ensures var (d', ok) := CommitAndReset(d, p, env);
            && (ok <==> GoesThrough(d, p, env))
            && (ok ==> Switched(d, d'.(active := p), p) && d'.active == d.active)
            && (!ok ==> HalfWay(d, d', p, env))
  {
  }

  lemma AskingIsRequest(d: Desktop, p: StreamProfile, kind: PendingKind, env: Env)
    ensures Pipeline.Request(d, p, kind, env) == Asking(d, p, kind, env.sends)
  {
  }

  /** The answer to a command's request. If the phone applied a common profile of the asked size and rate and the
      change goes through, it is active and committed and the command succeeds; if it does not go through, the phone is
      asked for the old profile; any other answer refuses the command and changes nothing. */
  lemma ConfigureIsAnswered(d: Desktop, outcome: Outcome, env: Env)
    requires d.status.Running? && d.pending.Some? && d.pending.value.kind.Configure? && d.pending.value.id != 0
    ensures var d', free, kind := Step(d, Message(ConfigurationResult(d.pending.value.id, outcome), env)), d.(pending := None), d.pending.value.kind;
            if outcome.Applied? && outcome.profile in d.common && SameShape(outcome.profile, d.pending.value.requested) then
              var p := outcome.profile;
              if GoesThrough(d, p, env) then exists s :: Switched(free, s, p) && d' == Told(s, kind.reply, Ok(p))
              else exists h :: HalfWay(free, h, p, env)
                     && d' == Asking(h, kind.prior, Compensation(kind.prior, CommitFailed, kind.reply), env.sends)
            else d' == Told(free, kind.reply, Err(Rejected(outcome)))
  {
    if outcome.Applied? && outcome.profile in d.common && SameShape(outcome.profile, d.pending.value.requested) {
      var free, p, kind := d.(pending := None), outcome.profile, d.pending.value.kind;
      CommitAndResetMeans(free, p, env);
      var (d1, ok) := CommitAndReset(free, p, env);
      hide CommitAndReset, Switched, HalfWay, Pipeline.Request;
      if ok {
        assert Switched(free, d1.(active := p), p);
      } else {
        AskingIsRequest(d1, kind.prior, Compensation(kind.prior, CommitFailed, kind.reply), env);
        assert HalfWay(free, d1, p, env);
      }
    }
  }

  /** The answer to a compensation. If the phone is back at the old profile and the desktop gets there too, the old
      profile is active and committed again and the command fails with the first error; anything else ends the actor. */
  lemma CompensationIsAnswered(d: Desktop, outcome: Outcome, env: Env)
    requires d.status.Running? && Compensating(d) && d.pending.value.id != 0
    ensures var d', free, kind := Step(d, Message(ConfigurationResult(d.pending.value.id, outcome), env)), d.(pending := None), d.pending.value.kind;
            if outcome == Applied(kind.prior) then
              if GoesThrough(d, kind.prior, env)
              then exists s :: Switched(free, s, kind.prior) && d' == Told(s, kind.reply, Err(kind.error))
              else exists h :: HalfWay(free, h, kind.prior, env) && d' == h.(status := Failed(RestoreFailed))
            else d' == Told(free, kind.reply, Err(kind.error)).(status := Failed(CompensationFailed))
  {
    var free, p := d.(pending := None), d.pending.value.kind.prior;
    if outcome == Applied(p) {
      CommitAndResetMeans(free, p, env);
      var (d1, ok) := CommitAndReset(free, p, env);
      hide CommitAndReset, Switched, HalfWay;
      if ok {
        assert Switched(free, d1.(active := p), p);
      } else {
        assert HalfWay(free, d1, p, env);
      }
    }
  }

  /** While nothing is pending, a change the phone made on its own to a common profile is followed, or the phone is
      asked to take it back; any other report with id 0 changes nothing. */
  lemma SwitchIsFollowed(d: Desktop, outcome: Outcome, env: Env)
    requires d.status.Running? && d.pending.None?
    ensures var d' := Step(d, Message(ConfigurationResult(0, outcome), env));
            if outcome.Applied? && outcome.profile in d.common then
              if GoesThrough(d, outcome.profile, env) then Switched(d, d', outcome.profile)
              else exists h :: HalfWay(d, h, outcome.profile, env)
                     && d' == Asking(h, d.active, Compensation(d.active, CommitFailed, None), env.sends)
            else d' == d
  {
    if outcome.Applied? && outcome.profile in d.common {
      var p := outcome.profile;
      CommitAndResetMeans(d, p, env);
      var (d1, ok) := CommitAndReset(d, p, env);
      hide CommitAndReset, Switched, HalfWay, Pipeline.Request;
      if !ok {
        AskingIsRequest(d1, d.active, Compensation(d.active, CommitFailed, None), env);
        assert HalfWay(d, d1, p, env);
      }
    }
  }

  /** A result that does not carry the pending id changes nothing, nor does one while nothing is pending, except id 0. */
  lemma StrayResultIsIgnored(d: Desktop, id: U32, outcome: Outcome, env: Env)
    requires if d.pending.Some? then id != d.pending.value.id else id != 0
    ensures Step(d, Message(ConfigurationResult(id, outcome), env)) == d
  {
  }

  /** Only a request that is past its deadline times out. A command's request then fails and the connection goes on;
      a compensation fails with its first error and ends the actor. */
  lemma TimeoutIsTold(d: Desktop, expired: bool)
    requires d.status.Running?
    ensures var d', free := Step(d, Tick(expired)), d.(pending := None);
            if d.pending.None? || !expired then d' == d
            else if Compensating(d)
            then d' == Told(free, d.pending.value.kind.reply, Err(d.pending.value.kind.error)).(status := Failed(TimedOut))
            else d' == Told(free, d.pending.value.kind.reply, Err(TimedOut))
  {
  }

  /** The phone's list is taken over exactly if it is non-empty, legal, without duplicates and holds the active
      profile; the common list is then what both sides support. Otherwise nothing changes. */
  lemma ListIsTakenOver(d: Desktop, profiles: seq<StreamProfile>, env: Env)
    requires d.status.Running?
    ensures var d' := Step(d, Message(CapabilitiesUpdate(profiles), env));
            if profiles != [] && AllValid(profiles) && Distinct(profiles) && d.active in profiles then
              && d' == d.(peer := profiles, common := d'.common)
              && forall p :: p in d'.common <==> p in d.local && p in profiles
            else d' == d
  {
    ValidateProfilesMeaning(profiles);
    forall p ensures p in CommonProfiles(d.local, profiles) <==> p in d.local && p in profiles {
      CommonProfilesMeaning(d.local, profiles, p);
    }
    hide ValidateProfiles, AllValid, Distinct, CommonProfiles;
  }

  /** A connection starts exactly if both sides support the phone's active profile, the output can be committed to it
      and, for H.264, the decoder starts again; it then has that profile, committed, and a new decoder. */
  lemma StartExactly(local: seq<StreamProfile>, phone: Handshake, env: Env)
    ensures Start(local, phone, env).Ok? <==>
            && phone.active.Some? && phone.active.value in local && phone.active.value in phone.supported
            && env.commits && (phone.active.value.codec.Hevc? || env.starts)
    ensures Start(local, phone, env).Ok? ==>
            var d := Start(local, phone, env).value;
            && d.status.Running? && d.active == phone.active.value && d.committed == phone.active
            && AsNew(d.worker, d.active.codec) && d.pending.None? && !d.keyframeRequestInFlight
            && d.taken == [] && d.replies == [] && d.sent == [] && d.local == local && d.peer == phone.supported
            && forall p :: p in d.common <==> p in local && p in phone.supported
  {
    forall p ensures p in CommonProfiles(local, phone.supported) <==> p in local && p in phone.supported {
      CommonProfilesMeaning(local, phone.supported, p);
    }
    hide CommonProfiles;
  }

  lemma ResultsNeverExit(d: Desktop, id: U32, outcome: Outcome, env: Env)
    requires d.status.Running?
    ensures !OnResult(d, id, outcome, env).status.Exited?
  {
    hide Decoding.Reset;
  }

  /** The actor returns without an error exactly when the desktop shuts it down, or the phone leaves or is lost. */
  lemma ExitsExactly(d: Desktop, input: Input)
    requires d.status.Running?
    ensures var status := Step(d, input).status;
            && (status == Exited(ShutdownRequested) <==> input.Shutdown?)
            && (status == Exited(PeerDisconnected) <==> input.PeerLost? || (input.Message? && input.message.PhoneDisconnect?))
  {
    if input.Message? && input.message.ConfigurationResult? {
      ResultsNeverExit(d, input.message.id, input.message.outcome, input.env);
    }
    hide ResolveProfile, ValidateUpdate, CommonProfiles, OnResult, Decoding.Work, Decoding.TrySend;
  }

  /** A camera switch of the user is sent, and nothing else changes. Closed commands end the actor once nothing is
      pending. Messages it does not know change nothing. */
  lemma SmallArms(d: Desktop, front: bool, env: Env)
    requires d.status.Running?
    ensures Step(d, UserSwitchesCamera(front)) == d.(sent := d.sent + [SwitchCamera(front)])
    ensures Step(d, CommandsClosedInput) == d.(status := if d.pending.None? then Failed(CommandsClosed) else Running)
    ensures Step(d, Message(OtherPhoneMessage, env)) == d
  {
  }
}
