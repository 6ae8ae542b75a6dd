/** The desktop side of a connection: the actor that owns the output device and the decode worker, takes
    commands from the user interface and reconfigures the phone. Whether a foreign call succeeds (committing
    the output, starting a decoder, sending on the connection) is an input of the step that makes it. */
module Pipeline {

  import opened Wrappers
  import opened Protocol
  import Decoding

  datatype CodecPreference = Auto | PreferH264 | PreferHevc

  datatype Command = Command(width: U16, height: U16, fps: U8, preference: CodecPreference)

  datatype Outcome =
    | Applied(profile: StreamProfile)
    | UnsupportedProfile
    | CaptureConfigurationFailed
    | EncoderInitializationFailed

  datatype PhoneMessage =
    | VideoFrameMessage(frame: VideoFrame)
    | CapabilitiesUpdate(profiles: seq<StreamProfile>)
    | ConfigurationResult(id: U32, outcome: Outcome)
    | PhoneDisconnect
    | OtherPhoneMessage

  datatype DesktopMessage =
    | ConfigureStream(id: U32, profile: StreamProfile)
    | RequestKeyframe
    | SwitchCamera(front: bool)
    | DesktopDisconnect
    | OtherDesktopMessage

  datatype ActorError =
    | UnsupportedCommon
    | PreflightFailed
    | TimedOut
    | Rejected(outcome: Outcome)
    | CommitFailed
    | ConnectionClosed
    | WorkerStopped
    | OutputFailed
    | RestoreFailed
    | CompensationFailed
    | CommandsClosed

  datatype StreamExit = PeerDisconnected | ShutdownRequested

  datatype Status = Running | Exited(exit: StreamExit) | Failed(error: ActorError)

  /** `reply` is the number of the command that waits for the answer. */
  datatype PendingKind =
    | Configure(prior: StreamProfile, reply: Option<nat>)
    | Compensation(prior: StreamProfile, error: ActorError, reply: Option<nat>)

  datatype Pending = Pending(id: U32, requested: StreamProfile, kind: PendingKind)

  /** A command as it was taken, with the profile that was active then. */
  datatype Taken = Taken(command: Command, active: StreamProfile)

  datatype Reply = Reply(ticket: nat, result: Result<StreamProfile, ActorError>)

  datatype Desktop = Desktop(
    local: seq<StreamProfile>,
    peer: seq<StreamProfile>,
    common: seq<StreamProfile>,
    active: StreamProfile,
    requestCounter: U32,
    pending: Option<Pending>,
    keyframeRequestInFlight: bool,
    committed: Option<StreamProfile>,
    worker: Decoding.Worker,
    status: Status,
    taken: seq<Taken>,
    replies: seq<Reply>,
    sent: seq<DesktopMessage>)

  /** How the foreign calls of one step turn out. */
  datatype Env = Env(preflights: bool, commits: bool, starts: bool, sends: bool, writes: bool)

  // ----- Pure helpers -----

  function NextRequestId(counter: U32): U32 {
    var next := (counter + 1) % 0x1_0000_0000;
    if next == 0 then 1 else next
  }

  function CommonProfiles(local: seq<StreamProfile>, peer: seq<StreamProfile>): seq<StreamProfile> {
    if local == [] then []
    else (if local[0] in peer then [local[0]] else []) + CommonProfiles(local[1..], peer)
  }

  /** The first profile of `common` with this codec and these dimensions. */
  function FindProfile(common: seq<StreamProfile>, codec: VideoCodec, c: Command): Option<StreamProfile> {
    if common == [] then None
    else if common[0].codec == codec && common[0].width == c.width && common[0].height == c.height && common[0].fps == c.fps
    then Some(common[0])
    else FindProfile(common[1..], codec, c)
  }

  function FindInOrder(common: seq<StreamProfile>, order: seq<VideoCodec>, c: Command): Option<StreamProfile> {
    if order == [] then None
    else
      var found := FindProfile(common, order[0], c);
      if found.Some? then found else FindInOrder(common, order[1..], c)
  }

  function CodecOrder(preference: CodecPreference): seq<VideoCodec> {
    match preference
    case PreferH264 => [H264]
    case PreferHevc => [Hevc]
    case Auto => [Hevc, H264]
  }

  function ResolveProfile(common: seq<StreamProfile>, c: Command): Result<StreamProfile, ActorError> {
    match FindInOrder(common, CodecOrder(c.preference), c)
    case Some(p) => Ok(p)
    case None => Err(UnsupportedCommon)
  }

  predicate SameShape(p: StreamProfile, q: StreamProfile) {
    p.width == q.width && p.height == q.height && p.fps == q.fps
  }

  predicate AcceptsApplied(common: seq<StreamProfile>, requested: StreamProfile, applied: StreamProfile) {
    applied in common && SameShape(applied, requested)
  }

  // ----- The steps of the actor, as functions of its state -----

  function Answer(d: Desktop, ticket: Option<nat>, result: Result<StreamProfile, ActorError>): Desktop {
    if ticket.Some? then d.(replies := d.replies + [Reply(ticket.value, result)]) else d
  }

  /** Ask the phone for `requested` and wait; a closed connection ends the actor. */
  function Request(d: Desktop, requested: StreamProfile, kind: PendingKind, env: Env): Desktop {
    var id := NextRequestId(d.requestCounter);
    if env.sends then
      d.(requestCounter := id, sent := d.sent + [ConfigureStream(id, requested)],
         pending := Some(Pending(id, requested, kind)))
    else d.(requestCounter := id, pending := None, status := Failed(ConnectionClosed))
  }

  /** Commit the output to `p`, then restart the decoder for its codec. */
  function CommitAndReset(d: Desktop, p: StreamProfile, env: Env): (Desktop, bool) {
    if !env.commits then (d, false)
    else
      var (worker, ok) := Decoding.Reset(d.worker, p.codec, env.starts);
      (d.(committed := Some(p), worker := worker), ok)
  }

  function AskKeyframe(d: Desktop, env: Env): Desktop {
    if d.keyframeRequestInFlight then d
    else if env.sends then d.(sent := d.sent + [RequestKeyframe], keyframeRequestInFlight := true)
    else d.(status := Failed(ConnectionClosed))
  }

  function OnTick(d: Desktop, expired: bool): Desktop {
    if d.pending.None? || !expired then d
    else
      var d1 := d.(pending := None);
      match d.pending.value.kind
      case Configure(_, reply) => Answer(d1, reply, Err(TimedOut))
      case Compensation(_, error, reply) => Answer(d1, reply, Err(error)).(status := Failed(TimedOut))
  }

  /** The command arm of the loop, which is disabled while a request is pending. */
  function OnCommand(d: Desktop, command: Command, env: Env): Desktop {
    if d.pending.Some? then d
    else
      var ticket := Some(|d.taken|);
      var d1 := d.(taken := d.taken + [Taken(command, d.active)]);
      match ResolveProfile(d.common, command)
      case Err(error) => Answer(d1, ticket, Err(error))
      case Ok(requested) =>
        if !env.preflights then Answer(d1, ticket, Err(PreflightFailed))
        else if requested == d.active then Answer(d1, ticket, Ok(d.active))
        else Request(d1, requested, Configure(d.active, ticket), env)
  }

  function OnDecoderEvent(d: Desktop, env: Env): Desktop {
    if d.worker.events == [] then
      if d.worker.alive then d else d.(status := Failed(WorkerStopped))
    else
      var d1 := d.(worker := Decoding.TakeEvent(d.worker));
      match d.worker.events[0]
      case Frame(picture, _) =>
        if d.committed.Some? && picture.width == d.committed.value.width
           && picture.height == d.committed.value.height && env.writes
        then d1
        else d1.(status := Failed(OutputFailed))
      case RecoveryRequired => AskKeyframe(d1, env)
      case Error => d1
  }

  function OnVideoFrame(d: Desktop, frame: VideoFrame, env: Env): Desktop {
    if ValidateAgainst(frame, d.active).Err? then d
    else
      var d1 := if frame.isKeyframe then d.(keyframeRequestInFlight := false) else d;
      var (worker, queued) := Decoding.TrySend(d.worker, frame);
      if queued then d1.(worker := worker)
      else if frame.isKeyframe then AskKeyframe(d1, env)
      else d1
  }

  function OnCapabilities(d: Desktop, profiles: seq<StreamProfile>): Desktop {
    if ValidateUpdate(profiles, d.active).Ok?
    then d.(peer := profiles, common := CommonProfiles(d.local, profiles))
    else d
  }

  /** A change the phone made on its own. */
  function OnUnsolicited(d: Desktop, outcome: Outcome, env: Env): Desktop {
    if outcome.Applied? && outcome.profile in d.common then
      var (d1, ok) := CommitAndReset(d, outcome.profile, env);
      if ok then d1.(active := outcome.profile)
      else Request(d1, d.active, Compensation(d.active, CommitFailed, None), env)
    else d
  }

  /** The answer to a request that was pending and no longer is. */
  function OnAnswer(d: Desktop, requested: StreamProfile, kind: PendingKind, outcome: Outcome, env: Env): Desktop {
    match kind
    case Configure(prior, reply) =>
      if outcome.Applied? && AcceptsApplied(d.common, requested, outcome.profile) then
        var (d1, ok) := CommitAndReset(d, outcome.profile, env);
        if ok then Answer(d1.(active := outcome.profile), reply, Ok(outcome.profile))
        else Request(d1, prior, Compensation(prior, CommitFailed, reply), env)
      else Answer(d, reply, Err(Rejected(outcome)))
    case Compensation(prior, error, reply) =>
      if outcome == Applied(prior) then
        var (d1, ok) := CommitAndReset(d, prior, env);
        if ok then Answer(d1.(active := prior), reply, Err(error))
        else d1.(status := Failed(RestoreFailed))
      else Answer(d, reply, Err(error)).(status := Failed(CompensationFailed))
  }

  function OnResult(d: Desktop, id: U32, outcome: Outcome, env: Env): Desktop {
    if id == 0 && d.pending.None? then OnUnsolicited(d, outcome, env)
    else if d.pending.None? || d.pending.value.id != id then d
    else OnAnswer(d.(pending := None), d.pending.value.requested, d.pending.value.kind, outcome, env)
  }

  function OnMessage(d: Desktop, message: PhoneMessage, env: Env): Desktop {
    match message
    case VideoFrameMessage(frame) => OnVideoFrame(d, frame, env)
    case CapabilitiesUpdate(profiles) => OnCapabilities(d, profiles)
    case ConfigurationResult(id, outcome) => OnResult(d, id, outcome, env)
    case PhoneDisconnect => d.(status := Exited(PeerDisconnected))
    case OtherPhoneMessage => d
  }

  /** What can happen next: an arm of the select loop, a turn of the decode worker, or a camera switch the
      user interface sends on the same connection. */
  datatype Input =
    | Shutdown
    | PeerLost
    | Tick(expired: bool)
    | CommandsClosedInput
    | TakeCommand(command: Command, env: Env)
    | DecoderEvent(env: Env)
    | Message(message: PhoneMessage, env: Env)
    | WorkerTurn(outcome: Decoding.DecodeOutcome, restarts: bool)
    | UserSwitchesCamera(front: bool)

  function Step(d: Desktop, input: Input): Desktop {
    if !d.status.Running? then d
    else match input
      case Shutdown => d.(status := Exited(ShutdownRequested))
      case PeerLost => d.(status := Exited(PeerDisconnected))
      case Tick(expired) => OnTick(d, expired)
      case CommandsClosedInput => if d.pending.Some? then d else d.(status := Failed(CommandsClosed))
      case TakeCommand(command, env) => OnCommand(d, command, env)
      case DecoderEvent(env) => OnDecoderEvent(d, env)
      case Message(message, env) => OnMessage(d, message, env)
      case WorkerTurn(outcome, restarts) => d.(worker := Decoding.Work(d.worker, outcome, restarts))
      case UserSwitchesCamera(front) => d.(sent := d.sent + [SwitchCamera(front)])
  }

  /** The prologue of `stream_connection`: adopt the phone's active profile before the loop starts. */
  function Start(local: seq<StreamProfile>, phone: Handshake, env: Env): Result<Desktop, ActorError> {
    var common := CommonProfiles(local, phone.supported);
    if phone.active.None? || phone.active.value !in common then Err(UnsupportedCommon)
    else
      var active := phone.active.value;
      var d := Desktop(local, phone.supported, common, active, 0, None, false, None,
                       Decoding.STARTED, Running, [], [], []);
      var (d1, ok) := CommitAndReset(d, active, env);
      if ok then Ok(d1) else Err(CommitFailed)
  }

  function Run(d: Desktop, inputs: seq<Input>): Desktop {
    if inputs == [] then d else Step(Run(d, inputs[..|inputs| - 1]), inputs[|inputs| - 1])
  }

  // ----- Request ids -----

  /** The counter after `n` requests. */
  ghost function NthId(n: nat): U32 {
    if n == 0 then 0 else NextRequestId(NthId(n - 1))
  }

  lemma NextRequestIdValue(counter: U32)
    ensures NextRequestId(counter) == if counter == 0xFFFF_FFFF then 1 else counter + 1
  {
  }

  lemma {:induction false} NthIdCycles(n: nat) returns (cycles: nat)
    requires n > 0
    ensures 1 <= NthId(n) <= 0xFFFF_FFFF && n == cycles * 0xFFFF_FFFF + NthId(n)
  {
    NextRequestIdValue(NthId(n - 1));
    if n == 1 {
      cycles := 0;
    } else {
      cycles := NthIdCycles(n - 1);
      if NthId(n - 1) == 0xFFFF_FFFF {
        cycles := cycles + 1;
      }
    }
  }

  /** The n-th id ever used: it runs through 1 .. 2^32 - 1 and starts over, so it is never 0. */
  lemma NthIdClosedForm(n: nat)
    requires n > 0
    ensures NthId(n) == (n - 1) % 0xFFFF_FFFF + 1
  {
    hide NthId;
    var cycles := NthIdCycles(n);
    assert n - 1 == cycles * 0xFFFF_FFFF + (NthId(n) - 1);
  }

  // ----- Resolving a command -----

  lemma {:induction false} CommonProfilesMeaning(local: seq<StreamProfile>, peer: seq<StreamProfile>, p: StreamProfile)
    ensures p in CommonProfiles(local, peer) <==> p in local && p in peer
  {
    if local != [] {
      CommonProfilesMeaning(local[1..], peer, p);
    }
  }

  lemma {:induction false} FindProfileMeaning(common: seq<StreamProfile>, codec: VideoCodec, c: Command)
    ensures var wanted := StreamProfile(codec, c.width, c.height, c.fps);
            FindProfile(common, codec, c) == if wanted in common then Some(wanted) else None
  {
    if common != [] {
      FindProfileMeaning(common[1..], codec, c);
    }
  }

  /** A named codec resolves to exactly that profile; Auto takes HEVC when it is common and falls back to
      H.264 at the same dimensions and frame rate; otherwise the command is refused. */
  lemma ResolveProfileMeaning(common: seq<StreamProfile>, c: Command)
    ensures var hevc := StreamProfile(Hevc, c.width, c.height, c.fps);
            var h264 := hevc.(codec := H264);
            ResolveProfile(common, c) ==
              if c.preference != PreferH264 && hevc in common then Ok(hevc)
              else if c.preference != PreferHevc && h264 in common then Ok(h264)
              else Err(UnsupportedCommon)
  {
    FindProfileMeaning(common, Hevc, c);
    FindProfileMeaning(common, H264, c);
    var order := CodecOrder(c.preference);
    assert order[1..] == if c.preference.Auto? then [H264] else [];
    assert FindInOrder(common, order[1..], c) == if c.preference.Auto? then FindProfile(common, H264, c) else None by {
      assert [H264][1..] == [];
    }
  }

  // ----- Coherence of the desktop, whatever the phone and the environment do -----

  predicate Compensating(d: Desktop) {
    d.pending.Some? && d.pending.value.kind.Compensation?
  }

  ghost predicate WorkerInStep(d: Desktop) {
    d.worker.alive ==>
      d.worker.codec == d.active.codec && forall f | f in d.worker.frames :: f.codec == d.active.codec
  }

  ghost predicate PendingInStep(d: Desktop) {
    d.pending.Some? ==>
      && d.pending.value.kind.prior == d.active
      && d.pending.value.id == d.requestCounter != 0
      && (Compensating(d) ==> d.pending.value.requested == d.active)
  }

  /** Commands taken are the replies given, in order, and one more while a pending request owes a reply. */
  ghost predicate Accounted(d: Desktop) {
    && (forall i | 0 <= i < |d.replies| :: d.replies[i].ticket == i)
    && (if d.pending.Some? && d.pending.value.kind.reply.Some?
        then d.pending.value.kind.reply.value == |d.replies| && |d.taken| == |d.replies| + 1
             && d.taken[|d.replies|].active == d.active
        else |d.taken| == |d.replies|)
  }

  /** A pending Configure that owes a reply asks for what the command asked for. */
  ghost predicate AsksForCommand(d: Desktop) {
    d.pending.Some? && d.pending.value.kind.Configure? && d.pending.value.kind.reply.Some? ==>
      d.taken != [] && HasShape(d.pending.value.requested, d.taken[|d.taken| - 1].command)
  }

  predicate HasShape(p: StreamProfile, c: Command) {
    p.width == c.width && p.height == c.height && p.fps == c.fps
  }

  ghost predicate Coherent(d: Desktop) {
    d.status.Running? ==>
      && d.common == CommonProfiles(d.local, d.peer)
      && d.active in d.common
      && WorkerInStep(d)
      && PendingInStep(d)
      && (!Compensating(d) ==> d.committed == Some(d.active))
      && Accounted(d)
      && AsksForCommand(d)
  }

  lemma StartIsCoherent(local: seq<StreamProfile>, phone: Handshake, env: Env)
    requires Start(local, phone, env).Ok?
    ensures Coherent(Start(local, phone, env).value)
  {
  }

  lemma RequestIsCoherent(d: Desktop, requested: StreamProfile, kind: PendingKind, env: Env)
    requires d.common == CommonProfiles(d.local, d.peer) && d.active in d.common && WorkerInStep(d)
    requires kind.prior == d.active
    requires kind.Compensation? ==> requested == d.active
    requires kind.Configure? ==> d.committed == Some(d.active)
    requires Accounted(d.(pending := Some(Pending(0, requested, kind))))
    requires AsksForCommand(d.(pending := Some(Pending(0, requested, kind))))
    ensures Coherent(Request(d, requested, kind, env))
  {
  }

  /** What a commit and reset leave of the worker. */
  lemma CommitAndResetWorker(d: Desktop, p: StreamProfile, env: Env)
    requires WorkerInStep(d)
    ensures var (d1, ok) := CommitAndReset(d, p, env);
            && (ok ==> d1.committed == Some(p) && WorkerInStep(d1.(active := p)))
            && (!ok ==> WorkerInStep(d1))
            && d1 == d.(committed := d1.committed, worker := d1.worker)
  {
  }

  lemma CommandIsCoherent(d: Desktop, command: Command, env: Env)
    requires Coherent(d) && d.status.Running?
    ensures Coherent(Step(d, TakeCommand(command, env)))
  {
    if d.pending.None? {
      ResolveProfileMeaning(d.common, command);
      var d1 := d.(taken := d.taken + [Taken(command, d.active)]);
      var resolved := ResolveProfile(d.common, command);
      if resolved.Ok? && env.preflights && resolved.value != d.active {
        RequestIsCoherent(d1, resolved.value, Configure(d.active, Some(|d.taken|)), env);
      }
    }
  }

  lemma UnsolicitedIsCoherent(d: Desktop, outcome: Outcome, env: Env)
    requires Coherent(d) && d.status.Running? && d.pending.None?
    ensures Coherent(OnUnsolicited(d, outcome, env))
  {
    if outcome.Applied? && outcome.profile in d.common {
      CommitAndResetWorker(d, outcome.profile, env);
      var (d1, ok) := CommitAndReset(d, outcome.profile, env);
      if !ok {
        RequestIsCoherent(d1, d.active, Compensation(d.active, CommitFailed, None), env);
      }
    }
  }

  lemma ConfigureAnswerIsCoherent(d: Desktop, outcome: Outcome, env: Env)
    requires Coherent(d) && d.status.Running? && d.pending.Some? && d.pending.value.kind.Configure?
    ensures Coherent(OnAnswer(d.(pending := None), d.pending.value.requested, d.pending.value.kind, outcome, env))
  {
    var current, d0 := d.pending.value, d.(pending := None);
    if outcome.Applied? && AcceptsApplied(d.common, current.requested, outcome.profile) {
      CommitAndResetWorker(d0, outcome.profile, env);
      var (d1, ok) := CommitAndReset(d0, outcome.profile, env);
      if !ok {
        RequestIsCoherent(d1, d.active, Compensation(d.active, CommitFailed, current.kind.reply), env);
      }
    }
  }

  lemma CompensationAnswerIsCoherent(d: Desktop, outcome: Outcome, env: Env)
    requires Coherent(d) && d.status.Running? && Compensating(d)
    ensures Coherent(OnAnswer(d.(pending := None), d.pending.value.requested, d.pending.value.kind, outcome, env))
  {
    CommitAndResetWorker(d.(pending := None), d.active, env);
  }

  lemma AnswerIsCoherent(d: Desktop, outcome: Outcome, env: Env)
    requires Coherent(d) && d.status.Running? && d.pending.Some?
    ensures Coherent(OnAnswer(d.(pending := None), d.pending.value.requested, d.pending.value.kind, outcome, env))
  {
    if Compensating(d) {
      CompensationAnswerIsCoherent(d, outcome, env);
    } else {
      ConfigureAnswerIsCoherent(d, outcome, env);
    }
  }

  lemma ResultIsCoherent(d: Desktop, id: U32, outcome: Outcome, env: Env)
    requires Coherent(d) && d.status.Running?
    ensures Coherent(OnResult(d, id, outcome, env))
  {
    if id == 0 && d.pending.None? {
      UnsolicitedIsCoherent(d, outcome, env);
    } else if d.pending.Some? && d.pending.value.id == id {
      AnswerIsCoherent(d, outcome, env);
    }
  }

  lemma CapabilitiesAreCoherent(d: Desktop, profiles: seq<StreamProfile>)
    requires Coherent(d) && d.status.Running?
    ensures Coherent(OnCapabilities(d, profiles))
  {
    CommonProfilesMeaning(d.local, d.peer, d.active);
    CommonProfilesMeaning(d.local, profiles, d.active);
  }

  /** A step that touches only the worker, the keyframe flag, the messages sent and the status. */
  lemma QuietStepIsCoherent(d: Desktop, d': Desktop)
    requires Coherent(d) && d.status.Running? && WorkerInStep(d')
    requires d' == d.(worker := d'.worker, keyframeRequestInFlight := d'.keyframeRequestInFlight,
                      sent := d'.sent, status := d'.status)
    ensures Coherent(d')
  {
  }

  lemma FrameKeepsWorker(d: Desktop, frame: VideoFrame, env: Env)
    requires WorkerInStep(d)
    ensures var d' := OnVideoFrame(d, frame, env);
            && WorkerInStep(d')
            && d' == d.(worker := d'.worker, keyframeRequestInFlight := d'.keyframeRequestInFlight,
                        sent := d'.sent, status := d'.status)
  {
  }

  lemma VideoFrameIsCoherent(d: Desktop, frame: VideoFrame, env: Env)
    requires Coherent(d) && d.status.Running?
    ensures Coherent(OnVideoFrame(d, frame, env))
  {
    FrameKeepsWorker(d, frame, env);
    QuietStepIsCoherent(d, OnVideoFrame(d, frame, env));
    hide Coherent, OnVideoFrame;
  }

  lemma MessageIsCoherent(d: Desktop, message: PhoneMessage, env: Env)
    requires Coherent(d) && d.status.Running?
    ensures Coherent(Step(d, Message(message, env)))
  {
    match message
    case VideoFrameMessage(frame) => VideoFrameIsCoherent(d, frame, env);
    case CapabilitiesUpdate(profiles) => CapabilitiesAreCoherent(d, profiles);
    case ConfigurationResult(id, outcome) => ResultIsCoherent(d, id, outcome, env);
    case PhoneDisconnect =>
    case OtherPhoneMessage =>
  }

  lemma TickIsCoherent(d: Desktop, expired: bool)
    requires Coherent(d) && d.status.Running?
    ensures Coherent(Step(d, Tick(expired)))
  {
  }

  lemma DecoderEventIsCoherent(d: Desktop, env: Env)
    requires Coherent(d) && d.status.Running?
    ensures Coherent(Step(d, DecoderEvent(env)))
  {
    QuietStepIsCoherent(d, OnDecoderEvent(d, env));
  }

  lemma WorkerTurnIsCoherent(d: Desktop, outcome: Decoding.DecodeOutcome, restarts: bool)
    requires Coherent(d) && d.status.Running?
    ensures Coherent(Step(d, WorkerTurn(outcome, restarts)))
  {
    QuietStepIsCoherent(d, d.(worker := Decoding.Work(d.worker, outcome, restarts)));
  }

  lemma StepKeepsCoherence(d: Desktop, input: Input)
    requires Coherent(d)
    ensures Coherent(Step(d, input))
  {
    if d.status.Running? {
      match input
      case Tick(expired) => TickIsCoherent(d, expired);
      case TakeCommand(command, env) => CommandIsCoherent(d, command, env);
      case DecoderEvent(env) => DecoderEventIsCoherent(d, env);
      case Message(message, env) => MessageIsCoherent(d, message, env);
      case WorkerTurn(outcome, restarts) => WorkerTurnIsCoherent(d, outcome, restarts);
      case _ =>
    }
  }

  /** Every state a connection can reach is coherent, whatever the phone sends and whatever fails. */
  lemma {:induction false} RunsAreCoherent(
    local: seq<StreamProfile>, phone: Handshake, env: Env, inputs: seq<Input>)
    requires Start(local, phone, env).Ok?
    ensures Coherent(Run(Start(local, phone, env).value, inputs))
  {
    if inputs == [] {
      StartIsCoherent(local, phone, env);
    } else {
      RunsAreCoherent(local, phone, env, inputs[..|inputs| - 1]);
      StepKeepsCoherence(Run(Start(local, phone, env).value, inputs[..|inputs| - 1]), inputs[|inputs| - 1]);
    }
  }

  // ----- Commands are all or nothing -----

  /** What a reply tells the caller is true of the state in which it is given. */
  ghost predicate Honest(d: Desktop, r: Reply) {
    && r.ticket < |d.taken|
    && match r.result
       case Ok(p) =>
         p in d.common && HasShape(p, d.taken[r.ticket].command) && d.active == p && d.committed == Some(p)
       case Err(_) =>
         d.active == d.taken[r.ticket].active && (d.status.Running? ==> d.committed == Some(d.active))
  }

  /** At most one reply is given between two states, and it is honest in the second. */
  ghost predicate RepliesHonestly(d: Desktop, d': Desktop) {
    || d'.replies == d.replies
    || (|d'.replies| == |d.replies| + 1 && d'.replies[..|d.replies|] == d.replies
        && Honest(d', d'.replies[|d.replies|]))
  }

  lemma CommandReplies(d: Desktop, command: Command, env: Env)
    requires Coherent(d) && d.status.Running?
    ensures RepliesHonestly(d, OnCommand(d, command, env))
  {
    ResolveProfileMeaning(d.common, command);
  }

  lemma AnswerReplies(d: Desktop, outcome: Outcome, env: Env)
    requires Coherent(d) && d.status.Running? && d.pending.Some?
    ensures RepliesHonestly(d, OnAnswer(d.(pending := None), d.pending.value.requested, d.pending.value.kind, outcome, env))
  {
    if Compensating(d) {
      CompensationReplies(d, outcome, env);
    } else {
      ConfigureReplies(d, outcome, env);
    }
    hide Coherent, OnAnswer, RepliesHonestly;
  }

  lemma ConfigureReplies(d: Desktop, outcome: Outcome, env: Env)
    requires Coherent(d) && d.status.Running? && d.pending.Some? && d.pending.value.kind.Configure?
    ensures RepliesHonestly(d, OnAnswer(d.(pending := None), d.pending.value.requested, d.pending.value.kind, outcome, env))
  {
    hide WorkerInStep, Decoding.Reset, CommonProfiles;
  }

  lemma CompensationReplies(d: Desktop, outcome: Outcome, env: Env)
    requires Coherent(d) && d.status.Running? && Compensating(d)
    ensures RepliesHonestly(d, OnAnswer(d.(pending := None), d.pending.value.requested, d.pending.value.kind, outcome, env))
  {
    hide WorkerInStep, Decoding.Reset, CommonProfiles;
  }

  lemma ResultReplies(d: Desktop, id: U32, outcome: Outcome, env: Env)
    requires Coherent(d) && d.status.Running?
    ensures RepliesHonestly(d, OnResult(d, id, outcome, env))
  {
    if d.pending.Some? && d.pending.value.id == id {
      AnswerReplies(d, outcome, env);
    }
  }

  lemma TickReplies(d: Desktop, expired: bool)
    requires Coherent(d) && d.status.Running?
    ensures RepliesHonestly(d, OnTick(d, expired))
  {
  }

  /** No other arm gives a reply. */
  lemma OtherReplies(d: Desktop, input: Input)
    requires !input.TakeCommand? && !input.Tick? && !(input.Message? && input.message.ConfigurationResult?)
    ensures Step(d, input).replies == d.replies
  {
  }

  lemma StepReplies(d: Desktop, input: Input)
    requires Coherent(d)
    ensures RepliesHonestly(d, Step(d, input))
  {
    if d.status.Running? {
      match input
      case Tick(expired) => TickReplies(d, expired);
      case TakeCommand(command, env) => CommandReplies(d, command, env);
      case Message(ConfigurationResult(id, outcome), env) => ResultReplies(d, id, outcome, env);
      case _ => OtherReplies(d, input);
    }
  }

  /** Reply `k` was given by step `i`, stands as `r` in the state right after it, and is true of that state. */
  ghost predicate GivenAt(d: Desktop, inputs: seq<Input>, i: nat, k: nat, r: Reply) {
    && i < |inputs|
    && var after := Run(d, inputs[..i + 1]);
       && |Run(d, inputs[..i]).replies| == k && |after.replies| == k + 1
       && after.replies[k] == r && Honest(after, r)
  }

  /** Every reply of a run was honest in the state right after the step that gave it. */
  lemma {:induction false} EveryReplyIsHonest(d: Desktop, inputs: seq<Input>, k: nat) returns (i: nat)
    requires Coherent(d) && d.replies == [] && k < |Run(d, inputs).replies|
    ensures GivenAt(d, inputs, i, k, Run(d, inputs).replies[k])
  {
    RunUnfolds(d, inputs);
    var init, last := inputs[..|inputs| - 1], inputs[|inputs| - 1];
    CoherentRun(d, init);
    StepReplies(Run(d, init), last);
    hide Coherent, Honest, Step, Run, RepliesHonestly, GivenAt;
    if k < |Run(d, init).replies| {
      i := EveryReplyIsHonest(d, init, k);
      ReplyStays(Run(d, init), Run(d, inputs), k);
      GivenAtLonger(d, inputs, i, k, Run(d, init).replies[k]);
    } else {
      i := |init|;
      GivenLast(d, inputs, k);
    }
  }

  lemma GivenAtLonger(d: Desktop, inputs: seq<Input>, i: nat, k: nat, r: Reply)
    requires inputs != [] && GivenAt(d, inputs[..|inputs| - 1], i, k, r)
    ensures GivenAt(d, inputs, i, k, r)
  {
    hide Run, Honest;
    SamePrefix(inputs, i);
  }

  lemma GivenLast(d: Desktop, inputs: seq<Input>, k: nat)
    requires inputs != [] && RepliesHonestly(Run(d, inputs[..|inputs| - 1]), Run(d, inputs))
    requires |Run(d, inputs[..|inputs| - 1]).replies| <= k < |Run(d, inputs).replies|
    ensures GivenAt(d, inputs, |inputs| - 1, k, Run(d, inputs).replies[k])
  {
    hide Run, Honest;
    assert inputs[..|inputs|] == inputs;
  }

  lemma RunUnfolds(d: Desktop, inputs: seq<Input>)
    ensures inputs == [] ==> Run(d, inputs) == d
    ensures inputs != [] ==> Run(d, inputs) == Step(Run(d, inputs[..|inputs| - 1]), inputs[|inputs| - 1])
  {
    hide Step;
  }

  lemma SamePrefix(inputs: seq<Input>, i: nat)
    requires i < |inputs| - 1
    ensures inputs[..|inputs| - 1][..i] == inputs[..i] && inputs[..|inputs| - 1][..i + 1] == inputs[..i + 1]
  {
  }

  lemma ReplyStays(d: Desktop, d': Desktop, k: nat)
    requires RepliesHonestly(d, d') && k < |d.replies|
    ensures |d'.replies| > k && d'.replies[k] == d.replies[k]
  {
    hide Honest;
    assert d'.replies != d.replies ==> d'.replies[..|d.replies|][k] == d.replies[k];
  }

  lemma {:induction false} CoherentRun(d: Desktop, inputs: seq<Input>)
    requires Coherent(d)
    ensures Coherent(Run(d, inputs))
  {
    hide Coherent, Step;
    if inputs != [] {
      CoherentRun(d, inputs[..|inputs| - 1]);
      StepKeepsCoherence(Run(d, inputs[..|inputs| - 1]), inputs[|inputs| - 1]);
    }
  }

  /** Nothing happens to an actor that has returned. */
  lemma {:induction false} StoppedRun(d: Desktop, inputs: seq<Input>, i: nat)
    requires i <= |inputs|
    requires i == |inputs| || !Run(d, inputs[..i]).status.Running?
    ensures Run(d, inputs) == Run(d, inputs[..i])
  {
    if i < |inputs| {
      var init := inputs[..|inputs| - 1];
      assert init[..i] == inputs[..i];
      StoppedRun(d, init, i);
    } else {
      assert inputs[..i] == inputs;
    }
  }

  // ----- What a step does to the connection -----

  /** A step sends at most one message. A configuration request becomes the pending one; without one, what is
      pending stays or is settled. */
  ghost predicate Effect(d: Desktop, d': Desktop) {
    && d'.local == d.local
    && (d'.sent == d.sent || (d'.sent != [] && d'.sent == d.sent + [d'.sent[|d'.sent| - 1]]))
    && (if d'.sent != d.sent && d'.sent[|d'.sent| - 1].ConfigureStream?
        then d'.pending.Some? && d'.pending.value.id == NextRequestId(d.requestCounter)
             && d'.sent[|d'.sent| - 1] == ConfigureStream(d'.pending.value.id, d'.pending.value.requested)
        else d'.pending == d.pending || d'.pending.None?)
  }

  lemma RequestEffect(d: Desktop, d1: Desktop, requested: StreamProfile, kind: PendingKind, env: Env)
    requires d1.local == d.local && d1.sent == d.sent && d1.requestCounter == d.requestCounter
    ensures Effect(d, Request(d1, requested, kind, env))
  {
  }

  lemma CommandEffect(d: Desktop, command: Command, env: Env)
    ensures Effect(d, OnCommand(d, command, env))
  {
    var d1 := d.(taken := d.taken + [Taken(command, d.active)]);
    var resolved := ResolveProfile(d.common, command);
    if resolved.Ok? {
      RequestEffect(d, d1, resolved.value, Configure(d.active, Some(|d.taken|)), env);
    }
  }

  lemma UnsolicitedEffect(d: Desktop, outcome: Outcome, env: Env)
    ensures Effect(d, OnUnsolicited(d, outcome, env))
  {
    if outcome.Applied? {
      var d1 := CommitAndReset(d, outcome.profile, env).0;
      RequestEffect(d, d1, d.active, Compensation(d.active, CommitFailed, None), env);
    }
  }

  lemma AnswerEffect(d: Desktop, d0: Desktop, requested: StreamProfile, kind: PendingKind, outcome: Outcome, env: Env)
    requires d0 == d.(pending := None)
    ensures Effect(d, OnAnswer(d0, requested, kind, outcome, env))
  {
    if outcome.Applied? && kind.Configure? {
      var d1 := CommitAndReset(d0, outcome.profile, env).0;
      RequestEffect(d, d1, kind.prior, Compensation(kind.prior, CommitFailed, kind.reply), env);
    }
  }

  lemma MessageEffect(d: Desktop, message: PhoneMessage, env: Env)
    ensures Effect(d, OnMessage(d, message, env))
  {
    match message
    case ConfigurationResult(id, outcome) =>
      if id == 0 && d.pending.None? {
        UnsolicitedEffect(d, outcome, env);
      } else if d.pending.Some? && d.pending.value.id == id {
        AnswerEffect(d, d.(pending := None), d.pending.value.requested, d.pending.value.kind, outcome, env);
      }
    case _ =>
  }

  lemma StepEffect(d: Desktop, input: Input)
    ensures Effect(d, Step(d, input))
  {
    if d.status.Running? {
      match input
      case TakeCommand(command, env) => CommandEffect(d, command, env);
      case Message(message, env) => MessageEffect(d, message, env);
      case _ =>
    }
  }
}
