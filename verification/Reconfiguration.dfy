/** The two parties together, joined by two FIFO channels. A channel is its sender's log and the number of
    messages the receiver has consumed, so messages are delayed at will but never lost, reordered or copied. */
module Reconfiguration {

  import opened Wrappers
  import opened Protocol
  import opened Pipeline
  import opened MobileCore

  /** `first` is the phone's view at the handshake, `consumed` how much of the phone's log the desktop has
      taken, `heard` how much of the desktop's log the phone has taken. */
  datatype System = System(desktop: Desktop, phone: Phone, first: Snapshot, consumed: nat, heard: nat)

  datatype Move =
    | DesktopActs(input: Input)
    | DesktopReceives(env: Env)
    | PhoneCalls(call: AppCall)
    | PhonePolls(arrived: nat, closed: bool)

  function Min(a: nat, b: nat): nat {
    if a < b then a else b
  }

  function Next(s: System, move: Move): System {
    match move
    case DesktopActs(input) => if input.Message? then s else s.(desktop := Step(s.desktop, input))
    case DesktopReceives(env) =>
      if s.desktop.status.Running? && s.consumed < |s.phone.sent| then
        s.(desktop := Step(s.desktop, Message(s.phone.sent[s.consumed].message, env)), consumed := s.consumed + 1)
      else s
    case PhoneCalls(call) => s.(phone := Call(s.phone, call))
    case PhonePolls(arrived, closed) =>
      if s.heard > |s.desktop.sent| then s
      else
        var inbox := s.desktop.sent[s.heard..Min(s.heard + arrived, |s.desktop.sent|)];
        var (phone, n, _) := Poll(s.phone, inbox, closed);
        s.(phone := phone, heard := s.heard + n)
  }

  /** Both sides shake hands, then the desktop adopts the phone's active profile. */
  function Establish(phone: Handshake, local: seq<StreamProfile>, env: Env): Option<System> {
    var client := Connect(phone, Handshake(PROTOCOL_VERSION, local, None));
    var actor := Start(local, phone, env);
    if client.Some? && actor.Ok? then Some(System(actor.value, client.value, View(client.value), 0, 0)) else None
  }

  // ----- The phone's log -----

  /** The phone's view after the first `k` messages of its log. */
  ghost function ViewAt(first: Snapshot, log: seq<Envelope>, k: nat): Snapshot
    requires k <= |log|
  {
    if k == 0 then first else log[k - 1].after
  }

  /** What one message says about the change of the phone's view. */
  ghost predicate Explains(before: Snapshot, e: Envelope, desktopProfiles: seq<StreamProfile>) {
    match e.message
    case VideoFrameMessage(frame) => e.after == before && ValidateAgainst(frame, before.active).Ok?
    case CapabilitiesUpdate(profiles) =>
      e.after == before.(supported := profiles) && ValidateUpdate(profiles, before.active).Ok?
    case ConfigurationResult(_, Applied(p)) =>
      e.after == before.(active := p) && p in before.supported && p in desktopProfiles
    case ConfigurationResult(_, _) => e.after == before
    case _ => false
  }

  ghost predicate LogExplains(p: Phone, first: Snapshot) {
    && (forall i | 0 <= i < |p.sent| :: Explains(ViewAt(first, p.sent, i), p.sent[i], p.peerSupported))
    && ViewAt(first, p.sent, |p.sent|) == View(p)
  }

  /** Both sides are in order by themselves, and the logs say what happened. */
  ghost predicate Inv(s: System) {
    && Coherent(s.desktop)
    && Sound(s.phone)
    && s.phone.peerSupported == s.desktop.local
    && LogExplains(s.phone, s.first)
    && s.consumed <= |s.phone.sent|
    && s.heard <= |s.desktop.sent|
  }

  /** The phone as the desktop last heard of it. */
  ghost function Seen(s: System): Snapshot
    requires s.consumed <= |s.phone.sent|
  {
    ViewAt(s.first, s.phone.sent, s.consumed)
  }

  /** The desktop and the phone it has heard of use the same profile and the same profile list. While the
      desktop takes back a change it could not commit, only the list is at stake: it may lag behind as long as
      the phone cannot grant the prior profile anyway. */
  ghost predicate Agree(d: Desktop, seen: Snapshot) {
    d.status.Running? ==>
      if Compensating(d)
      then d.peer == seen.supported || d.active !in seen.supported
      else d.active == seen.active && d.peer == seen.supported
  }

  ghost predicate Agreeing(s: System)
    requires s.consumed <= |s.phone.sent|
  {
    Agree(s.desktop, Seen(s))
  }

  // ----- Inv holds in every run -----

  lemma PostExplains(p: Phone, p': Phone, first: Snapshot, message: PhoneMessage)
    requires LogExplains(p, first)
    requires p'.sent == p.sent + [Envelope(message, View(p'))] && p'.peerSupported == p.peerSupported
    requires Explains(View(p), Envelope(message, View(p')), p.peerSupported)
    ensures LogExplains(p', first)
  {
    hide Explains;
    forall i | 0 <= i < |p'.sent|
      ensures Explains(ViewAt(first, p'.sent, i), p'.sent[i], p'.peerSupported)
    {
      assert ViewAt(first, p'.sent, i) == ViewAt(first, p.sent, i);
    }
  }

  lemma CallExplains(p: Phone, first: Snapshot, call: AppCall)
    requires Sound(p) && LogExplains(p, first)
    ensures LogExplains(Call(p, call), first)
    ensures Call(p, call).peerSupported == p.peerSupported
    ensures |p.sent| <= |Call(p, call).sent| <= |p.sent| + 1 && Call(p, call).sent[..|p.sent|] == p.sent
  {
    var p' := Call(p, call);
    if p'.sent != p.sent {
      PostExplains(p, p', first, p'.sent[|p.sent|].message);
    }
  }

  lemma NextKeepsInv(s: System, move: Move)
    requires Inv(s)
    ensures Inv(Next(s, move))
    ensures Next(s, move).first == s.first
  {
    hide Coherent, Sound, LogExplains, Step, Call;
    match move
    case DesktopActs(input) =>
      if !input.Message? {
        StepKeepsCoherence(s.desktop, input);
        StepEffect(s.desktop, input);
      }
    case DesktopReceives(env) =>
      if s.desktop.status.Running? && s.consumed < |s.phone.sent| {
        var input := Message(s.phone.sent[s.consumed].message, env);
        StepKeepsCoherence(s.desktop, input);
        StepEffect(s.desktop, input);
      }
    case PhoneCalls(call) =>
      CallKeepsSound(s.phone, call);
      CallExplains(s.phone, s.first, call);
    case PhonePolls(arrived, closed) =>
      var inbox := s.desktop.sent[s.heard..Min(s.heard + arrived, |s.desktop.sent|)];
      if s.phone.connected && s.phone.pending.None? {
        PollInboxMeaning(s.phone, inbox, closed);
        var p := Poll(s.phone, inbox, closed).0;
        SamePhone(s.phone, p, s.first);
      }
  }

  /** Neither the connection nor the pending request matters for the phone's log. */
  lemma SamePhone(p: Phone, p': Phone, first: Snapshot)
    requires Sound(p) && LogExplains(p, first)
    requires p' == p.(connected := p'.connected, pending := p'.pending)
    ensures Sound(p') && LogExplains(p', first)
  {
  }

  lemma EstablishedAgrees(phone: Handshake, local: seq<StreamProfile>, env: Env)
    requires Establish(phone, local, env).Some?
    ensures Inv(Establish(phone, local, env).value) && Agreeing(Establish(phone, local, env).value)
  {
    StartIsCoherent(local, phone, env);
    ConnectIsSound(phone, Handshake(PROTOCOL_VERSION, local, None));
  }

  // ----- Agreement, step by step -----

  /** The message tells the desktop that the phone switched to another profile, and the desktop ignores it:
      either nobody asked for the switch and a request is pending, or it answers no pending request (that
      request was given up), or it answers with dimensions or a frame rate nobody asked for. */
  predicate Discards(d: Desktop, message: PhoneMessage) {
    && message.ConfigurationResult? && message.outcome.Applied?
    && message.outcome.profile != d.active
    && !Compensating(d)
    && (if message.id == 0 then d.pending.Some?
        else !(d.pending.Some? && d.pending.value.id == message.id
               && SameShape(message.outcome.profile, d.pending.value.requested)))
  }

  predicate DiscardsAt(s: System, move: Move) {
    && move.DesktopReceives? && s.desktop.status.Running? && s.consumed < |s.phone.sent|
    && Discards(s.desktop, s.phone.sent[s.consumed].message)
  }

  /** The part of the desktop's coherence that the agreement rests on. */
  ghost predicate InOrder(d: Desktop) {
    && d.status.Running?
    && d.common == CommonProfiles(d.local, d.peer)
    && PendingInStep(d)
  }

  lemma CoherentIsInOrder(d: Desktop)
    requires Coherent(d) && d.status.Running?
    ensures InOrder(d)
  {
  }

  lemma FrameAgreement(d: Desktop, seen: Snapshot, frame: VideoFrame, env: Env)
    requires InOrder(d) && Agree(d, seen)
    ensures Agree(OnVideoFrame(d, frame, env), seen)
  {
  }

  lemma UpdateAgreement(d: Desktop, seen: Snapshot, profiles: seq<StreamProfile>)
    requires InOrder(d) && Agree(d, seen) && ValidateUpdate(profiles, seen.active).Ok?
    ensures Agree(OnCapabilities(d, profiles), seen.(supported := profiles))
  {
  }

  lemma UnsolicitedAgreement(d: Desktop, seen: Snapshot, outcome: Outcome, env: Env)
    requires InOrder(d) && Agree(d, seen) && d.pending.None?
    requires outcome.Applied? ==> outcome.profile in seen.supported && outcome.profile in d.local
    ensures Agree(OnUnsolicited(d, outcome, env), if outcome.Applied? then seen.(active := outcome.profile) else seen)
  {
    if outcome.Applied? {
      CommonProfilesMeaning(d.local, d.peer, outcome.profile);
    }
  }

  lemma ConfigureAgreement(d: Desktop, seen: Snapshot, outcome: Outcome, env: Env)
    requires InOrder(d) && Agree(d, seen) && d.pending.Some? && !Compensating(d)
    requires outcome.Applied? ==> outcome.profile in seen.supported && outcome.profile in d.local
    ensures var d' := OnAnswer(d.(pending := None), d.pending.value.requested, d.pending.value.kind, outcome, env);
            Agree(d', if outcome.Applied? then seen.(active := outcome.profile) else seen)
            <==> !Discards(d, ConfigurationResult(d.pending.value.id, outcome))
  {
    if outcome.Applied? {
      CommonProfilesMeaning(d.local, d.peer, outcome.profile);
    }
  }

  lemma CompensationAgreement(d: Desktop, seen: Snapshot, outcome: Outcome, env: Env)
    requires InOrder(d) && Agree(d, seen) && Compensating(d)
    requires outcome.Applied? ==> outcome.profile in seen.supported && outcome.profile in d.local
    ensures var d' := OnAnswer(d.(pending := None), d.pending.value.requested, d.pending.value.kind, outcome, env);
            Agree(d', if outcome.Applied? then seen.(active := outcome.profile) else seen)
  {
  }

  lemma ResultAgreement(d: Desktop, seen: Snapshot, id: U32, outcome: Outcome, env: Env)
    requires InOrder(d) && Agree(d, seen)
    requires outcome.Applied? ==> outcome.profile in seen.supported && outcome.profile in d.local
    ensures Agree(OnResult(d, id, outcome, env), if outcome.Applied? then seen.(active := outcome.profile) else seen)
            <==> !Discards(d, ConfigurationResult(id, outcome))
  {
    if id == 0 && d.pending.None? {
      UnsolicitedAgreement(d, seen, outcome, env);
    } else if d.pending.Some? && d.pending.value.id == id {
      if Compensating(d) {
        CompensationAgreement(d, seen, outcome, env);
      } else {
        ConfigureAgreement(d, seen, outcome, env);
      }
    }
  }

  /** Consuming a message keeps the agreement exactly when it is not discarded. */
  lemma ReceiveAgreement(d: Desktop, seen: Snapshot, e: Envelope, env: Env)
    requires InOrder(d) && Agree(d, seen) && Explains(seen, e, d.local)
    ensures Agree(OnMessage(d, e.message, env), e.after) <==> !Discards(d, e.message)
  {
    match e.message
    case VideoFrameMessage(frame) => FrameAgreement(d, seen, frame, env);
    case CapabilitiesUpdate(profiles) => UpdateAgreement(d, seen, profiles);
    case ConfigurationResult(id, outcome) => ResultAgreement(d, seen, id, outcome, env);
    case _ =>
  }

  /** The desktop's other arms never lose the agreement. */
  lemma ActAgreement(d: Desktop, seen: Snapshot, input: Input)
    requires InOrder(d) && Agree(d, seen) && !input.Message?
    ensures Agree(Step(d, input), seen)
  {
  }

  lemma StoppedStep(d: Desktop, input: Input)
    requires !d.status.Running?
    ensures Step(d, input) == d
  {
  }

  lemma InvOfMessage(s: System)
    requires Inv(s) && s.desktop.status.Running? && s.consumed < |s.phone.sent|
    ensures InOrder(s.desktop) && Explains(Seen(s), s.phone.sent[s.consumed], s.desktop.local)
  {
  }

  lemma ReceiveStep(s: System, env: Env)
    requires s.consumed < |s.phone.sent| && Agreeing(s)
    requires InOrder(s.desktop) && Explains(Seen(s), s.phone.sent[s.consumed], s.desktop.local)
    ensures Agreeing(Next(s, DesktopReceives(env))) <==> !Discards(s.desktop, s.phone.sent[s.consumed].message)
  {
    var e := s.phone.sent[s.consumed];
    ReceiveAgreement(s.desktop, Seen(s), e, env);
    var s' := Next(s, DesktopReceives(env));
    assert s'.desktop == OnMessage(s.desktop, e.message, env) && Seen(s') == e.after;
  }

  /** What the phone does by itself changes neither the desktop nor what the desktop has seen. */
  lemma PhoneStep(s: System, move: Move)
    requires Inv(s) && (move.PhoneCalls? || move.PhonePolls?)
    ensures var s' := Next(s, move);
            s'.desktop == s.desktop && s'.consumed <= |s'.phone.sent| && Seen(s') == Seen(s)
  {
    hide Coherent, Sound, LogExplains, Call;
    match move
    case PhoneCalls(call) => CallExplains(s.phone, s.first, call);
    case PhonePolls(arrived, closed) =>
      var inbox := s.desktop.sent[s.heard..Min(s.heard + arrived, |s.desktop.sent|)];
      if s.phone.connected && s.phone.pending.None? {
        PollInboxMeaning(s.phone, inbox, closed);
      }
  }

  lemma StepAgreement(s: System, move: Move)
    requires Inv(s) && Agreeing(s)
    ensures Inv(Next(s, move))
    ensures Agreeing(Next(s, move)) <==> !DiscardsAt(s, move)
  {
    hide Coherent, Sound, LogExplains, Step;
    NextKeepsInv(s, move);
    if move.PhoneCalls? || move.PhonePolls? {
      PhoneStep(s, move);
    } else if s.desktop.status.Running? {
      if move.DesktopReceives? && s.consumed < |s.phone.sent| {
        InvOfMessage(s);
        ReceiveStep(s, move.env);
      } else if move.DesktopActs? && !move.input.Message? {
        CoherentIsInOrder(s.desktop);
        ActAgreement(s.desktop, Seen(s), move.input);
      }
    } else if move.DesktopActs? {
      StoppedStep(s.desktop, move.input);
    }
  }

  // ----- Runs -----

  ghost predicate IsRun(states: seq<System>, moves: seq<Move>) {
    && |states| == |moves| + 1
    && Inv(states[0]) && Agreeing(states[0])
    && forall i | 0 <= i < |moves| :: states[i + 1] == Next(states[i], moves[i])
  }

  lemma {:induction false} RunKeepsInv(states: seq<System>, moves: seq<Move>, n: nat)
    requires IsRun(states, moves) && n <= |moves|
    ensures Inv(states[n])
  {
    hide Coherent, Sound, LogExplains, Next;
    if n > 0 {
      RunKeepsInv(states, moves, n - 1);
      NextKeepsInv(states[n - 1], moves[n - 1]);
    }
  }

  lemma {:induction false} AgreementUpTo(states: seq<System>, moves: seq<Move>, n: nat)
    requires IsRun(states, moves) && n <= |moves|
    requires forall i | 0 <= i < n :: !DiscardsAt(states[i], moves[i])
    ensures Inv(states[n]) && Agreeing(states[n])
  {
    hide Coherent, Sound, LogExplains, Next, Agree;
    if n > 0 {
      AgreementUpTo(states, moves, n - 1);
      StepAgreement(states[n - 1], moves[n - 1]);
    }
  }

  /** A run agrees at every state exactly when it never discards a switch. */
  lemma AgreementExactly(states: seq<System>, moves: seq<Move>)
    requires IsRun(states, moves)
    ensures (forall i | 0 <= i < |moves| :: !DiscardsAt(states[i], moves[i])) <==>
            (forall i | 0 <= i < |states| :: states[i].consumed <= |states[i].phone.sent| && Agreeing(states[i]))
  {
    hide Coherent, Sound, LogExplains, Next, Agree;
    if forall i | 0 <= i < |moves| :: !DiscardsAt(states[i], moves[i]) {
      forall i | 0 <= i < |states| ensures Inv(states[i]) && Agreeing(states[i]) {
        AgreementUpTo(states, moves, i);
      }
    }
    if forall i | 0 <= i < |states| :: states[i].consumed <= |states[i].phone.sent| && Agreeing(states[i]) {
      forall i | 0 <= i < |moves| ensures !DiscardsAt(states[i], moves[i]) {
        RunKeepsInv(states, moves, i);
        assert Agreeing(states[i]) && Agreeing(states[i + 1]);
        StepAgreement(states[i], moves[i]);
      }
    }
  }
}
