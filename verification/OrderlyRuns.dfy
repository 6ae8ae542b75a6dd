/** Runs in which nothing is given up: no configuration request times out, the phone answers a request with the
    dimensions and frame rate it asked for, and it does not switch on its own while a request is pending. In
    these runs at most one request is under way at a time, so nothing is ever discarded and both sides agree. */
module OrderlyRuns {

  import opened Wrappers
  import opened Protocol
  import opened Pipeline
  import opened MobileCore
  import opened Reconfiguration

  predicate Orderly(s: System, move: Move) {
    match move
    case DesktopActs(Tick(expired)) => expired ==> s.desktop.pending.None? || Compensating(s.desktop)
    case PhoneCalls(ReportCall(id, code, codec, width, height, fps, fits)) =>
      id != 0 && code == 0 && s.phone.pending.Some? ==>
        var asked := s.phone.pending.value.1;
        width == asked.width && height == asked.height && fps == asked.fps
    case DesktopReceives(env) =>
      s.consumed < |s.phone.sent| && s.desktop.pending.Some? && !Compensating(s.desktop) ==>
        var message := s.phone.sent[s.consumed].message;
        !(message.ConfigurationResult? && message.id == 0 && message.outcome.Applied?
          && message.outcome.profile != s.desktop.active)
    case _ => true
  }

  // ----- Requests under way -----

  /** The configuration requests among the desktop's messages. */
  ghost function Asked(messages: seq<DesktopMessage>): seq<(U32, StreamProfile)> {
    if messages == [] then [] else AskedBy(messages[0]) + Asked(messages[1..])
  }

  ghost function AskedBy(m: DesktopMessage): seq<(U32, StreamProfile)> {
    if m.ConfigureStream? then [(m.id, m.profile)] else []
  }

  /** The answers to requests among the phone's messages. */
  ghost function Answered(log: seq<Envelope>): seq<(U32, Outcome)> {
    if log == [] then [] else AnsweredBy(log[0].message) + Answered(log[1..])
  }

  ghost function AnsweredBy(m: PhoneMessage): seq<(U32, Outcome)> {
    if m.ConfigurationResult? && m.id != 0 then [(m.id, m.outcome)] else []
  }

  lemma Joined<T>(a: seq<T>, b: seq<T>, c: seq<T>)
    ensures a + (b + c) == a + b + c
  {
  }

  /** Of one request, at most one trace exists: it is on its way to the phone, or the phone works on it, or its
      answer is on its way back; and it is the request the desktop waits for. */
  ghost predicate OneRequest(
    waiting: Option<Pending>, asked: seq<(U32, StreamProfile)>, working: Option<(U32, StreamProfile)>,
    answered: seq<(U32, Outcome)>)
  {
    && |asked| + |answered| + (if working.Some? then 1 else 0) <= 1
    && (|asked| == 1 ==> waiting.Some? && asked[0] == (waiting.value.id, waiting.value.requested))
    && (working.Some? ==> waiting.Some? && working.value == (waiting.value.id, waiting.value.requested))
    && (|answered| == 1 ==>
          && waiting.Some? && answered[0].0 == waiting.value.id
          && (answered[0].1.Applied? ==> SameShape(answered[0].1.profile, waiting.value.requested)))
  }

  ghost predicate Flow(s: System)
    requires s.consumed <= |s.phone.sent| && s.heard <= |s.desktop.sent|
  {
    s.desktop.status.Running? ==>
      OneRequest(s.desktop.pending, Asked(s.desktop.sent[s.heard..]), s.phone.pending,
                 Answered(s.phone.sent[s.consumed..]))
  }

  lemma {:induction false} AskedConcat(a: seq<DesktopMessage>, b: seq<DesktopMessage>)
    ensures Asked(a + b) == Asked(a) + Asked(b)
  {
    hide AskedBy;
    if a == [] {
      assert a + b == b;
    } else {
      AskedConcat(a[1..], b);
      assert (a + b)[0] == a[0] && (a + b)[1..] == a[1..] + b;
      Joined(AskedBy(a[0]), Asked(a[1..]), Asked(b));
    }
  }

  lemma {:induction false} AnsweredConcat(a: seq<Envelope>, b: seq<Envelope>)
    ensures Answered(a + b) == Answered(a) + Answered(b)
  {
    if a == [] {
      assert a + b == b;
    } else {
      AnsweredConcat(a[1..], b);
      assert (a + b)[0] == a[0] && (a + b)[1..] == a[1..] + b;
      Joined(AnsweredBy(a[0].message), Answered(a[1..]), Answered(b));
    }
  }

  /** What a desktop step adds to the requests on their way. */
  lemma DesktopAsks(d: Desktop, d': Desktop, heard: nat)
    requires Effect(d, d') && heard <= |d.sent|
    ensures heard <= |d'.sent|
    ensures Asked(d'.sent[heard..]) == Asked(d.sent[heard..])
              + (if d'.sent != d.sent && d'.sent[|d'.sent| - 1].ConfigureStream?
                 then [(d'.pending.value.id, d'.pending.value.requested)] else [])
  {
    if d'.sent != d.sent {
      var last := d'.sent[|d'.sent| - 1];
      assert d'.sent[heard..] == d.sent[heard..] + [last];
      AskedConcat(d.sent[heard..], [last]);
      assert Asked([last]) == (if last.ConfigureStream? then [(last.id, last.profile)] else []) + Asked([]);
    }
  }

  /** A new request takes the place of the pending one, it never equals it. */
  lemma NewRequestIsNew(d: Desktop, d': Desktop)
    requires Coherent(d) && d.status.Running? && Effect(d, d')
    requires d'.sent != d.sent && d'.sent[|d'.sent| - 1].ConfigureStream?
    ensures d'.pending != d.pending
  {
    NextRequestIdValue(d.requestCounter);
  }

  lemma SettledEffect(d: Desktop, input: Input)
    requires d.status.Running? && Step(d, input).status.Running?
    requires d.pending.Some? && Step(d, input).pending != d.pending
    ensures match input
            case Tick(expired) => expired && !Compensating(d)
            case Message(ConfigurationResult(id, _), _) => id == d.pending.value.id
            case _ => false
  {
  }

  lemma ActFlow(s: System, input: Input)
    requires Inv(s) && Flow(s) && !input.Message? && Orderly(s, DesktopActs(input))
    requires s.desktop.status.Running? && Step(s.desktop, input).status.Running?
    ensures Next(s, DesktopActs(input)).heard <= |Next(s, DesktopActs(input)).desktop.sent|
    ensures Flow(Next(s, DesktopActs(input)))
  {
    hide Coherent, Sound, LogExplains, Step;
    var d, d' := s.desktop, Step(s.desktop, input);
    StepEffect(d, input);
    DesktopAsks(d, d', s.heard);
    if d'.sent != d.sent && d'.sent[|d'.sent| - 1].ConfigureStream? { NewRequestIsNew(d, d'); }
    if d.pending.Some? && d'.pending != d.pending {
      SettledEffect(d, input);
    }
  }

  lemma ReceiveFlow(s: System, env: Env)
    requires Inv(s) && Flow(s) && Orderly(s, DesktopReceives(env))
    requires s.desktop.status.Running? && s.consumed < |s.phone.sent|
    requires Next(s, DesktopReceives(env)).desktop.status.Running?
    ensures var s' := Next(s, DesktopReceives(env)); s'.heard <= |s'.desktop.sent| && Flow(s')
  {
    hide Coherent, Sound, LogExplains, Step;
    var d := s.desktop;
    var input := Message(s.phone.sent[s.consumed].message, env);
    var d' := Step(d, input);
    StepEffect(d, input);
    DesktopAsks(d, d', s.heard);
    assert s.phone.sent[s.consumed..][1..] == s.phone.sent[s.consumed + 1..];
    if d'.sent != d.sent && d'.sent[|d'.sent| - 1].ConfigureStream? { NewRequestIsNew(d, d'); }
    if d.pending.Some? && d'.pending != d.pending {
      SettledEffect(d, input);
      PendingIdNotZero(d);
    }
  }

  lemma PendingIdNotZero(d: Desktop)
    requires Coherent(d) && d.status.Running? && d.pending.Some?
    ensures d.pending.value.id != 0
  {
  }

  /** Either the call leaves the pending request alone and answers nothing, or it reports its outcome. */
  ghost predicate CallAnswers(p: Phone, call: AppCall, p': Phone, given: seq<(U32, Outcome)>) {
    || (p'.pending == p.pending && given == [])
    || (&& call.ReportCall? && call.id != 0 && p.pending.Some? && p.pending.value.0 == call.id
        && p'.pending.None? && |given| == 1 && given[0].0 == call.id
        && (given[0].1.Applied? ==>
              && call.code == 0 && given[0].1.profile.width == call.width
              && given[0].1.profile.height == call.height && given[0].1.profile.fps == call.fps))
  }

  lemma AnswersOfCall(p: Phone, call: AppCall, consumed: nat)
    requires consumed <= |p.sent|
    ensures var p' := Call(p, call);
            && |p.sent| <= |p'.sent|
            && Answered(p'.sent[consumed..]) == Answered(p.sent[consumed..]) + Answered(p'.sent[|p.sent|..])
            && CallAnswers(p, call, p', Answered(p'.sent[|p.sent|..]))
  {
    var p' := Call(p, call);
    if p'.sent == p.sent {
      assert p'.sent[|p.sent|..] == [];
    } else {
      var e := p'.sent[|p.sent|];
      assert p'.sent == p.sent + [e];
      assert p'.sent[consumed..] == p.sent[consumed..] + [e];
      assert p'.sent[|p.sent|..] == [e];
      AnsweredConcat(p.sent[consumed..], [e]);
      assert [e][1..] == [];
    }
  }

  lemma CallFlow(s: System, call: AppCall)
    requires Inv(s) && Flow(s) && Orderly(s, PhoneCalls(call)) && s.desktop.status.Running?
    ensures var s' := Next(s, PhoneCalls(call));
            s'.consumed <= |s'.phone.sent| && s'.heard <= |s'.desktop.sent| && Flow(s')
  {
    hide Coherent, Sound, LogExplains, Call;
    AnswersOfCall(s.phone, call, s.consumed);
  }

  lemma {:induction false} OneOfAsked(messages: seq<DesktopMessage>, i: nat)
    requires i < |messages| && messages[i].ConfigureStream? && |Asked(messages)| <= 1
    ensures Asked(messages) == [(messages[i].id, messages[i].profile)]
  {
    assert messages == messages[..i] + messages[i..];
    AskedConcat(messages[..i], messages[i..]);
    assert Asked(messages[i..]) == [(messages[i].id, messages[i].profile)] + Asked(messages[i..][1..]);
  }

  lemma PollShape(p: Phone, inbox: seq<DesktopMessage>, closed: bool)
    ensures var (p', n, _) := Poll(p, inbox, closed);
            && n <= |inbox| && p'.sent == p.sent
            && (n == 0 ==> p'.pending == p.pending)
            && (n > 0 ==> p.pending.None? && (p'.pending.Some? ==>
                  inbox[n - 1] == ConfigureStream(p'.pending.value.0, p'.pending.value.1)))
  {
    if p.connected && p.pending.None? {
      PollInboxMeaning(p, inbox, closed);
    }
  }

  lemma PollFlow(s: System, arrived: nat, closed: bool)
    requires s.consumed <= |s.phone.sent| && s.heard <= |s.desktop.sent| && Flow(s)
    ensures var s' := Next(s, PhonePolls(arrived, closed));
            s'.consumed <= |s'.phone.sent| && s'.heard <= |s'.desktop.sent| && Flow(s')
  {
    hide Poll, Asked, Answered;
    var inbox := s.desktop.sent[s.heard..Min(s.heard + arrived, |s.desktop.sent|)];
    PollShape(s.phone, inbox, closed);
    var (p, n, _) := Poll(s.phone, inbox, closed);
    var ahead := s.desktop.sent[s.heard..];
    assert ahead[n..] == s.desktop.sent[s.heard + n..];
    if n > 0 && s.desktop.status.Running? {
      assert ahead[n - 1] == inbox[n - 1];
      PollTakes(s.phone, p, ahead, n);
    }
  }

  /** What a poll takes from the requests ahead: none, one that it drops, or the one it makes its own. */
  lemma PollTakes(p: Phone, p': Phone, ahead: seq<DesktopMessage>, n: nat)
    requires n <= |ahead| && |Asked(ahead)| <= 1
    requires p'.pending.Some? ==>
               n > 0 && ahead[n - 1] == ConfigureStream(p'.pending.value.0, p'.pending.value.1)
    ensures Asked(ahead[n..]) == Asked(ahead) || Asked(ahead[n..]) == []
    ensures p'.pending.Some? ==> Asked(ahead) == [p'.pending.value] && Asked(ahead[n..]) == []
  {
    hide Asked, AskedBy;
    assert ahead == ahead[..n] + ahead[n..];
    AskedConcat(ahead[..n], ahead[n..]);
    assert Asked(ahead[..n]) == [] ==> [] + Asked(ahead[n..]) == Asked(ahead[n..]);
    if p'.pending.Some? {
      OneOfAsked(ahead[..n], n - 1);
    }
  }

  // ----- Orderly runs never discard, so they agree -----

  /** With one request under way at most, an orderly move discards nothing. */
  lemma OrderlyKeeps(s: System, move: Move)
    requires Inv(s) && Flow(s) && Orderly(s, move)
    ensures !DiscardsAt(s, move)
  {
    hide Coherent, Sound, LogExplains;
  }

  lemma NextFlow(s: System, move: Move)
    requires Inv(s) && Flow(s) && Orderly(s, move)
    ensures Inv(Next(s, move)) && Flow(Next(s, move))
  {
    hide Coherent, Sound, LogExplains, Step, OneRequest, Call;
    NextKeepsInv(s, move);
    if s.desktop.status.Running? {
      match move
      case DesktopActs(input) =>
        if !input.Message? && Step(s.desktop, input).status.Running? { ActFlow(s, input); }
      case DesktopReceives(env) =>
        if s.consumed < |s.phone.sent| && Next(s, move).desktop.status.Running? { ReceiveFlow(s, env); }
      case PhoneCalls(call) => CallFlow(s, call);
      case PhonePolls(arrived, closed) => PollFlow(s, arrived, closed);
    } else if move.DesktopActs? {
      StoppedStep(s.desktop, move.input);
    }
  }

  lemma {:induction false} OrderlyUpTo(states: seq<System>, moves: seq<Move>, n: nat)
    requires IsRun(states, moves) && n <= |moves| && Flow(states[0])
    requires forall i | 0 <= i < n :: Orderly(states[i], moves[i])
    ensures Inv(states[n]) && Agreeing(states[n]) && Flow(states[n])
  {
    hide Coherent, Sound, LogExplains, Next, Agree, OneRequest, Orderly;
    if n > 0 {
      OrderlyUpTo(states, moves, n - 1);
      OrderlyKeeps(states[n - 1], moves[n - 1]);
      StepAgreement(states[n - 1], moves[n - 1]);
      NextFlow(states[n - 1], moves[n - 1]);
    }
  }

  ghost predicate IsOrderlyRun(phone: Handshake, local: seq<StreamProfile>, env: Env, states: seq<System>, moves: seq<Move>) {
    && Establish(phone, local, env).Some?
    && |states| == |moves| + 1
    && states[0] == Establish(phone, local, env).value
    && (forall i | 0 <= i < |moves| ::
          && states[i + 1] == Next(states[i], moves[i])
          && Orderly(states[i], moves[i]))
  }

  lemma OrderlyRunAgrees(phone: Handshake, local: seq<StreamProfile>, env: Env, states: seq<System>, moves: seq<Move>, n: nat)
    requires IsOrderlyRun(phone, local, env, states, moves) && n <= |moves|
    ensures Inv(states[n]) && Agreeing(states[n])
  {
    EstablishedAgrees(phone, local, env);
    assert states[0].desktop.sent == [] && states[0].phone.sent == [] && states[0].phone.pending.None?;
    OrderlyUpTo(states, moves, n);
  }

  /** Once everything the phone sent has been consumed, both sides use the same profile and profile list. */
  lemma QuietChannelMeansAgreement(
    phone: Handshake, local: seq<StreamProfile>, env: Env, states: seq<System>, moves: seq<Move>, n: nat)
    requires IsOrderlyRun(phone, local, env, states, moves) && n <= |moves|
    requires states[n].desktop.status.Running? && !Compensating(states[n].desktop)
    requires states[n].consumed == |states[n].phone.sent|
    ensures states[n].desktop.active == states[n].phone.active
    ensures states[n].desktop.peer == states[n].phone.supported
    ensures states[n].desktop.committed == Some(states[n].phone.active)
  {
    OrderlyRunAgrees(phone, local, env, states, moves, n);
  }

  /** Every video frame consumed outside a compensation matches the desktop's active profile. */
  lemma FramesMatch(
    phone: Handshake, local: seq<StreamProfile>, env: Env, states: seq<System>, moves: seq<Move>, n: nat)
    requires IsOrderlyRun(phone, local, env, states, moves) && n <= |moves|
    requires states[n].desktop.status.Running? && !Compensating(states[n].desktop)
    requires states[n].consumed < |states[n].phone.sent|
    requires states[n].phone.sent[states[n].consumed].message.VideoFrameMessage?
    ensures ValidateAgainst(states[n].phone.sent[states[n].consumed].message.frame, states[n].desktop.active).Ok?
  {
    OrderlyRunAgrees(phone, local, env, states, moves, n);
    InvOfMessage(states[n]);
  }
}
