/** Whole transactions between the two parties, from any quiet state: a request that is applied, refused or taken back,
    and a switch the phone makes by itself. Each ends in a quiet state with both sides on the same profile. */
module Transactions {

  import opened Wrappers
  import opened Protocol
  import opened Pipeline
  import opened MobileCore
  import opened Reconfiguration
  import opened Disagreement
  import ClientLaws
  import DesktopLaws

  // ----- Moves -----

  function Ask(p: StreamProfile): Move {
    DesktopActs(TakeCommand(Wanting(p), FINE))
  }

  /** The phone hears of the request, applies `r` and reports it, and the desktop hears of that. */
  function Applying(id: U32, r: StreamProfile, env: Env): seq<Move> {
    [PhonePolls(1, false), Reporting(id, r), DesktopReceives(env)]
  }

  /** The phone hears of the request and refuses it for the reason `code`. */
  function Declining(id: U32, code: U8): seq<Move> {
    [PhonePolls(1, false), PhoneCalls(ReportCall(id, code, 0, 0, 0, 0, true)), DesktopReceives(FINE)]
  }

  lemma {:induction false} PlayJoins(s: System, a: seq<Move>, b: seq<Move>)
    ensures Play(s, a + b) == Play(Play(s, a), b)
    decreases |a|
  {
    hide Next;
    if a == [] {
      assert a + b == b;
    } else {
      PlayJoins(Next(s, a[0]), a[1..], b);
      assert (a + b)[1..] == a[1..] + b;
    }
  }

  lemma PlayOne(s: System, m: Move)
    ensures Play(s, [m]) == Next(s, m)
  {
    hide Next;
    assert [m][1..] == [];
  }

  lemma {:induction false} PlayKeepsInv(s: System, moves: seq<Move>)
    requires Inv(s)
    ensures Inv(Play(s, moves)) && Play(s, moves).first == s.first
    decreases |moves|
  {
    hide Inv, Next;
    if moves != [] {
      NextKeepsInv(s, moves[0]);
      PlayKeepsInv(Next(s, moves[0]), moves[1..]);
    }
  }

  // ----- One exchange -----

  /** The desktop's last message is its pending request, and otherwise everything has been consumed. */
  ghost predicate Waiting(s: System, id: U32, q: StreamProfile) {
    && s.desktop.status.Running? && s.desktop.pending.Some? && s.desktop.pending.value.id == id != 0
    && ValidateProfile(q).Ok?
    && |s.desktop.sent| == s.heard + 1 && s.desktop.sent[s.heard] == ConfigureStream(id, q)
    && s.phone.connected && s.phone.pending.None? && s.consumed == |s.phone.sent|
  }

  lemma Hears(s: System, id: U32, q: StreamProfile)
    requires Waiting(s, id, q)
    ensures Next(s, PhonePolls(1, false)) == s.(phone := s.phone.(pending := Some((id, q))), heard := s.heard + 1)
  {
    assert s.desktop.sent[s.heard..s.heard + 1] == [ConfigureStream(id, q)];
    PollOne(s.phone, id, q);
    hide Poll;
  }

  /** The phone has posted one message, and the desktop takes it. */
  lemma Receives(s: System, phone: Phone, e: Envelope, env: Env)
    requires s.desktop.status.Running? && s.consumed == |s.phone.sent| && phone.sent == s.phone.sent + [e]
    ensures Next(s.(phone := phone), DesktopReceives(env))
         == s.(phone := phone, desktop := Step(s.desktop, Message(e.message, env)), consumed := |phone.sent|)
  {
    hide Step;
  }

  lemma Applies(s: System, id: U32, q: StreamProfile, r: StreamProfile, env: Env)
    requires Waiting(s, id, q)
    requires ValidateProfile(r).Ok? && r in s.phone.supported && r in s.phone.peerSupported
    ensures var s' := Play(s, Applying(id, r, env));
            && s' == s.(desktop := Step(s.desktop, Message(ConfigurationResult(id, Applied(r)), env)),
                        phone := s.phone.(active := r, sent := s'.phone.sent), consumed := |s'.phone.sent|, heard := |s.desktop.sent|)
  {
    hide Step, Call, Poll;
    Hears(s, id, q);
    var s1 := Next(s, PhonePolls(1, false));
    ReportApplied(s1.phone, id, r);
    var s2 := Next(s1, Reporting(id, r));
    Receives(s1, s2.phone, s2.phone.sent[s1.consumed], env);
    PlayThree(s, PhonePolls(1, false), Reporting(id, r), DesktopReceives(env));
  }

  function Refusal(code: U8): Outcome {
    if code == 1 then UnsupportedProfile else if code == 2 then CaptureConfigurationFailed else EncoderInitializationFailed
  }

  lemma Declines(s: System, id: U32, q: StreamProfile, code: U8)
    requires Waiting(s, id, q) && 1 <= code <= 3
    ensures var s' := Play(s, Declining(id, code));
            && s' == s.(desktop := Step(s.desktop, Message(ConfigurationResult(id, Refusal(code)), FINE)),
                        phone := s.phone.(sent := s'.phone.sent), consumed := |s'.phone.sent|, heard := |s.desktop.sent|)
  {
    var refuse := PhoneCalls(ReportCall(id, code, 0, 0, 0, 0, true));
    Hears(s, id, q);
    var s1 := Next(s, PhonePolls(1, false));
    DeclineReported(s1.phone, id, code);
    hide Step, Call, Poll;
    var s2 := Next(s1, refuse);
    Receives(s1, s2.phone, s2.phone.sent[s1.consumed], FINE);
    PlayThree(s, PhonePolls(1, false), refuse, DesktopReceives(FINE));
  }

  lemma DeclineReported(p: Phone, id: U32, code: U8)
    requires p.connected && p.pending.Some? && p.pending.value.0 == id != 0 && 1 <= code <= 3
    ensures Call(p, ReportCall(id, code, 0, 0, 0, 0, true))
         == p.(sent := p.sent + [Envelope(ConfigurationResult(id, Refusal(code)), View(p))], pending := None)
  {
  }

  // ----- Quiet states -----

  /** Both sides end on the same profile, which the output is committed to, and may begin another transaction. */
  ghost predicate Together(s: System, p: StreamProfile) {
    && Quiet(s) && s.desktop.active == p && s.phone.active == p && s.desktop.committed == Some(p)
  }

  lemma QuietAgain(s: System, moves: seq<Move>)
    requires Quiet(s)
    requires var s' := Play(s, moves);
             && Settled(s') && s'.desktop.active == s'.phone.active
             && s'.desktop.peer == s.desktop.peer && s'.phone.supported == s.phone.supported
    ensures Together(Play(s, moves), Play(s, moves).phone.active)
  {
    hide Play, Sound;
    PlayKeepsInv(s, moves);
  }

  lemma CommandAsks(d: Desktop, p: StreamProfile)
    requires d.status.Running? && d.pending.None? && d.common == CommonProfiles(d.local, d.peer)
    requires p in d.common && p != d.active
    ensures Step(d, TakeCommand(Wanting(p), FINE))
         == DesktopLaws.Asking(d.(taken := d.taken + [Taken(Wanting(p), d.active)]), p, Configure(d.active, Some(|d.taken|)), true)
  {
    CommonProfilesMeaning(d.local, d.peer, p);
    DesktopLaws.CommandIsTaken(d, Wanting(p), FINE);
    hide Step, CommonProfiles;
    assert DesktopLaws.Wanted(d, Wanting(p)) == Some(p);
  }

  /** The command leaves everything as it was, but for the request. */
  lemma Asks(s: System, p: StreamProfile) returns (id: U32)
    requires Quiet(s) && p in s.desktop.common && p != s.desktop.active
    ensures id == DesktopLaws.NextId(s.desktop.requestCounter)
    ensures var s' := Play(s, [Ask(p)]);
            && Waiting(s', id, p)
            && s' == s.(desktop := DesktopLaws.Asking(s.desktop.(taken := s'.desktop.taken), p,
                                                      Configure(s.desktop.active, Some(|s.desktop.taken|)), true))
  {
    CommonFacts(s, p);
    id := DesktopLaws.NextId(s.desktop.requestCounter);
    PlayOne(s, Ask(p));
    CommandAsks(s.desktop, p);
    hide Step, Inv, Agree, Play, ValidateProfile, Wanting;
  }

  // ----- The transactions -----

  /** A command whose request the phone applies, with the codec asked for or another, and whose change goes through:
      both sides have the new profile, the output is committed to it, the decoder is as new, the caller is told. */
  lemma AppliedRequest(s: System, p: StreamProfile, r: StreamProfile, env: Env)
    requires Quiet(s) && p in s.desktop.common && p != s.desktop.active
    requires r in s.desktop.common && SameShape(r, p) && DesktopLaws.GoesThrough(s.desktop, r, env)
    ensures var s' := Play(s, [Ask(p)] + Applying(DesktopLaws.NextId(s.desktop.requestCounter), r, env));
            && Together(s', r) && DesktopLaws.AsNew(s'.desktop.worker, r.codec)
            && s'.desktop.replies == s.desktop.replies + [Reply(|s.desktop.taken|, Ok(r))]
  {
    var id := Asks(s, p);
    CommonFacts(s, r);
    var s1 := Play(s, [Ask(p)]);
    hide Quiet, Waiting, Play, Step, DesktopLaws.AsNew;
    PlayJoins(s, [Ask(p)], Applying(id, r, env));
    Applies(s1, id, p, r, env);
    var s2 := Play(s1, Applying(id, r, env));
    DesktopLaws.ConfigureIsAnswered(s1.desktop, Applied(r), env);
    var free := s1.desktop.(pending := None);
    var switched :| DesktopLaws.Switched(free, switched, r)
                    && s2.desktop == DesktopLaws.Told(switched, Some(|s.desktop.taken|), Ok(r));
    assert Settled(s2);
    QuietAgain(s, [Ask(p)] + Applying(id, r, env));
  }

  /** A command whose request the phone refuses: both sides keep their profile, and the caller is told why. */
  lemma RefusedRequest(s: System, p: StreamProfile, code: U8)
    requires Quiet(s) && p in s.desktop.common && p != s.desktop.active && 1 <= code <= 3
    ensures var s' := Play(s, [Ask(p)] + Declining(DesktopLaws.NextId(s.desktop.requestCounter), code));
            && Together(s', s.desktop.active) && s'.desktop.worker == s.desktop.worker
            && s'.desktop.replies == s.desktop.replies + [Reply(|s.desktop.taken|, Err(Rejected(Refusal(code))))]
  {
    var id := Asks(s, p);
    var s1 := Play(s, [Ask(p)]);
    assert s.phone.active == s.desktop.active && s.desktop.committed == Some(s.desktop.active) by {
      CommonFacts(s, p);
    }
    hide Quiet, Waiting, Play, Step;
    PlayJoins(s, [Ask(p)], Declining(id, code));
    Declines(s1, id, p, code);
    DesktopLaws.ConfigureIsAnswered(s1.desktop, Refusal(code), FINE);
    assert Settled(Play(s1, Declining(id, code))) by { assert Quiet(s); }
    QuietAgain(s, [Ask(p)] + Declining(id, code));
  }

  /** The desktop waits for the phone to go back to `prior`; its decoder still runs. */
  ghost predicate TakingBack(s: System, prior: StreamProfile, reply: Option<nat>) {
    && s.desktop.pending.Some? && Waiting(s, s.desktop.pending.value.id, prior)
    && s.desktop.pending.value.kind == Compensation(prior, CommitFailed, reply) && s.desktop.worker.alive
    && prior in s.phone.supported && prior in s.phone.peerSupported
  }

  /** The phone goes back, and so does the desktop. */
  lemma GoesBack(s: System, prior: StreamProfile, reply: Option<nat>)
    requires TakingBack(s, prior, reply)
    ensures var s' := Play(s, Applying(s.desktop.pending.value.id, prior, FINE));
            && Settled(s') && s'.desktop.active == prior == s'.phone.active && s'.desktop.committed == Some(prior)
            && DesktopLaws.AsNew(s'.desktop.worker, prior.codec)
            && s'.desktop.peer == s.desktop.peer && s'.phone.supported == s.phone.supported
            && s'.desktop.replies == s.desktop.replies + (if reply.Some? then [Reply(reply.value, Err(CommitFailed))] else [])
  {
    hide Play, Step, DesktopLaws.AsNew;
    Applies(s, s.desktop.pending.value.id, prior, prior, FINE);
    DesktopLaws.CompensationIsAnswered(s.desktop, Applied(prior), FINE);
    var free, d' := s.desktop.(pending := None), Step(s.desktop, Message(ConfigurationResult(s.desktop.pending.value.id, Applied(prior)), FINE));
    var switched :| DesktopLaws.Switched(free, switched, prior) && d' == DesktopLaws.Told(switched, reply, Err(CommitFailed));
    assert s.desktop.replies + [] == s.desktop.replies;
  }

  lemma AppliedHalfWay(s: System, p: StreamProfile, r: StreamProfile, env: Env)
    requires s.desktop.pending.Some? && Waiting(s, s.desktop.pending.value.id, p)
    requires s.desktop.pending.value.requested == p && s.desktop.pending.value.kind.Configure?
    requires ValidateProfile(r).Ok? && r in s.phone.supported && r in s.phone.peerSupported
    requires r in s.desktop.common && SameShape(r, p)
    requires s.desktop.worker.alive && !DesktopLaws.GoesThrough(s.desktop, r, env) && env.sends
    requires var prior := s.desktop.pending.value.kind.prior;
             prior in s.phone.supported && prior in s.phone.peerSupported && ValidateProfile(prior).Ok?
    ensures var s', kind := Play(s, Applying(s.desktop.pending.value.id, r, env)), s.desktop.pending.value.kind;
            && TakingBack(s', kind.prior, kind.reply)
            && s'.desktop.pending.value.id == DesktopLaws.NextId(s.desktop.requestCounter)
            && s'.desktop.replies == s.desktop.replies
            && s'.desktop.peer == s.desktop.peer && s'.phone.supported == s.phone.supported
  {
    var id, kind := s.desktop.pending.value.id, s.desktop.pending.value.kind;
    Applies(s, id, p, r, env);
    DesktopLaws.ConfigureIsAnswered(s.desktop, Applied(r), env);
    hide Play, Step, ValidateProfile;
    var half :| DesktopLaws.HalfWay(s.desktop.(pending := None), half, r, env)
                && Play(s, Applying(id, r, env)).desktop
                   == DesktopLaws.Asking(half, kind.prior, Compensation(kind.prior, CommitFailed, kind.reply), env.sends);
  }

  /** A change that does not go through leaves the desktop waiting for the phone to go back. */
  lemma AsksBack(s: System, p: StreamProfile, r: StreamProfile, env: Env)
    requires Quiet(s) && p in s.desktop.common && p != s.desktop.active
    requires r in s.desktop.common && SameShape(r, p)
    requires s.desktop.worker.alive && !DesktopLaws.GoesThrough(s.desktop, r, env) && env.sends
    ensures var id := DesktopLaws.NextId(s.desktop.requestCounter);
            var s' := Play(s, [Ask(p)] + Applying(id, r, env));
            && TakingBack(s', s.desktop.active, Some(|s.desktop.taken|))
            && s'.desktop.pending.value.id == DesktopLaws.NextId(id) && s'.desktop.replies == s.desktop.replies
            && s'.desktop.peer == s.desktop.peer && s'.phone.supported == s.phone.supported
  {
    var id := Asks(s, p);
    CommonFacts(s, r);
    CommonFacts(s, s.desktop.active);
    hide Quiet, Play, Step, Waiting, TakingBack, ValidateProfile;
    PlayJoins(s, [Ask(p)], Applying(id, r, env));
    AppliedHalfWay(Play(s, [Ask(p)]), p, r, env);
  }

  /** A command whose request the phone applies, but whose change does not go through: the desktop asks for the old
      profile, both sides are back at it, the output is committed to it, and the caller is told. */
  lemma TakenBackRequest(s: System, p: StreamProfile, r: StreamProfile, env: Env)
    requires Quiet(s) && p in s.desktop.common && p != s.desktop.active
    requires r in s.desktop.common && SameShape(r, p)
    requires s.desktop.worker.alive && !DesktopLaws.GoesThrough(s.desktop, r, env) && env.sends
    ensures var id, prior := DesktopLaws.NextId(s.desktop.requestCounter), s.desktop.active;
            var s' := Play(s, [Ask(p)] + Applying(id, r, env) + Applying(DesktopLaws.NextId(id), prior, FINE));
            && Together(s', prior) && DesktopLaws.AsNew(s'.desktop.worker, prior.codec)
            && s'.desktop.replies == s.desktop.replies + [Reply(|s.desktop.taken|, Err(CommitFailed))]
  {
    var id, prior, ticket := DesktopLaws.NextId(s.desktop.requestCounter), s.desktop.active, |s.desktop.taken|;
    hide Quiet, Play, TakingBack, Waiting, DesktopLaws.AsNew, DesktopLaws.GoesThrough;
    AsksBack(s, p, r, env);
    var moves, back := [Ask(p)] + Applying(id, r, env), Applying(DesktopLaws.NextId(id), prior, FINE);
    GoesBack(Play(s, moves), prior, Some(ticket));
    PlayJoins(s, moves, back);
    QuietAgain(s, moves + back);
  }

  /** The phone switches to `r` by itself, and the desktop hears of it. */
  function Switching(r: StreamProfile, env: Env): seq<Move> {
    [Reporting(0, r), DesktopReceives(env)]
  }

  lemma Switches(s: System, r: StreamProfile, env: Env)
    requires Quiet(s) && r in s.desktop.common
    ensures var s' := Play(s, Switching(r, env));
            && s' == s.(desktop := Step(s.desktop, Message(ConfigurationResult(0, Applied(r)), env)),
                        phone := s.phone.(active := r, sent := s'.phone.sent), consumed := |s'.phone.sent|)
  {
    CommonFacts(s, r);
    hide Step, Call, Inv, Agree;
    ReportApplied(s.phone, 0, r);
    var s1 := Next(s, Reporting(0, r));
    Receives(s, s1.phone, s1.phone.sent[s.consumed], env);
    PlayOne(s, Reporting(0, r));
    PlayOne(s1, DesktopReceives(env));
    PlayJoins(s, [Reporting(0, r)], [DesktopReceives(env)]);
    assert Switching(r, env) == [Reporting(0, r)] + [DesktopReceives(env)];
  }

  /** A switch of the phone that the desktop can follow: both sides have the new profile, and nobody is told. */
  lemma FollowedSwitch(s: System, r: StreamProfile, env: Env)
    requires Quiet(s) && r in s.desktop.common && DesktopLaws.GoesThrough(s.desktop, r, env)
    ensures var s' := Play(s, Switching(r, env));
            && Together(s', r) && DesktopLaws.AsNew(s'.desktop.worker, r.codec) && s'.desktop.replies == s.desktop.replies
  {
    Switches(s, r, env);
    DesktopLaws.SwitchIsFollowed(s.desktop, Applied(r), env);
    hide Play, Step, DesktopLaws.AsNew, Inv, Agree;
    QuietAgain(s, Switching(r, env));
  }

  lemma SwitchesBack(s: System, r: StreamProfile, env: Env)
    requires Quiet(s) && r in s.desktop.common
    requires s.desktop.worker.alive && !DesktopLaws.GoesThrough(s.desktop, r, env) && env.sends
    ensures var s' := Play(s, Switching(r, env));
            && TakingBack(s', s.desktop.active, None)
            && s'.desktop.pending.value.id == DesktopLaws.NextId(s.desktop.requestCounter)
            && s'.desktop.replies == s.desktop.replies
            && s'.desktop.peer == s.desktop.peer && s'.phone.supported == s.phone.supported
  {
    CommonFacts(s, r);
    CommonFacts(s, s.desktop.active);
    Switches(s, r, env);
    DesktopLaws.SwitchIsFollowed(s.desktop, Applied(r), env);
    hide Play, Step, Inv, Agree;
    var kind := Compensation(s.desktop.active, CommitFailed, None);
    var half :| DesktopLaws.HalfWay(s.desktop, half, r, env)
                && Play(s, Switching(r, env)).desktop == DesktopLaws.Asking(half, s.desktop.active, kind, env.sends);
  }

  /** A switch of the phone that the desktop cannot follow is taken back. */
  lemma TakenBackSwitch(s: System, r: StreamProfile, env: Env)
    requires Quiet(s) && r in s.desktop.common
    requires s.desktop.worker.alive && !DesktopLaws.GoesThrough(s.desktop, r, env) && env.sends
    ensures var id, prior := DesktopLaws.NextId(s.desktop.requestCounter), s.desktop.active;
            var s' := Play(s, Switching(r, env) + Applying(id, prior, FINE));
            && Together(s', prior) && DesktopLaws.AsNew(s'.desktop.worker, prior.codec)
            && s'.desktop.replies == s.desktop.replies
  {
    var id, prior := DesktopLaws.NextId(s.desktop.requestCounter), s.desktop.active;
    hide Quiet, Play, TakingBack, Waiting, DesktopLaws.AsNew, DesktopLaws.GoesThrough;
    SwitchesBack(s, r, env);
    GoesBack(Play(s, Switching(r, env)), prior, None);
    PlayJoins(s, Switching(r, env), Applying(id, prior, FINE));
    QuietAgain(s, Switching(r, env) + Applying(id, prior, FINE));
    assert s.desktop.replies + [] == s.desktop.replies;
  }

  /** A frame the app sends in a quiet state reaches the decoder's queue as it was sent, if there is room. */
  lemma FrameTravels(s: System, data: seq<U8>, ptsUs: U64, isKeyframe: bool)
    requires Quiet(s) && data != [] && s.desktop.worker.alive && |s.desktop.worker.frames| < 2
    ensures var a := s.phone.active;
            var send := PhoneCalls(FrameCall(data, ptsUs, CodecId(a.codec), a.width, a.height, isKeyframe, true));
            var s' := Play(s, [send] + [DesktopReceives(FINE)]);
            && Together(s', a)
            && s'.desktop.worker.frames
               == s.desktop.worker.frames + [VideoFrame(data, ptsUs, a.codec, a.width, a.height, isKeyframe)]
  {
    var a := s.phone.active;
    var send := PhoneCalls(FrameCall(data, ptsUs, CodecId(a.codec), a.width, a.height, isKeyframe, true));
    var frame := VideoFrame(data, ptsUs, a.codec, a.width, a.height, isKeyframe);
    ClientLaws.FrameIsSent(s.phone, data, ptsUs, CodecId(a.codec), a.width, a.height, isKeyframe, true);
    PlayOne(s, send);
    var s1 := Next(s, send);
    assert s1.phone.sent == s.phone.sent + [Envelope(VideoFrameMessage(frame), View(s.phone))];
    DesktopLaws.FrameIsHandedOver(s.desktop, frame, FINE);
    assert s.phone.active == s.desktop.active by { CommonFacts(s, s.desktop.active); }
    hide Step, Play, Inv, Agree, MobileCore.SendVideoFrame;
    Receives(s, s1.phone, Envelope(VideoFrameMessage(frame), View(s.phone)), FINE);
    PlayOne(s1, DesktopReceives(FINE));
    PlayJoins(s, [send], [DesktopReceives(FINE)]);
    QuietAgain(s, [send] + [DesktopReceives(FINE)]);
  }
}
