/** Two runs that end in disagreement, with nothing pending and nothing under way, from any quiet state in which both
    sides support some other profile. They show that the conditions on an orderly run are needed. */
module Disagreement {

  import opened Wrappers
  import opened Protocol
  import opened Pipeline
  import opened MobileCore
  import opened Reconfiguration

  const FINE: Env := Env(true, true, true, true, true)

  /** Nothing is pending or under way, and both sides agree. */
  ghost predicate Quiet(s: System) {
    && Inv(s) && Agreeing(s)
    && s.desktop.status.Running? && s.desktop.pending.None?
    && s.phone.connected && s.phone.pending.None?
    && s.consumed == |s.phone.sent| && s.heard == |s.desktop.sent|
  }

  /** A connection starts quiet, so the runs below start from states the system reaches. */
  lemma EstablishedQuiet(phone: Handshake, local: seq<StreamProfile>, env: Env)
    requires Establish(phone, local, env).Some?
    ensures Quiet(Establish(phone, local, env).value)
  {
    EstablishedAgrees(phone, local, env);
    hide Inv, Agree;
  }

  /** Nothing is pending or under way any more. */
  predicate Settled(s: System) {
    && s.desktop.status.Running? && s.desktop.pending.None?
    && s.phone.connected && s.phone.pending.None?
    && s.consumed == |s.phone.sent| && s.heard == |s.desktop.sent|
  }

  /** The command that asks for exactly this profile. */
  function Wanting(p: StreamProfile): Command {
    Command(p.width, p.height, p.fps, if p.codec.H264? then PreferH264 else PreferHevc)
  }

  function Reporting(id: U32, p: StreamProfile): Move {
    PhoneCalls(ReportCall(id, 0, if p.codec.H264? then 0 else 1, p.width, p.height, p.fps, true))
  }

  /** In a quiet state a profile in common is legal and supported by the phone and the desktop. */
  lemma CommonFacts(s: System, p: StreamProfile)
    requires Quiet(s) && p in s.desktop.common
    ensures p in s.phone.supported && p in s.phone.peerSupported && ValidateProfile(p).Ok?
    ensures s.phone.active == s.desktop.active
  {
    CommonProfilesMeaning(s.desktop.local, s.desktop.peer, p);
    ValidateProfilesMeaning(s.phone.supported);
  }

  /** The user asks for `p`: the desktop sends a request and waits. */
  lemma AskStep(d: Desktop, p: StreamProfile)
    requires d.status.Running? && d.pending.None? && p in d.common && p != d.active
    ensures var d', id := Step(d, TakeCommand(Wanting(p), FINE)), NextRequestId(d.requestCounter);
            && d'.sent == d.sent + [ConfigureStream(id, p)] && d'.status.Running? && d'.active == d.active
            && d'.pending == Some(Pending(id, p, Configure(d.active, Some(|d.taken|))))
  {
    ResolveProfileMeaning(d.common, Wanting(p));
  }

  lemma PollOne(p: Phone, id: U32, profile: StreamProfile)
    requires p.connected && p.pending.None? && ValidateProfile(profile).Ok?
    ensures Poll(p, [ConfigureStream(id, profile)], false)
         == (p.(pending := Some((id, profile))), 1, Some(ConfigureStream(id, profile)))
  {
  }

  lemma ReportApplied(p: Phone, id: U32, profile: StreamProfile)
    requires p.connected && (id == 0 || (p.pending.Some? && p.pending.value.0 == id))
    requires ValidateProfile(profile).Ok? && profile in p.supported && profile in p.peerSupported
    ensures var p' := Call(p, Reporting(id, profile).call);
            && p'.active == profile && p'.sent == p.sent + [Envelope(ConfigurationResult(id, Applied(profile)), View(p'))]
            && p' == p.(active := profile, sent := p'.sent, pending := if id == 0 then p.pending else None)
  {
  }

  /** A request times out, the phone applies it anyway, and its answer finds nobody waiting. */
  lemma LateAnswer(s: System, p: StreamProfile) returns (s': System, moves: seq<Move>)
    requires Quiet(s) && p in s.desktop.common && p != s.desktop.active
    ensures s' == Play(s, moves) && Settled(s')
    ensures s'.desktop.active == s.desktop.active && s'.phone.active == p
  {
    hide Coherent, Sound, LogExplains, ViewAt, Step, Call, Poll;
    var id := NextRequestId(s.desktop.requestCounter);
    NextRequestIdValue(s.desktop.requestCounter);
    var ask, expire, poll := DesktopActs(TakeCommand(Wanting(p), FINE)), DesktopActs(Tick(true)), PhonePolls(1, false);
    var report, receive := Reporting(id, p), DesktopReceives(FINE);
    CommonFacts(s, p);
    AskStep(s.desktop, p);
    var s1 := Next(s, ask);
    ExpireStep(s1);
    var s2 := Next(s1, expire);
    assert s2.desktop.sent[s2.heard..s2.heard + 1] == [ConfigureStream(id, p)];
    PollOne(s2.phone, id, p);
    var s3 := Next(s2, poll);
    ReportApplied(s3.phone, id, p);
    var s4 := Next(s3, report);
    IgnoredResult(s4.desktop, id, p);
    s' := Next(s4, receive);
    moves := [ask, expire, poll, report, receive];
    PlayFive(s, ask, expire, poll, report, receive);
  }

  /** The desktop asks for `q`; while it waits, the phone switches to `p` on its own, and then refuses `q`. */
  lemma SwitchWhileWaiting(s: System, p: StreamProfile, q: StreamProfile) returns (s': System, moves: seq<Move>)
    requires Quiet(s) && p in s.desktop.common && q in s.desktop.common
    requires p != s.desktop.active && q != s.desktop.active
    ensures s' == Play(s, moves) && Settled(s')
    ensures s'.desktop.active == s.desktop.active && s'.phone.active == p
  {
    hide Coherent, Sound, LogExplains, ViewAt, Step, Call, Poll;
    var id := NextRequestId(s.desktop.requestCounter);
    NextRequestIdValue(s.desktop.requestCounter);
    var ask, report, poll := DesktopActs(TakeCommand(Wanting(q), FINE)), Reporting(0, p), PhonePolls(1, false);
    var refuse, receive := Refusing(id), DesktopReceives(FINE);
    CommonFacts(s, p);
    CommonFacts(s, q);
    AskStep(s.desktop, q);
    var s1 := Next(s, ask);
    ReportApplied(s1.phone, 0, p);
    var s2 := Next(s1, report);
    IgnoredResult(s2.desktop, 0, p);
    var s3 := Next(s2, receive);
    assert s3.desktop.sent[s3.heard..s3.heard + 1] == [ConfigureStream(id, q)];
    PollOne(s3.phone, id, q);
    var s4 := Next(s3, poll);
    RefusalReported(s4.phone, id);
    var s5 := Next(s4, refuse);
    RefusalSettles(s5.desktop, id);
    s' := Next(s5, receive);
    moves := [ask, report, receive, poll, refuse, receive];
    PlaySix(s, ask, report, receive, poll, refuse, receive);
  }

  function Refusing(id: U32): Move {
    PhoneCalls(ReportCall(id, 1, 0, 0, 0, 0, true))
  }

  lemma RefusalReported(p: Phone, id: U32)
    requires p.connected && p.pending.Some? && p.pending.value.0 == id != 0
    ensures var p' := Call(p, Refusing(id).call);
            p' == p.(sent := p.sent + [Envelope(ConfigurationResult(id, UnsupportedProfile), View(p))], pending := None)
  {
  }

  lemma RefusalSettles(d: Desktop, id: U32)
    requires d.status.Running? && d.pending.Some? && d.pending.value.id == id != 0 && d.pending.value.kind.Configure?
    ensures var d' := Step(d, Message(ConfigurationResult(id, UnsupportedProfile), FINE));
            d' == d.(pending := None, replies := d'.replies)
  {
  }

  lemma ExpireStep(s: System)
    requires s.desktop.status.Running?
    requires s.desktop.pending.Some? && s.desktop.pending.value.kind.Configure?
    ensures var d, d' := s.desktop, Next(s, DesktopActs(Tick(true))).desktop;
            d' == d.(pending := None, replies := d'.replies)
  {
  }

  lemma IgnoredResult(d: Desktop, id: U32, p: StreamProfile)
    requires d.status.Running?
    requires if id == 0 then d.pending.Some? && d.pending.value.id != 0 else d.pending.None?
    ensures Step(d, Message(ConfigurationResult(id, Applied(p)), FINE)) == d
  {
  }

  /** A whole sequence of moves. */
  ghost function Play(s: System, moves: seq<Move>): System
    decreases |moves|
  {
    if moves == [] then s else Play(Next(s, moves[0]), moves[1..])
  }

  lemma PlayThree(s: System, a: Move, b: Move, c: Move)
    ensures Play(s, [a, b, c]) == Next(Next(Next(s, a), b), c)
  {
    hide Next;
    assert [a, b, c][1..] == [b, c] && [b, c][1..] == [c] && [c][1..] == [];
    assert Play(Next(Next(s, a), b), [c]) == Play(Next(Next(Next(s, a), b), c), []);
  }

  lemma PlayFive(s: System, a: Move, b: Move, c: Move, d: Move, e: Move)
    ensures Play(s, [a, b, c, d, e]) == Next(Next(Next(Next(Next(s, a), b), c), d), e)
  {
    hide Next;
    assert [a, b, c, d, e][1..] == [b, c, d, e] && [b, c, d, e][1..] == [c, d, e];
    PlayThree(Next(Next(s, a), b), c, d, e);
    assert Play(Next(s, a), [b, c, d, e]) == Play(Next(Next(s, a), b), [c, d, e]);
  }

  lemma PlaySix(s: System, a: Move, b: Move, c: Move, d: Move, e: Move, f: Move)
    ensures Play(s, [a, b, c, d, e, f]) == Next(Next(Next(Next(Next(Next(s, a), b), c), d), e), f)
  {
    hide Next;
    assert [a, b, c, d, e, f][1..] == [b, c, d, e, f];
    PlayFive(Next(s, a), b, c, d, e, f);
  }
}
