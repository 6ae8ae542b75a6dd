/** What the decode worker owes its user: every frame that can be decoded is, and a keyframe is asked for exactly when
    one is needed. */
module DecodingLaws {

  import opened Wrappers
  import opened Protocol
  import opened Decoding

  // ----- Every picture comes out -----

  /** Frames of one codec are sent and decoded, and the first one sent is a keyframe. */
  ghost predicate PlainRun(actions: seq<Action>, codec: VideoCodec) {
    && (forall a | a in actions :: (a.Send? && a.frame.codec == codec) || (a.Turn? && a.outcome.Decoded?) || a.Receive?)
    && (forall i | 0 <= i < |actions| && actions[i].Send? && NoSend(actions[..i]) :: actions[i].frame.isKeyframe)
  }

  ghost predicate NoSend(actions: seq<Action>) {
    forall a | a in actions :: !a.Send?
  }

  /** A queue of two: how many frames wait, and what the library returned for those that were handled. */
  datatype Progress = Progress(waiting: nat, returned: seq<Picture>)

  ghost function Returned(actions: seq<Action>): Progress {
    if actions == [] then Progress(0, [])
    else
      var before, last := Returned(actions[..|actions| - 1]), actions[|actions| - 1];
      match last
      case Send(_) => if before.waiting < 2 then before.(waiting := before.waiting + 1) else before
      case Turn(Decoded(pictures), _) =>
        if before.waiting > 0 then Progress(before.waiting - 1, before.returned + pictures) else before
      case _ => before
  }

  ghost predicate OnlyPictures(events: seq<DecodeEvent>) {
    forall e | e in events :: e.Frame?
  }

  ghost function PicturesOf(events: seq<DecodeEvent>): seq<Picture>
    requires OnlyPictures(events)
  {
    seq(|events|, i requires 0 <= i < |events| => events[i].picture)
  }

  /** How far a plain run has come: nothing was sent yet, or a keyframe is next, or the gate is open. */
  ghost predicate Along(w: Worker, codec: VideoCodec, actions: seq<Action>) {
    && w.alive && w.codec == codec
    && |w.frames| == Returned(actions).waiting
    && (forall f | f in w.frames :: f.codec == codec)
    && (NoSend(actions) ==> w.frames == [])
    && (w.waitingForIdr && !NoSend(actions) ==> w.frames != [] && w.frames[0].isKeyframe)
  }

  lemma AlongStep(w: Worker, codec: VideoCodec, init: seq<Action>, a: Action)
    requires Along(w, codec, init)
    requires (a.Send? && a.frame.codec == codec) || (a.Turn? && a.outcome.Decoded?) || a.Receive?
    requires a.Send? && NoSend(init) ==> a.frame.isKeyframe
    ensures Along(Step(w, a), codec, init + [a])
    ensures OnlyPictures(Emits(w, a))
    ensures PicturesOf(Emits(w, a)) == if a.Turn? && Returned(init).waiting > 0 then a.outcome.pictures else []
  {
    assert (init + [a])[..|init|] == init;
    assert NoSend(init + [a]) <==> NoSend(init) && !a.Send? by {
      assert a in init + [a] && forall b | b in init :: b in init + [a];
    }
  }

  lemma {:induction false} AlongRun(w: Worker, codec: VideoCodec, actions: seq<Action>)
    requires Along(w, codec, []) && PlainRun(actions, codec)
    ensures Along(Run(w, actions), codec, actions)
    ensures OnlyPictures(Emitted(w, actions)) && PicturesOf(Emitted(w, actions)) == Returned(actions).returned
  {
    hide Along, Step, Emits;
    if actions == [] {
    } else {
      var init, last := actions[..|actions| - 1], actions[|actions| - 1];
      PlainPrefix(actions, codec);
      AlongRun(w, codec, init);
      assert last in actions && actions == init + [last];
      hide PlainRun, Run;
      AlongStep(Run(w, init), codec, init, last);
      PicturesJoin(Emitted(w, init), Emits(Run(w, init), last));
      assert Returned(init).returned + [] == Returned(init).returned;
    }
  }

  /** The events a run's receiver took from the queue. */
  ghost function Received(w: Worker, actions: seq<Action>): seq<DecodeEvent> {
    if actions == [] then []
    else
      var init := actions[..|actions| - 1];
      Received(w, init)
      + if actions[|actions| - 1].Receive? && Run(w, init).events != [] then [Run(w, init).events[0]] else []
  }

  /** Between resets no event is lost, reordered or made up: those received and those still queued are those queued
      at first and those emitted since. */
  lemma {:induction false} EventsAreKept(w: Worker, actions: seq<Action>)
    requires NoRestart(actions)
    ensures Received(w, actions) + Run(w, actions).events == w.events + Emitted(w, actions)
  {
    if actions == [] {
      assert w.events + [] == w.events;
    } else {
      var init, last := actions[..|actions| - 1], actions[|actions| - 1];
      EventsAreKept(w, init);
      assert last in actions && !last.Restart?;
      EventStep(Run(w, init), last);
      hide Step, Emits;
      var before, after, now := Run(w, init).events, Run(w, actions).events, Emits(Run(w, init), last);
      hide Run;
      Regroup(w.events, Emitted(w, init), now);
      if last.Receive? && before != [] {
        Regroup(Received(w, init), [before[0]], after);
        assert w.events + (Emitted(w, init) + []) == w.events + Emitted(w, init);
      } else {
        Regroup(Received(w, init), before, now);
        assert Received(w, init) + [] == Received(w, init);
      }
    }
  }

  lemma Regroup(a: seq<DecodeEvent>, b: seq<DecodeEvent>, c: seq<DecodeEvent>)
    ensures a + b + c == a + (b + c)
  {
  }

  lemma EventStep(w: Worker, a: Action)
    requires !a.Restart?
    ensures if a.Receive? && w.events != [] then w.events == [w.events[0]] + Step(w, a).events && Emits(w, a) == []
            else Step(w, a).events == w.events + Emits(w, a)
  {
    hide FramesOf;
    assert w.events + [] == w.events;
  }

  /** After a successful reset to either codec, a run of frames of that codec that starts with a keyframe and that
      the library decodes delivers exactly the pictures the library returned, in order, received or still queued:
      nothing is refused, and no keyframe is asked for. */
  lemma EveryPictureComesOut(w: Worker, codec: VideoCodec, starts: bool, actions: seq<Action>)
    requires w.alive && (codec.Hevc? || starts) && PlainRun(actions, codec)
    ensures Reset(w, codec, starts).1
    ensures var fresh' := Reset(w, codec, starts).0;
            var delivered := Received(fresh', actions) + Run(fresh', actions).events;
            OnlyPictures(delivered) && PicturesOf(delivered) == Returned(actions).returned
  {
    var fresh' := Reset(w, codec, starts).0;
    ResetExactly(w, codec, starts);
    StartsAlong(fresh', codec);
    assert NoRestart(actions);
    hide Along, Reset, Run, PlainRun, NoRestart, Received, Emitted;
    AlongRun(fresh', codec, actions);
    EventsAreKept(fresh', actions);
    assert [] + Emitted(fresh', actions) == Emitted(fresh', actions);
  }

  lemma StartsAlong(w: Worker, codec: VideoCodec)
    requires w.alive && w.codec == codec && w.frames == []
    ensures Along(w, codec, [])
  {
    assert NoSend([]);
  }

  lemma PlainPrefix(actions: seq<Action>, codec: VideoCodec)
    requires actions != [] && PlainRun(actions, codec)
    ensures PlainRun(actions[..|actions| - 1], codec)
  {
    var init := actions[..|actions| - 1];
    assert forall i | 0 <= i < |init| :: init[..i] == actions[..i] && init[i] == actions[i];
  }

  lemma PicturesJoin(a: seq<DecodeEvent>, b: seq<DecodeEvent>)
    requires OnlyPictures(a) && OnlyPictures(b)
    ensures OnlyPictures(a + b) && PicturesOf(a + b) == PicturesOf(a) + PicturesOf(b)
  {
  }

  // ----- A keyframe is asked for exactly when one is needed -----

  /** The oldest waiting frame cannot be decoded: it has another codec, or the current backend has decoded nothing
      yet and this is no keyframe. */
  ghost predicate Refused(w: Worker) {
    w.alive && w.frames != [] &&
    (w.frames[0].codec != w.codec || (Backend(w) == [] && !w.frames[0].isKeyframe))
  }

  /** A decode call was made, and the library failed or panicked; the backend can be replaced unless it is the
      H.264 one and does not start. */
  ghost predicate Fails(w: Worker, a: Action) {
    w.alive && w.frames != [] && !Refused(w) && a.Turn? && !a.outcome.Decoded?
  }

  ghost predicate Replaced(w: Worker, a: Action) {
    Fails(w, a) && (w.codec.Hevc? || a.restarts)
  }

  /** In every reachable state: a step asks for recovery exactly if it refuses a frame, or a decode call failed without
      a panic and its backend was replaced; it reports an error exactly if a backend was replaced; it ends the thread
      exactly if one could not be; and it takes exactly one waiting frame per turn. */
  lemma RecoveryExactly(actions: seq<Action>, a: Action)
    ensures var w := Run(STARTED, actions);
            && (RecoveryRequired in Emits(w, a) <==> a.Turn? && (Refused(w) || (Replaced(w, a) && a.outcome.DecodeFailed?)))
            && (Error in Emits(w, a) <==> Replaced(w, a))
            && (w.alive && !Step(w, a).alive <==> Fails(w, a) && !Replaced(w, a))
            && (a.Turn? && w.alive && w.frames != [] ==> Step(w, a).frames == w.frames[1..])
  {
    GateOverRuns(actions);
    var w := Run(STARTED, actions);
    hide Run;
    if a.Turn? && a.outcome.Decoded? && w.alive && w.frames != [] && PassesGate(w, w.frames[0]) {
      assert forall e | e in Emits(w, a) :: e.Frame?;
    }
  }

  /** After a failure the gate is shut, and every delta frame is refused until a keyframe of the codec is decoded. */
  lemma FailureShutsTheGate(actions: seq<Action>, a: Action)
    requires Replaced(Run(STARTED, actions), a)
    ensures var w := Step(Run(STARTED, actions), a);
            && w.alive && Backend(w) == []
            && (w.frames != [] && !w.frames[0].isKeyframe ==> Refused(w))
  {
    GateOverRuns(actions);
    hide Run;
  }

  /** A reset succeeds exactly if the thread lives and the new backend starts. Then nothing of the past is left;
      otherwise only the waiting frames are dropped, and a dead thread drops nothing. */
  lemma ResetExactly(w: Worker, codec: VideoCodec, starts: bool)
    ensures var (w', ok) := Reset(w, codec, starts);
            && (ok <==> w.alive && (codec.Hevc? || starts))
            && (ok ==> w'.alive && w'.codec == codec && Backend(w') == [] && w'.waitingForIdr && w'.frames == [] && w'.events == [])
            && (!ok ==> w' == w.(frames := if w.alive then [] else w.frames))
  {
  }

  // ----- A whole access unit -----

  /** The library takes every unit of the list, and can show what it returns. */
  ghost predicate AllTaken(fed: seq<Nal>, nals: seq<Nal>, library: seq<Nal> -> NalOutcome)
    decreases |nals|
  {
    nals != [] ==>
      && (nals[0].kind.Idr? ==> ParametersKnown(fed))
      && !library(fed + [nals[0]]).NalFailed?
      && (library(fed + [nals[0]]).GotPicture? ==> library(fed + [nals[0]]).convertible)
      && AllTaken(fed + [nals[0]], nals[1..], library)
  }

  /** What the library returns for the units, one after the other. */
  ghost function Shown(fed: seq<Nal>, nals: seq<Nal>, library: seq<Nal> -> NalOutcome): seq<Picture>
    decreases |nals|
  {
    if nals == [] then []
    else
      var more := fed + [nals[0]];
      (if library(more).GotPicture? then [library(more).picture] else []) + Shown(more, nals[1..], library)
  }

  /** Decoding succeeds exactly if every unit is taken, and then returns every picture, in order. */
  lemma {:induction false} DecodeNalsExactly(fed: seq<Nal>, nals: seq<Nal>, library: seq<Nal> -> NalOutcome)
    ensures DecodeNals(fed, nals, library).1.Ok? <==> AllTaken(fed, nals, library)
    ensures AllTaken(fed, nals, library) ==> DecodeNals(fed, nals, library) == (fed + nals, Ok(Shown(fed, nals, library)))
    decreases |nals|
  {
    hide ParametersKnown;
    if nals == [] {
      assert fed + [] == fed;
    } else {
      var more := fed + [nals[0]];
      DecodeNalsExactly(more, nals[1..], library);
      assert more + nals[1..] == fed + nals;
      assert [] + Shown(more, nals[1..], library) == Shown(more, nals[1..], library);
    }
  }
}
