/**
 What becomes of a played turn: it breaks only for a reason, a stop comes to an end,
 and what was queued and finished is played out.
 */
module PlaybackTurns {
  import opened Common
  import opened ByteRing
  import opened AssistantPlayback
  import opened PlaybackRuns

  // ---------------------------------------------------------- what can go wrong

  /** A write that pushes less than asked. */
  predicate ShortWrite(cfg: Config, s: Sys, written: nat) {
    (s.worker.WritingSilence? && written < cfg.prime) || (s.worker.Writing? && written < |s.worker.item|)
  }

  /** A call that waited for too long: for room on the ring, or for the worker. */
  predicate TooLate(s: Sys) {
    (s.net.Queueing? && Send(s.ring, s.net.bytes).None?) || (s.net.AwaitingWorker? && !s.flags.complete)
  }

  /** Nothing to play: an empty delta, or the end of a turn in which nothing was queued. */
  predicate Empty(s: Sys, c: Call) {
    s.net.Streaming? && ((c.Queue? && c.bytes == []) || (c.Finish? && s.queued == []))
  }

  /** Whether anything of this has happened to the turn at hand, or the worker was still receiving when it began. */
  function Hurt(cfg: Config, actions: seq<Action>): bool {
    if actions == [] then false
    else
      var before := actions[..|actions| - 1];
      HurtNext(cfg, Hurt(cfg, before), Run(cfg, before), actions[|actions| - 1])
  }

  function HurtNext(cfg: Config, hurt: bool, s: Sys, a: Action): bool {
    match a
    case StepWorker(written) => hurt || ShortWrite(cfg, s, written)
    case StepNet(NewTurn) =>
      if s.net.Outside? then s.worker.Receiving? || s.worker.RebufferWait? || s.worker.Writing? else hurt
    case StepNet(GoOn(late)) => hurt || (late && TooLate(s))
    case StepNet(c) => hurt || Empty(s, c)
  }

  // -------------------------------------------------------------- invariant

  predicate BeforeAudio(n: Net) {
    n.Outside? || n.InTurn? || n.Enabling? || n.PrimeEnabled? || n.Primed? || n.Announcing? || n.CheckingStart?
    || n.CheckingDepth?
  }

  predicate WithAudio(n: Net) {
    n.AwaitingWorker? || n.CheckingOutcome? || n.Finished?
  }

  /** Everything has been queued, and the turn is being finished. */
  predicate IsDone(n: Net) {
    WithAudio(n) || n.Finishing? || (n.CheckingStart? && n.fin) || (n.CheckingDepth? && n.fin)
    || (n.StartingAudio? && n.fin)
  }

  /** The worker has not begun to play. */
  predicate NotPlaying(w: Worker) {
    w.Idle? || w.PrimeWait? || w.WritingSilence?
  }

  /** How far the start of the audio has got. */
  ghost predicate InOrder(s: Sys) {
    && (BeforeAudio(s.net) ==> !s.flags.audioReady && !s.started)
    && (s.net.StartingAudio? ==> s.started && !s.flags.audioReady)
    && (WithAudio(s.net) ==> s.started && s.flags.audioReady)
    && (s.net.Streaming? || s.net.Queueing? || s.net.Queued? || s.net.Finishing? || s.net.Overflowing? ==>
          s.flags.audioReady == s.started)
    && (!PastPriming(s.net) ==> s.flags.complete)
    && (s.net.Outside? ==> !s.flags.prime)
    && (IsDone(s.net) ==> s.flags.producerDone)
    && (s.worker.Writing? ==> s.worker.item != [])
    && (s.net.Unreadying? ==> s.flags.complete && !s.flags.prime)
    && (s.net.Discarding? ==> s.flags.complete && !s.flags.prime)
    && (s.net.StopUnprimed? || s.net.Aborting? || s.net.StopWaiting? ==> !s.flags.prime)
    && (s.net.StopWaiting? ==> s.flags.abort)
  }

  /** As long as nothing goes wrong, the turn is not broken, and nothing is played before its audio is started. */
  ghost predicate Unhurt(s: Sys) {
    && !s.flags.failed && !s.net.Broken? && !s.net.Overflowing?
    && (!Stopping(s.net) && !s.flags.audioReady ==> NotPlaying(s.worker) && |s.ring.content| == |s.queued|)
    && (!Stopping(s.net) && PastPriming(s.net) && s.flags.complete ==> s.flags.audioReady)
    && (s.net.Finishing? || s.net.CheckingStart? || s.net.CheckingDepth? ==> s.queued != [])
  }

  ghost predicate Honest(hurt: bool, s: Sys) {
    InOrder(s) && (!hurt && !s.net.Outside? ==> Unhurt(s))
  }

  lemma LoopIsHonest(cfg: Config, hurt: bool, s: Sys)
    requires SoundFlags(s.flags, s.net) && Honest(hurt, s) && !s.worker.Writing?
    ensures Honest(hurt, Loop(cfg, s))
  {
  }

  /** The same once a piece has been written. */
  lemma WrittenIsHonest(hurt: bool, s: Sys, w: Write, r: Ring)
    requires Honest(hurt, s) && s.worker.Writing? && r == ReturnItem(s.ring)
    ensures Honest(hurt, s.(sink := s.sink + [w], ring := r, worker := Receiving))
  {
  }

  lemma SilenceIsHonest(hurt: bool, s: Sys, w: Write)
    requires Honest(hurt, s)
    ensures Honest(hurt, s.(sink := s.sink + [w]))
  {
  }

  lemma FailureIsHonest(hurt: bool, s: Sys, w: seq<Write>, r: Ring)
    requires Honest(hurt, s)
    ensures Honest(true, WriteFailed(s.(sink := w, ring := r)))
  {
  }

  lemma ReceivingIsHonest(cfg: Config, hurt: bool, s: Sys, written: nat)
    requires ValidConfig(cfg) && SoundFlags(s.flags, s.net) && Honest(hurt, s) && s.worker.Receiving?
    ensures Honest(hurt, WorkerStep(cfg, s, written))
  {
    LoopIsHonest(cfg, hurt, s.(waiting := true));
    hide Loop;
  }

  lemma LoopIgnoresWorker(cfg: Config, s: Sys, w: Worker)
    ensures Loop(cfg, s.(worker := w)) == Loop(cfg, s)
  {
  }

  lemma WorkerIsHonest(cfg: Config, hurt: bool, s: Sys, written: nat)
    requires ValidConfig(cfg) && SoundFlags(s.flags, s.net) && Honest(hurt, s)
    ensures Honest(HurtNext(cfg, hurt, s, StepWorker(written)), WorkerStep(cfg, s, written))
  {
    hide Loop, Honest, WriteFailed, SoundFlags;
    match s.worker
    case Receiving => ReceivingIsHonest(cfg, hurt, s, written);
    case Writing(item) =>
      var w := Write(true, item[..Min(written, |item|)]);
      var t := s.(sink := s.sink + [w], ring := ReturnItem(s.ring));
      WrittenIsHonest(hurt, s, w, ReturnItem(s.ring));
      LoopIsHonest(cfg, hurt, t.(worker := Receiving));
      LoopIgnoresWorker(cfg, t, Receiving);
      FailureIsHonest(hurt, s, s.sink + [w], ReturnItem(s.ring));
    case WritingSilence =>
      var w := Write(false, Silence(Min(written, cfg.prime)));
      SilenceIsHonest(hurt, s, w);
      LoopIsHonest(cfg, hurt, s.(sink := s.sink + [w]));
      FailureIsHonest(hurt, s, s.sink + [w], s.ring);
    case _ =>
      IdleIsHonest(hurt, s);
      LoopIsHonest(cfg, hurt, s.(waiting := false));
      LoopIsHonest(cfg, hurt, s);
  }

  lemma IdleIsHonest(hurt: bool, s: Sys)
    requires Honest(hurt, s)
    ensures Honest(hurt, s.(waiting := false))
  {
  }

  lemma CallIsHonest(cfg: Config, hurt: bool, s: Sys, c: Call)
    requires ValidConfig(cfg) && Sound(cfg, s) && Honest(hurt, s) && !c.GoOn?
    ensures Honest(HurtNext(cfg, hurt, s, StepNet(c)), NetStep(cfg, s, c))
  {
    hide SoundRing, Conserved, FullSilence;
  }

  lemma QueueGoesOnHonestly(cfg: Config, hurt: bool, s: Sys, late: bool)
    requires ValidConfig(cfg) && Sound(cfg, s) && Honest(hurt, s)
    requires s.net.Queueing? || s.net.Overflowing? || s.net.Queued? || s.net.AwaitingWorker? || s.net.CheckingOutcome?
    ensures Honest(HurtNext(cfg, hurt, s, StepNet(GoOn(late))), NetGoesOn(cfg, s, late))
  {
    hide Conserved, FullSilence, SilenceThenAudio, NoAudio, ValidRing, SoundCompletion;
  }

  lemma StartGoesOnHonestly(cfg: Config, hurt: bool, s: Sys, late: bool)
    requires ValidConfig(cfg) && Sound(cfg, s) && Honest(hurt, s)
    requires s.net.CheckingStart? || s.net.CheckingDepth? || s.net.StartingAudio? || s.net.Finishing?
    ensures Honest(HurtNext(cfg, hurt, s, StepNet(GoOn(late))), NetGoesOn(cfg, s, late))
  {
    hide Conserved, FullSilence, SilenceThenAudio, NoAudio, SoundSilence;
  }

  lemma PrimingGoesOnHonestly(cfg: Config, hurt: bool, s: Sys, late: bool)
    requires ValidConfig(cfg) && Sound(cfg, s) && Honest(hurt, s)
    requires s.net.Enabling? || s.net.PrimeEnabled? || s.net.Announcing?
    ensures Honest(HurtNext(cfg, hurt, s, StepNet(GoOn(late))), NetGoesOn(cfg, s, late))
  {
    hide Conserved, FullSilence, SilenceThenAudio, NoAudio, SoundSilence, SoundRing, Send, Discard;
  }

  lemma StopGoesOnHonestly(cfg: Config, hurt: bool, s: Sys, late: bool)
    requires ValidConfig(cfg) && Sound(cfg, s) && Honest(hurt, s)
    requires s.net.StopDone? || s.net.StopUnprimed? || s.net.Aborting? || s.net.StopWaiting? || s.net.Discarding?
             || s.net.Unreadying?
    ensures Honest(HurtNext(cfg, hurt, s, StepNet(GoOn(late))), NetGoesOn(cfg, s, late))
  {
    hide Conserved, FullSilence, SilenceThenAudio, NoAudio, SoundSilence, SoundRing, Send, Discard;
  }

  /** There is no call that could go on. */
  lemma NothingGoesOn(cfg: Config, hurt: bool, s: Sys, late: bool)
    requires s.net.Outside? || s.net.InTurn? || s.net.Primed? || s.net.Streaming? || s.net.Finished? || s.net.Broken?
    ensures NetGoesOn(cfg, s, late) == s && HurtNext(cfg, hurt, s, StepNet(GoOn(late))) == hurt
  {
  }

  lemma GoOnIsHonest(cfg: Config, hurt: bool, s: Sys, late: bool)
    requires ValidConfig(cfg) && Sound(cfg, s) && Honest(hurt, s)
    ensures Honest(HurtNext(cfg, hurt, s, StepNet(GoOn(late))), NetGoesOn(cfg, s, late))
  {
    hide Sound, Honest, HurtNext, NetGoesOn;
    if s.net.Queueing? || s.net.Overflowing? || s.net.Queued? || s.net.AwaitingWorker? || s.net.CheckingOutcome? {
      QueueGoesOnHonestly(cfg, hurt, s, late);
    } else if s.net.CheckingStart? || s.net.CheckingDepth? || s.net.StartingAudio? || s.net.Finishing? {
      StartGoesOnHonestly(cfg, hurt, s, late);
    } else if s.net.Enabling? || s.net.PrimeEnabled? || s.net.Announcing? {
      PrimingGoesOnHonestly(cfg, hurt, s, late);
    } else if s.net.StopDone? || s.net.StopUnprimed? || s.net.Aborting? || s.net.StopWaiting? || s.net.Discarding?
              || s.net.Unreadying? {
      StopGoesOnHonestly(cfg, hurt, s, late);
    } else {
      NothingGoesOn(cfg, hurt, s, late);
    }
  }

  lemma SoundHasFlags(cfg: Config, s: Sys)
    requires Sound(cfg, s)
    ensures SoundFlags(s.flags, s.net)
  {
  }

  lemma {:induction false} RunIsHonest(cfg: Config, actions: seq<Action>)
    requires ValidConfig(cfg)
    ensures Honest(Hurt(cfg, actions), Run(cfg, actions)) && Sound(cfg, Run(cfg, actions))
  {
    RunIsSound(cfg, actions);
    if actions != [] {
      var before, last := actions[..|actions| - 1], actions[|actions| - 1];
      RunIsHonest(cfg, before);
      var hurt, s := Hurt(cfg, before), Run(cfg, before);
      assert Run(cfg, actions) == Do(cfg, s, last);
      SoundHasFlags(cfg, s);
      hide Sound, Run, WorkerStep, NetGoesOn;
      match last
      case StepWorker(written) => WorkerIsHonest(cfg, hurt, s, written);
      case StepNet(c) =>
        if c.GoOn? {
          GoOnIsHonest(cfg, hurt, s, c.late);
        } else {
          CallIsHonest(cfg, hurt, s, c);
        }
    }
  }

  // ------------------------------------------------------------ main results

  /**
   A turn that is not hurt is not broken: without a short write, a wait that took too
   long, an empty delta or response, or a worker left over from the turn before, no
   call fails.
   */
  lemma BrokenForAReason(cfg: Config, actions: seq<Action>)
    requires ValidConfig(cfg) && !Hurt(cfg, actions)
    ensures var s := Run(cfg, actions); s.net.Outside? || (!s.net.Broken? && !s.flags.failed)
  {
    RunIsHonest(cfg, actions);
  }

  /** Between turns nothing of the last one is left: no flag but completion, no audio started, nothing on the ring. */
  lemma RestBetweenTurns(cfg: Config, actions: seq<Action>)
    requires ValidConfig(cfg)
    ensures var s := Run(cfg, actions);
      s.net.Outside? ==>
        s.flags.complete && !s.flags.prime && !s.flags.audioReady && !s.started && s.ring.content == []
    ensures Run(cfg, []) == Sys(Flags(false, false, false, false, false, true), Ring(cfg.capacity, 0, [], 0), Outside,
                                Idle, false, false, [], [])
  {
    RunIsHonest(cfg, actions);
  }

  /** A new turn begins with nothing queued or written, and with its worker complete. */
  lemma NewTurnBegins(cfg: Config, s: Sys)
    requires s.net.Outside?
    ensures var t := NetStep(cfg, s, NewTurn);
      && t.net.InTurn? && t.flags == Flags(false, false, false, false, false, true) && !t.started
      && t.queued == [] && t.sink == [] && t.ring == s.ring && t.worker == s.worker
  {
  }

  /** Exactly when a call breaks the turn. */
  lemma BrokenExactly(cfg: Config, s: Sys, c: Call)
    requires !s.net.Broken?
    ensures NetStep(cfg, s, c).net.Broken? <==>
              match c
              case StartPriming => s.net.InTurn? && !s.flags.complete
              case StartPlayback => s.net.Primed? && s.flags.failed
              case Queue(bytes) => s.net.Streaming? && (bytes == [] || s.flags.failed)
              case GoOn(late) =>
                || s.net.Overflowing? || (s.net.CheckingStart? && s.flags.complete)
                || (s.net.CheckingDepth? && s.ring.content == [] && s.ring.held == 0)
                || (s.net.AwaitingWorker? && !s.flags.complete && late) || (s.net.CheckingOutcome? && s.flags.failed)
              case _ => false
  {
  }

  /** A delta that finds no room waits; once the wait is over the turn has failed. */
  lemma QueueWaitsThenFails(cfg: Config, s: Sys)
    requires s.net.Queueing? && |s.ring.content| + s.ring.held + |s.net.bytes| > s.ring.capacity
    ensures NetGoesOn(cfg, s, false) == s
    ensures var t := NetGoesOn(cfg, NetGoesOn(cfg, s, true), false); t.net.Broken? && t.flags.failed
  {
  }

  /** A write that falls short fails the turn, stops the worker, and is never taken for a success. */
  lemma ShortWriteFails(cfg: Config, s: Sys, written: nat)
    requires ShortWrite(cfg, s, written)
    ensures var t := WorkerStep(cfg, s, written);
      t.flags.failed && t.flags.abort && t.flags.complete && t.worker == Idle
  {
  }

  // ------------------------------------------------------------- rebuffering

  /**
   A worker that runs out of audio waits until the prebuffer is full again or no more
   will come, and then plays on, or is done if there is nothing left.
   */
  lemma RebuffersFully(cfg: Config, s: Sys, written: nat)
    requires ValidConfig(cfg) && s.flags.audioReady && !s.flags.abort
    ensures s.worker.Receiving? && s.ring.content == [] && s.ring.held == 0 && !s.flags.producerDone ==>
      WorkerStep(cfg, s, written) == s.(worker := RebufferWait, waiting := true)
    ensures s.worker.RebufferWait? && s.waiting ==>
      var t := WorkerStep(cfg, s, written);
      && (t.worker.RebufferWait? <==> !s.flags.producerDone && |s.ring.content| + s.ring.held < cfg.prebuffer)
      && (t.worker.Receiving? <==>
            (s.flags.producerDone || |s.ring.content| + s.ring.held >= cfg.prebuffer)
            && |s.ring.content| + s.ring.held > 0)
      && (t.worker.RebufferWait? ==> t == s) && (t.worker.Receiving? ==> !t.waiting)
  {
  }

  /** Where the worker stands tells whether it is waiting for more. */
  predicate WaitsInPlace(s: Sys) {
    (s.worker.RebufferWait? ==> s.waiting) && (s.worker.Receiving? || s.worker.Writing? ==> !s.waiting)
  }

  lemma LoopWaitsInPlace(cfg: Config, s: Sys)
    ensures WaitsInPlace(Loop(cfg, s))
  {
  }

  lemma WorkerWaitsInPlace(cfg: Config, s: Sys, written: nat)
    requires WaitsInPlace(s)
    ensures WaitsInPlace(WorkerStep(cfg, s, written))
  {
    forall t: Sys ensures WaitsInPlace(Loop(cfg, t)) {
      LoopWaitsInPlace(cfg, t);
    }
    hide Loop, ReceiveUpTo, Silence;
  }

  lemma NetKeepsWorker(cfg: Config, s: Sys, c: Call)
    ensures NetStep(cfg, s, c).worker == s.worker && NetStep(cfg, s, c).waiting == s.waiting
  {
  }

  lemma {:induction false} RunWaitsInPlace(cfg: Config, actions: seq<Action>)
    ensures WaitsInPlace(Run(cfg, actions))
  {
    if actions != [] {
      var s, a := Run(cfg, actions[..|actions| - 1]), actions[|actions| - 1];
      RunWaitsInPlace(cfg, actions[..|actions| - 1]);
      assert Run(cfg, actions) == Do(cfg, s, a);
      hide Run, WorkerStep, NetStep;
      match a
      case StepWorker(written) => WorkerWaitsInPlace(cfg, s, written);
      case StepNet(c) => NetKeepsWorker(cfg, s, c);
    }
  }

  // -------------------------------------------------------------------- stop

  /** A stop is taken up wherever the turn is between calls, and means that no more audio will come. */
  lemma StopIsTaken(cfg: Config, s: Sys)
    ensures NetStep(cfg, s, Stop)
         == if s.net.InTurn? || s.net.Primed? || s.net.Streaming? || s.net.Finished? || s.net.Broken?
            then s.(net := StopDone, flags := s.flags.(producerDone := true)) else s
  {
  }

  /** Only a worker that has not completed is aborted. */
  lemma StopAbortsRunningWorker(cfg: Config, s: Sys, late: bool)
    requires s.net.StopUnprimed?
    ensures NetGoesOn(cfg, s, late) == s.(net := if s.flags.complete then Discarding else Aborting)
  {
  }

  lemma LoopEndsOnAbort(cfg: Config, s: Sys)
    requires s.flags.abort
    ensures Loop(cfg, s) == Exit(s)
  {
  }

  /** What the worker leaves as it is, and that it is done. */
  predicate EndsFrom(s: Sys, t: Sys) {
    t.net == s.net && t.flags.abort && t.flags.complete
  }

  lemma ExitEnds(cfg: Config, s: Sys, t: Sys)
    requires t.net == s.net && t.flags.abort
    ensures EndsFrom(s, Loop(cfg, t)) && EndsFrom(s, WriteFailed(t))
  {
    LoopEndsOnAbort(cfg, t);
  }

  lemma AbortEndsWrite(cfg: Config, s: Sys, written: nat)
    requires s.flags.abort && (s.worker.Writing? || s.worker.WritingSilence?)
    ensures EndsFrom(s, WorkerStep(cfg, s, written))
  {
    hide Loop, WriteFailed, EndsFrom, Silence;
    if s.worker.Writing? {
      var w := Write(true, s.worker.item[..Min(written, |s.worker.item|)]);
      ExitEnds(cfg, s, s.(sink := s.sink + [w], ring := ReturnItem(s.ring)));
    } else {
      var w := Write(false, Silence(Min(written, cfg.prime)));
      ExitEnds(cfg, s, s.(sink := s.sink + [w]));
    }
  }

  lemma AbortEndsWait(cfg: Config, s: Sys, written: nat)
    requires s.flags.abort && !s.worker.Writing? && !s.worker.WritingSilence?
    ensures var t := WorkerStep(cfg, s, written);
      EndsFrom(s, t) || (s.worker.Receiving? && t.worker.Writing? && t.net == s.net && t.flags == s.flags)
  {
    hide Loop, WriteFailed, EndsFrom, ReceiveUpTo;
    ExitEnds(cfg, s, s.(waiting := true));
    ExitEnds(cfg, s, s.(waiting := false));
    ExitEnds(cfg, s, s);
    assert EndsFrom(s, Exit(s)) by { ExitIsEnd(s); }
  }

  lemma ExitIsEnd(s: Sys)
    requires s.flags.abort
    ensures EndsFrom(s, Exit(s))
  {
  }

  /** An abort ends the worker at its next step, or at the one after that if it has just been given a piece. */
  lemma AbortEndsWorker(cfg: Config, s: Sys, written: nat)
    requires s.flags.abort
    ensures var t := WorkerStep(cfg, s, written);
      && t.net == s.net && t.flags.abort
      && (t.flags.complete || (s.worker.Receiving? && t.worker.Writing?))
  {
    hide WorkerStep;
    if s.worker.Writing? || s.worker.WritingSilence? {
      AbortEndsWrite(cfg, s, written);
    } else {
      AbortEndsWait(cfg, s, written);
    }
  }

  lemma StopWaits(cfg: Config, before: seq<Action>) returns (actions: seq<Action>)
    requires Run(cfg, before).net.StopDone?
    ensures var s := Run(cfg, actions); s.net.Discarding? || (s.net.StopWaiting? && s.flags.abort)
  {
    hide Run;
    actions := Then(cfg, before, StepNet(GoOn(false)));
    actions := Then(cfg, actions, StepNet(GoOn(false)));
    if Run(cfg, actions).net.Aborting? {
      actions := Then(cfg, actions, StepNet(GoOn(false)));
    }
  }

  lemma WorkerIsStopped(cfg: Config, before: seq<Action>) returns (actions: seq<Action>)
    requires Run(cfg, before).net.StopWaiting? && Run(cfg, before).flags.abort
    ensures Run(cfg, actions).net.Discarding?
  {
    hide Run, WorkerStep;
    actions := before;
    if !Run(cfg, actions).flags.complete {
      AbortEndsWorker(cfg, Run(cfg, actions), 0);
      actions := Then(cfg, actions, StepWorker(0));
    }
    if !Run(cfg, actions).flags.complete {
      AbortEndsWorker(cfg, Run(cfg, actions), 0);
      actions := Then(cfg, actions, StepWorker(0));
    }
    actions := Then(cfg, actions, StepNet(GoOn(false)));
  }

  /** A stop comes to its end from every state in which it was begun, and then all is at rest. */
  lemma StopReturns(cfg: Config, before: seq<Action>) returns (actions: seq<Action>)
    requires ValidConfig(cfg) && Run(cfg, before).net.StopDone?
    ensures var s := Run(cfg, actions);
      && s.net.Outside? && s.flags.complete && !s.flags.prime && !s.flags.audioReady && !s.started
      && s.ring.content == []
  {
    hide Run;
    actions := StopWaits(cfg, before);
    if Run(cfg, actions).net.StopWaiting? {
      actions := WorkerIsStopped(cfg, actions);
    }
    actions := Then(cfg, actions, StepNet(GoOn(false)));
    actions := Then(cfg, actions, StepNet(GoOn(false)));
    RestBetweenTurns(cfg, actions);
  }

  // ----------------------------------------------------------------- playing

  /** The bytes that the worker has not written yet. */
  function Unplayed(s: Sys): nat {
    |s.ring.content| + |InFlight(s.worker)|
  }

  /** How far the worker is from its next write. */
  function Pause(w: Worker): nat {
    match w
    case Writing(_) => 0
    case Receiving => 1
    case _ => 2
  }

  /** A turn that only has to be played out. */
  ghost predicate Draining(cfg: Config, s: Sys) {
    Sound(cfg, s) && s.net.AwaitingWorker? && s.flags.audioReady && s.flags.producerDone && !s.flags.abort
    && !s.flags.failed && (s.worker.Writing? ==> s.worker.item != [])
  }

  /** The loop of such a worker: it is done or receives on. */
  lemma LoopDrains(cfg: Config, s: Sys)
    requires !s.flags.abort && s.flags.audioReady && s.flags.producerDone
    ensures var t := Loop(cfg, s);
      && t.ring == s.ring && t.net == s.net && t.flags == s.flags.(complete := t.flags.complete)
      && (t.worker == Receiving || (t.flags.complete && t.worker == Idle))
  {
  }

  /** Each full write, or wait, brings it closer to its end. */
  lemma WorkerMovesOn(cfg: Config, s: Sys)
    requires ValidConfig(cfg) && Draining(cfg, s) && !s.flags.complete
    ensures var t := WorkerStep(cfg, s, cfg.prime + |InFlight(s.worker)|);
      && Draining(cfg, t)
      && (t.flags.complete || Unplayed(t) < Unplayed(s)
          || (Unplayed(t) == Unplayed(s) && Pause(t.worker) < Pause(s.worker)))
  {
    var written := cfg.prime + |InFlight(s.worker)|;
    hide Sound, WorkerStep, Unplayed, Pause;
    WorkerKeeps(cfg, s, written);
    StepsOn(cfg, s, written);
  }

  lemma StepsOn(cfg: Config, s: Sys, written: nat)
    requires ValidConfig(cfg) && Draining(cfg, s) && !s.flags.complete && written == cfg.prime + |InFlight(s.worker)|
    ensures var t := WorkerStep(cfg, s, written);
      && t.net == s.net && t.flags == s.flags.(complete := t.flags.complete)
      && (t.worker.Writing? ==> t.worker.item != [])
      && (t.flags.complete || Unplayed(t) < Unplayed(s)
          || (Unplayed(t) == Unplayed(s) && Pause(t.worker) < Pause(s.worker)))
  {
    hide Conserved, SoundSilence, SoundFlags, SoundCompletion, FullSilence, Loop, Silence;
    match s.worker
    case Writing(item) =>
      LoopDrains(cfg, s.(sink := s.sink + [Write(true, item[..Min(written, |item|)])], ring := ReturnItem(s.ring)));
    case WritingSilence =>
      LoopDrains(cfg, s.(sink := s.sink + [Write(false, Silence(Min(written, cfg.prime)))]));
    case Receiving =>
    case Idle => LoopDrains(cfg, s.(waiting := false));
    case _ => LoopDrains(cfg, s);
  }

  lemma {:induction false} WorkerPlaysOut(cfg: Config, before: seq<Action>) returns (actions: seq<Action>)
    requires ValidConfig(cfg) && Draining(cfg, Run(cfg, before))
    ensures before <= actions && Draining(cfg, Run(cfg, actions)) && Run(cfg, actions).flags.complete
    ensures forall a :: a in actions[|before|..] ==> a.StepWorker?
    decreases Unplayed(Run(cfg, before)), Pause(Run(cfg, before).worker)
  {
    hide Run, Draining, WorkerStep, Unplayed, Pause;
    var s := Run(cfg, before);
    if s.flags.complete {
      actions := before;
    } else {
      var a := StepWorker(cfg.prime + |InFlight(s.worker)|);
      RunOneMore(cfg, before, a);
      WorkerMovesOn(cfg, s);
      if Run(cfg, before + [a]).flags.complete {
        actions := before + [a];
      } else {
        actions := WorkerPlaysOut(cfg, before + [a]);
        assert actions[|before|..] == [actions[|before|]] + actions[|before| + 1..];
      }
    }
  }

  /**
   Every response that is finished is played out: whatever happened before, if the turn
   is not hurt and nothing but the worker runs from now on, with full writes, it
   completes with all of it played.
   */
  lemma FinishedTurnIsPlayedOut(cfg: Config, before: seq<Action>) returns (actions: seq<Action>)
    requires ValidConfig(cfg) && !Hurt(cfg, before) && Run(cfg, before).net.AwaitingWorker?
    ensures before <= actions && forall a :: a in actions[|before|..] ==> a.StepWorker?
    ensures Run(cfg, actions).flags.complete && AllPlayed(cfg, Run(cfg, actions))
    ensures NetGoesOn(cfg, NetGoesOn(cfg, Run(cfg, actions), false), false).net.Finished?
  {
    hide Run;
    RunIsHonest(cfg, before);
    assert Draining(cfg, Run(cfg, before)) by { hide SoundRing, SoundCompletion, SoundSilence, Conserved, FullSilence; }
    actions := WorkerPlaysOut(cfg, before);
    CompleteMeansAllPlayed(cfg, actions);
  }
}
