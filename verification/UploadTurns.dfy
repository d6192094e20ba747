/**
 What becomes of a turn: when the network task gives it up, that it always comes
 to an end, and which end.
 */
module UploadTurns {
  import opened Common
  import opened ByteRing
  import opened AssistantUpload
  import opened UploadRuns
  import opened CaptureRuns

  // ------------------------------------------------------------ bad answers

  /** The network task's next step depends on how the environment answers. */
  predicate Asks(cfg: Config, s: Sys) {
    match s.net
    case Connecting => true
    case Polling => true
    case Flushing(_) => |s.upload| == cfg.append
    case AwaitingWriters => s.turn.writers != 0
    case SendingLast => s.upload != []
    case Committing => true
    case Responding => true
    case _ => false
  }

  /** Whether a question of the turn at hand was answered badly. */
  function Denied(cfg: Config, actions: seq<Action>): bool {
    if actions == [] then false
    else
      var before := actions[..|actions| - 1];
      DeniedNext(cfg, Denied(cfg, before), Run(cfg, before), actions[|actions| - 1])
  }

  function DeniedNext(cfg: Config, denied: bool, s: Sys, a: Action): bool {
    if !a.StepNet? then denied
    else if s.net == NetIdle then false
    else denied || (Asks(cfg, s) && !a.ok)
  }

  /** The network task cleans up after a turn. */
  predicate CleansUp(n: Net) {
    n.CleaningUp? || n.CleanupWriters? || n.Discarding? || n.Resetting?
  }

  /** The network task takes what is left on the ring, or is past that. */
  predicate Drains(n: Net) {
    (n.Receiving? && n.drain) || (n.Copying? && n.drain) || (n.Returning? && n.drain) || (n.Flushing? && n.drain)
    || n.Judging? || n.JudgingSpeech? || n.SendingLast? || n.Committing? || n.Responding?
  }

  /** A turn is given up only for a reason, and after a bad answer it always is; the ring is shut in time. */
  ghost predicate Honest(denied: bool, s: Sys) {
    && (denied ==> s.net.Failing? || CleansUp(s.net) || s.net.NetIdle?)
    && (s.net.Failing? ==> denied)
    && (CleansUp(s.net) && !denied ==> !Eligible(s.turn.end) || !s.turn.speech)
    && (s.turn.accepting ==> s.turn.state == Recording || s.afe.Publishing?)
    && (Drains(s.net) ==> ShutForSamples(s))
    && (s.net.Copying? ==> s.net.item != [])
    && (s.net.Responding? ==> Eligible(s.turn.end) && s.turn.speech)
    && s.turn.writers == if IsWriting(s.afe) then 1 else 0
  }

  lemma AfeIsHonest(cfg: Config, denied: bool, s: Sys)
    requires Sound(cfg, s) && Honest(denied, s)
    ensures Honest(denied, AfeStep(s))
  {
    hide SoundRing, SoundUpload, GoodPayloads, GoodCommits, Conserved, Send, Discard;
    AfeCountsWriters(s);
  }

  lemma NetIsHonest(cfg: Config, denied: bool, s: Sys, ok: bool, reason: CaptureEnd)
    requires Sound(cfg, s) && Honest(denied, s)
    ensures Honest(DeniedNext(cfg, denied, s, StepNet(ok, reason)), NetStep(cfg, s, ok, reason))
  {
    hide SoundRing, GoodPayloads, GoodCommits, Conserved, Discard, ReceiveUpTo;
  }

  lemma {:induction false} RunIsHonest(cfg: Config, actions: seq<Action>)
    requires ValidConfig(cfg)
    ensures Honest(Denied(cfg, actions), Run(cfg, actions)) && Sound(cfg, Run(cfg, actions))
  {
    RunIsSound(cfg, actions);
    if actions != [] {
      var before, last := actions[..|actions| - 1], actions[|actions| - 1];
      RunIsHonest(cfg, before);
      var denied, s := Denied(cfg, before), Run(cfg, before);
      assert Run(cfg, actions) == Do(cfg, s, last);
      hide Sound, Run, AfeStep, NetStep;
      match last
      case NewFrame(_) =>
      case StopPipeline =>
      case StepAfe => AfeIsHonest(cfg, denied, s);
      case StepNet(ok, reason) => NetIsHonest(cfg, denied, s, ok, reason);
    }
  }

  /**
   The network task cleans up after a turn without having committed it only if it was
   answered badly, or the capture ended without a command, or there was no speech; and
   after a bad answer it commits nothing more in that turn.
   */
  lemma GivenUpForAReason(cfg: Config, actions: seq<Action>, a: Action)
    requires ValidConfig(cfg)
    ensures var s, t := Run(cfg, actions), Do(cfg, Run(cfg, actions), a);
      && (CleansUp(s.net) && !Denied(cfg, actions) ==> !Eligible(s.turn.end) || !s.turn.speech)
      && (Denied(cfg, actions) ==> t.commits == s.commits)
      && (Drains(s.net) ==> ShutForSamples(s) && |t.ring.content| <= |s.ring.content|)
  {
    hide *;
    RunIsHonest(cfg, actions);
    var s := Run(cfg, actions);
    HonestTurn(cfg, Denied(cfg, actions), s, a);
    if Drains(s.net) {
      DrainIsShut(cfg, Denied(cfg, actions), s, a);
    }
  }

  lemma HonestTurn(cfg: Config, denied: bool, s: Sys, a: Action)
    requires Honest(denied, s)
    ensures CleansUp(s.net) && !denied ==> !Eligible(s.turn.end) || !s.turn.speech
    ensures denied ==> Do(cfg, s, a).commits == s.commits
  {
    hide AfeStep;
    AfeKeepsCommits(s);
  }

  lemma DrainIsShut(cfg: Config, denied: bool, s: Sys, a: Action)
    requires Sound(cfg, s) && Honest(denied, s) && Drains(s.net)
    ensures ShutForSamples(s) && |Do(cfg, s, a).ring.content| <= |s.ring.content|
  {
    if s.afe.Accepting? {
      BeginningMeansIdle(cfg, s);
    }
    hide Do, Sound;
    NothingIsSentAfterwards(cfg, s, a);
  }

  lemma AfeKeepsCommits(s: Sys)
    ensures AfeStep(s).commits == s.commits
  {
  }

  lemma BeginningMeansIdle(cfg: Config, s: Sys)
    requires Sound(cfg, s) && s.afe.Accepting?
    ensures s.net == NetIdle
  {
  }

  // ------------------------------------------------------------ why it ends

  /** The front end's last job: a frame, or the stop of the pipeline; others are not taken up while it is busy. */
  function Job(cfg: Config, actions: seq<Action>): Option<Action> {
    if actions == [] then None
    else
      var before, last := actions[..|actions| - 1], actions[|actions| - 1];
      if (last.NewFrame? || last.StopPipeline?) && Run(cfg, before).afe == AfeIdle then Some(last) else Job(cfg, before)
  }

  ghost predicate DoesJob(job: Option<Action>, a: Afe) {
    match FrameOf(a)
    case Some(f) => job == Some(NewFrame(f))
    case None => a == AfeIdle || job == Some(StopPipeline)
  }

  lemma AfeDoesJob(job: Option<Action>, s: Sys)
    requires DoesJob(job, s.afe)
    ensures DoesJob(job, AfeStep(s).afe)
  {
    hide Send, Discard;
  }

  /** The front end works on the job it was given last, and on nothing else. */
  lemma {:induction false} RunDoesJob(cfg: Config, actions: seq<Action>)
    ensures DoesJob(Job(cfg, actions), Run(cfg, actions).afe)
  {
    if actions != [] {
      var s, a := Run(cfg, actions[..|actions| - 1]), actions[|actions| - 1];
      RunDoesJob(cfg, actions[..|actions| - 1]);
      assert Run(cfg, actions) == Do(cfg, s, a);
      hide Run, AfeStep, NetStep;
      AfeDoesJob(Job(cfg, actions[..|actions| - 1]), s);
      if a.StepNet? {
        NetCountsWriters(cfg, s, a.ok, a.reason);
      }
    }
  }

  /** Why a capture that has not ended ends, if not for its frames. */
  lemma EndHasItsCause(cfg: Config, s: Sys, a: Action)
    requires Sound(cfg, s) && s.turn.end == NotEnded
    ensures var end := Do(cfg, s, a).turn.end;
      && (end == PipelineStop <==> a.StepAfe? && s.afe.Stopping?)
      && (end == CaptureOverflow <==> a.StepAfe? && s.afe.Overflowing?)
      && (ByFrames(end) ==> a.StepAfe? && s.afe.AtEndpoint?)
      && (end == NetworkUnavailable <==>
            a.StepNet? && s.net.Connecting? && !a.ok && a.reason == NetworkUnavailable)
      && (end == ClockUnavailable <==> a.StepNet? && s.net.Connecting? && !a.ok && a.reason == ClockUnavailable)
      && (end == TransportFailure <==>
            a.StepNet? && (s.net.Failing? || (s.net.Connecting? && !a.ok && a.reason != NetworkUnavailable
                                              && a.reason != ClockUnavailable)))
  {
    hide SoundRing, SoundUpload, GoodPayloads, GoodCommits, Conserved, Send, Discard, ReceiveUpTo;
  }

  /** Stopping the pipeline while the front end is idle ends a capture that is running, and does nothing else. */
  lemma StopEndsCapture(cfg: Config, s: Sys)
    requires Sound(cfg, s)
    ensures s.afe != AfeIdle ==> Do(cfg, s, StopPipeline) == s
    ensures s.afe == AfeIdle ==>
      var one := Do(cfg, Do(cfg, s, StopPipeline), StepAfe);
      if s.turn.state == Recording
      then
        Do(cfg, one, StepAfe)
        == s.(turn := s.turn.(end := PipelineStop, accepting := false, state := AwaitingResponse))
      else one == s
  {
  }

  /** A frame that does not fit the ring beside what is unread ends the capture. */
  lemma OverflowEndsCapture(cfg: Config, s: Sys, f: Frame)
    requires Sound(cfg, s) && s.afe == Sending(f) && s.turn.end == NotEnded
    ensures var after := AfeStep(AfeStep(AfeStep(s)));
      |s.ring.content| + s.ring.held + |f.samples| > cfg.capacity <==> after.turn.end == CaptureOverflow
  {
  }

  // ---------------------------------------------------------------- progress

  /** How many phases of a turn are still to come. */
  function Stage(n: Net): nat {
    match n
    case NetIdle => 14
    case Deciding => 13
    case Connecting => 12
    case AtLoop => 11
    case Polling => 11
    case AwaitingWriters => 10
    case Judging => 8
    case JudgingSpeech => 7
    case SendingLast => 6
    case Committing => 5
    case Responding => 0
    case Failing => 4
    case CleaningUp => 3
    case CleanupWriters => 2
    case Discarding => 1
    case Resetting => 0
    case _ => if Drains(n) then 9 else 11
  }

  /** How far the network task is from the end of one round of its loop. */
  function Round(n: Net): nat {
    match n
    case Polling => 5
    case Receiving(drain) => if drain then 3 else 4
    case Copying(drain, _) => if drain then 2 else 3
    case Returning(drain) => if drain then 5 else 2
    case Flushing(drain) => if drain then 4 else 1
    case _ => 0
  }

  /** The bytes that the network task has not copied yet. */
  function Uncopied(s: Sys): nat {
    |s.ring.content| + |InFlight(s.net)|
  }

  /** A capture that has ended and whose front end is at rest. */
  ghost predicate Settling(cfg: Config, s: Sys) {
    && Sound(cfg, s) && s.turn.end != NotEnded && s.turn.state != WaitingForWake && !s.turn.accepting
    && s.afe == AfeIdle && s.turn.writers == 0 && (s.net.Copying? ==> s.net.item != [])
  }

  /** `t` is closer to the end of its turn than `s`. */
  predicate Closer(s: Sys, t: Sys) {
    || Stage(t.net) < Stage(s.net)
    || (Stage(t.net) == Stage(s.net) && Uncopied(t) < Uncopied(s))
    || (Stage(t.net) == Stage(s.net) && Uncopied(t) == Uncopied(s) && Round(t.net) < Round(s.net))
  }

  lemma LoopMovesOn(cfg: Config, s: Sys)
    requires Settling(cfg, s)
    requires s.net.Polling? || s.net.Receiving? || s.net.Copying? || s.net.Returning? || s.net.Flushing?
    ensures var t := NetStep(cfg, s, true, NotEnded); Closer(s, t) && t.turn == s.turn && t.afe == s.afe
    ensures NetStep(cfg, s, true, NotEnded).net.Copying? ==> NetStep(cfg, s, true, NotEnded).net.item != []
  {
    hide GoodPayloads, GoodCommits, Conserved, SoundFlags;
  }

  lemma PhaseMovesOn(cfg: Config, s: Sys)
    requires Settling(cfg, s) && !s.net.Responding? && !s.net.Resetting?
    requires !s.net.Polling? && !s.net.Receiving? && !s.net.Copying? && !s.net.Returning? && !s.net.Flushing?
    ensures var t := NetStep(cfg, s, true, NotEnded);
      Stage(t.net) < Stage(s.net) && t.turn == s.turn && t.afe == s.afe && !t.net.Copying?
  {
    hide GoodPayloads, GoodCommits, Conserved, SoundRing, SoundUpload, ReceiveUpTo;
  }

  /** Well answered, the network task moves on towards the end of the turn. */
  lemma NetMovesOn(cfg: Config, s: Sys)
    requires ValidConfig(cfg) && Settling(cfg, s) && !s.net.Responding? && !s.net.Resetting?
    ensures var t := NetStep(cfg, s, true, NotEnded); Settling(cfg, t) && t.turn == s.turn && Closer(s, t)
  {
    hide Sound, Closer, NetStep;
    NetKeeps(cfg, s, true, NotEnded);
    if s.net.Polling? || s.net.Receiving? || s.net.Copying? || s.net.Returning? || s.net.Flushing? {
      LoopMovesOn(cfg, s);
    } else {
      PhaseMovesOn(cfg, s);
      assert Closer(s, NetStep(cfg, s, true, NotEnded)) by { NextStage(s, NetStep(cfg, s, true, NotEnded)); }
    }
  }

  lemma NextStage(s: Sys, t: Sys)
    requires Stage(t.net) < Stage(s.net)
    ensures Closer(s, t)
  {
  }

  /** What such a step does besides. */
  lemma OneStepOfTurn(cfg: Config, s: Sys)
    requires Settling(cfg, s) && !s.net.Responding? && !s.net.Resetting?
    ensures var t := NetStep(cfg, s, true, NotEnded);
      && (t.net.Resetting? ==> t.ring.content == [])
      && (if t.net.Responding?
          then |t.commits| == |s.commits| + 1 && t.commits[|s.commits|].end == s.turn.end
          else t.commits == s.commits)
  {
    hide GoodPayloads, GoodCommits, Conserved, SoundRing, SoundUpload, ReceiveUpTo;
  }

  /** Step by step, the turn comes to its response or to its reset. */
  lemma {:induction false} TurnRunsOut(cfg: Config, actions: seq<Action>) returns (all: seq<Action>)
    requires ValidConfig(cfg) && Settling(cfg, Run(cfg, actions))
    requires !Run(cfg, actions).net.Responding? && !Run(cfg, actions).net.Resetting?
    ensures actions <= all && forall a :: a in all[|actions|..] ==> a == StepNet(true, NotEnded)
    ensures var s, t := Run(cfg, actions), Run(cfg, all);
      && (t.net.Responding? || t.net.Resetting?) && Settling(cfg, t) && t.turn == s.turn
      && (t.net.Resetting? ==> t.ring.content == [] && t.commits == s.commits)
      && (t.net.Responding? ==> |t.commits| == |s.commits| + 1 && t.commits[|s.commits|].end == s.turn.end)
    decreases Stage(Run(cfg, actions).net), Uncopied(Run(cfg, actions)), Round(Run(cfg, actions).net)
  {
    hide Run, Settling, NetStep, Stage, Uncopied, Round;
    var s := Run(cfg, actions);
    NetMovesOn(cfg, s);
    OneStepOfTurn(cfg, s);
    var next := actions + [StepNet(true, NotEnded)];
    StepOfRun(cfg, actions, StepNet(true, NotEnded));
    var t := NetStep(cfg, s, true, NotEnded);
    if t.net.Responding? || t.net.Resetting? {
      all := next;
    } else {
      all := TurnRunsOut(cfg, next);
      assert all[|actions|..] == [all[|actions|]] + all[|next|..];
    }
  }

  lemma StepOfRun(cfg: Config, actions: seq<Action>, a: Action)
    ensures Run(cfg, actions + [a]) == Do(cfg, Run(cfg, actions), a)
    ensures Denied(cfg, actions + [a]) == DeniedNext(cfg, Denied(cfg, actions), Run(cfg, actions), a)
  {
    assert (actions + [a])[..|actions|] == actions;
  }

  lemma {:induction false} WellAnswered(cfg: Config, actions: seq<Action>, all: seq<Action>)
    requires actions <= all && !Denied(cfg, actions)
    requires forall a :: a in all[|actions|..] ==> a == StepNet(true, NotEnded)
    ensures !Denied(cfg, all)
    decreases |all|
  {
    if all != actions {
      var before, last := all[..|all| - 1], all[|all| - 1];
      assert last in all[|actions|..];
      forall a | a in before[|actions|..] ensures a == StepNet(true, NotEnded) {
        assert a in all[|actions|..];
      }
      WellAnswered(cfg, actions, before);
    } else {
      assert all == actions;
    }
  }

  /**
   A turn whose capture has ended, and whose network task was answered well so far and
   is from now on, comes to its end by itself: it is committed exactly if it ended by
   silence or the time limit and held speech, and else leaves an empty ring and is
   reset without a commit.
   */
  lemma EndedTurnIsSettled(cfg: Config, actions: seq<Action>) returns (all: seq<Action>)
    requires ValidConfig(cfg) && !Denied(cfg, actions)
    requires var s := Run(cfg, actions);
      && s.afe == AfeIdle && s.turn.end != NotEnded && s.turn.state != WaitingForWake
      && !s.net.Responding? && !s.net.Resetting?
    ensures actions <= all && forall a :: a in all[|actions|..] ==> a == StepNet(true, NotEnded)
    ensures var s, t := Run(cfg, actions), Run(cfg, all);
      if (s.turn.end == VadSilence || s.turn.end == MaximumDuration) && s.turn.speech
      then t.net == Responding && |t.commits| == |s.commits| + 1 && t.commits[|s.commits|].end == s.turn.end
      else t.net == Resetting && t.commits == s.commits && t.ring.content == []
           && NetStep(cfg, t, true, NotEnded) == t.(net := NetIdle, turn := t.turn.(state := WaitingForWake))
  {
    hide Run, Settling;
    RunIsHonest(cfg, actions);
    SettlesHere(cfg, actions);
    all := TurnRunsOut(cfg, actions);
    WellAnswered(cfg, actions, all);
    RunIsHonest(cfg, all);
    hide Sound;
  }

  lemma SettlesHere(cfg: Config, actions: seq<Action>)
    requires Sound(cfg, Run(cfg, actions)) && Honest(Denied(cfg, actions), Run(cfg, actions))
    requires var s := Run(cfg, actions); s.afe == AfeIdle && s.turn.end != NotEnded && s.turn.state != WaitingForWake
    ensures Settling(cfg, Run(cfg, actions))
  {
    hide Run, Sound, Denied;
    SoundWhenEnded(cfg, Run(cfg, actions));
  }

  lemma SoundWhenEnded(cfg: Config, s: Sys)
    requires Sound(cfg, s) && s.turn.end != NotEnded
    ensures s.turn.state != Recording
  {
  }

  /** A turn that has already ended without a command is not even connected. */
  lemma LostTurnIsNotConnected(cfg: Config, s: Sys, ok: bool, reason: CaptureEnd)
    requires s.net.Deciding?
    ensures NetStep(cfg, s, ok, reason).net
         == if s.turn.end != NotEnded && s.turn.end != VadSilence && s.turn.end != MaximumDuration then CleaningUp
            else Connecting
  {
  }

  /** While a writer is left the network task waits for it, at most until the wait is over. */
  lemma WritersAreAwaited(cfg: Config, s: Sys, ok: bool, reason: CaptureEnd)
    requires (s.net.AwaitingWriters? || s.net.CleanupWriters?) && s.turn.writers != 0
    ensures ok ==> NetStep(cfg, s, ok, reason) == s
    ensures !ok ==> NetStep(cfg, s, ok, reason) == s.(net := if s.net.AwaitingWriters? then Failing else Discarding)
  {
  }

  /** How many steps the front end may still take for its job. */
  function StepsLeft(a: Afe): nat {
    match a
    case AfeIdle => 0
    case Entered(_) => 15
    case Starting(_) => 14
    case ClearingEnd(_) => 13
    case ClearingWriters(_) => 12
    case Accepting(_) => 11
    case Publishing(_) => 10
    case AtGate(_) => 9
    case Capturing(_) => 8
    case Registering(_) => 7
    case Rechecking(_) => 6
    case Sending(_) => 5
    case Leaving(_, _) => 4
    case BackingOut(_) => 3
    case Overflowing(_) => 3
    case AfterCapture(_) => 2
    case AtEndpoint(_) => 1
    case StopChecking => 2
    case Stopping => 1
  }

  /** The front end waits for nobody: it is done with any job after at most fifteen steps of its own. */
  lemma FrontEndMovesOn(cfg: Config, s: Sys, a: Action)
    ensures s.afe != AfeIdle ==> StepsLeft(Do(cfg, s, StepAfe).afe) < StepsLeft(s.afe) <= 15
    ensures a.StepNet? ==> Do(cfg, s, a).afe == s.afe
    ensures s.afe == AfeIdle && a.NewFrame? ==> Do(cfg, s, a).afe == Entered(a.f)
    ensures s.afe != AfeIdle && (a.NewFrame? || a.StopPipeline?) ==> Do(cfg, s, a) == s
  {
    hide Send, Discard, ReceiveUpTo;
    if a.StepNet? {
      NetCountsWriters(cfg, s, a.ok, a.reason);
    }
  }
}
