/**
 When a capture ends, and for which reason, told from the frames captured since
 the wake word: over every run of the front end and the network task.
 */
module CaptureRuns {
  import opened Common
  import opened ByteRing
  import opened AssistantUpload
  import opened UploadRuns

  /** The frames of the current turn that passed the gate, the wake frame first. */
  function Captured(cfg: Config, actions: seq<Action>): seq<Frame> {
    if actions == [] then []
    else
      var before := actions[..|actions| - 1];
      CapturedNext(Captured(cfg, before), Run(cfg, before), actions[|actions| - 1])
  }

  function CapturedNext(fs: seq<Frame>, s: Sys, a: Action): seq<Frame> {
    if !a.StepAfe? then fs
    else match s.afe
      case Starting(_) => []
      case AtGate(f) => if s.turn.state == Recording then fs + [f] else fs
      case _ => fs
  }

  function SamplesOf(fs: seq<Frame>): seq<Byte> {
    if fs == [] then [] else SamplesOf(fs[..|fs| - 1]) + fs[|fs| - 1].samples
  }

  predicate SpeechIn(fs: seq<Frame>) {
    exists f :: f in fs && f.vad == Speech
  }

  // -------------------------------------------- what a frame does to a capture

  /** It is the first quiet one after speech. */
  predicate FallsSilent(fs: seq<Frame>, i: nat)
    requires i < |fs|
  {
    i > 0 && fs[i - 1].vad == Speech && fs[i].vad == Silence
  }

  /** The time for speech to begin is over, and there was none. */
  predicate StaysSilent(fs: seq<Frame>, i: nat)
    requires i < |fs|
  {
    fs[i].noSpeechElapsed && !SpeechIn(fs[..i + 1])
  }

  predicate LetsCaptureGoOn(fs: seq<Frame>, i: nat)
    requires i < |fs|
  {
    !FallsSilent(fs, i) && !StaysSilent(fs, i) && !fs[i].maximumElapsed
  }

  predicate ByFrames(end: CaptureEnd) {
    end == VadSilence || end == NoSpeechTimeout || end == MaximumDuration
  }

  /** The reasons that the frames give for the end of a capture, and no other ones. */
  ghost predicate EndsAsFramesSay(fs: seq<Frame>, end: CaptureEnd) {
    && (ByFrames(end) ==> fs != [])
    && (end == VadSilence ==> FallsSilent(fs, |fs| - 1))
    && (end == NoSpeechTimeout ==> StaysSilent(fs, |fs| - 1))
    && (end == MaximumDuration ==>
          fs[|fs| - 1].maximumElapsed && !FallsSilent(fs, |fs| - 1) && !StaysSilent(fs, |fs| - 1))
  }

  // -------------------------------------------------------------- invariant

  /** The frame that the front end is dealing with. */
  function FrameOf(a: Afe): Option<Frame> {
    match a
    case AfeIdle => None
    case StopChecking => None
    case Stopping => None
    case _ => Some(a.f)
  }

  /** The frames whose endpoint has been judged. */
  function Judged(fs: seq<Frame>, a: Afe): seq<Frame> {
    if InCapture(a) && fs != [] then fs[..|fs| - 1] else fs
  }

  /** The flags of a running capture are those of the frames judged. */
  ghost predicate FlagsTold(lastVad: Option<Vad>, judged: seq<Frame>) {
    && lastVad == (if judged == [] then None else Some(judged[|judged| - 1].vad))
    && forall i :: 0 <= i < |judged| ==> LetsCaptureGoOn(judged, i)
  }

  ghost predicate Told(fs: seq<Frame>, s: Sys) {
    && s.heard == SamplesOf(fs)
    && (InCapture(s.afe) ==> fs != [] && FrameOf(s.afe) == Some(fs[|fs| - 1]))
    && (Beginning(s.afe) ==> fs == [])
    && (s.afe.Starting? || Beginning(s.afe) ==> s.afe.f.wake)
    && (fs != [] ==> fs[0].wake)
    && (fs == [] && s.turn.state == Recording ==> s.afe.AtGate? && s.afe.f.wake)
    && (ByFrames(s.turn.end) && !s.afe.ClearingEnd? ==> !InCapture(s.afe) && EndsAsFramesSay(fs, s.turn.end))
    && (!s.afe.ClearingEnd? && !s.afe.ClearingWriters? && (s.turn.end == NotEnded || ByFrames(s.turn.end)) ==>
          s.turn.speech == SpeechIn(Judged(fs, s.afe)))
    && (!s.afe.ClearingEnd? && !s.afe.ClearingWriters? && s.turn.end == NotEnded ==>
          FlagsTold(s.turn.lastVad, Judged(fs, s.afe)))
  }

  lemma SpeechInMore(fs: seq<Frame>, f: Frame)
    ensures SpeechIn(fs + [f]) == (SpeechIn(fs) || f.vad == Speech)
  {
    assert f in fs + [f];
    assert forall g :: g in fs ==> g in fs + [f];
  }

  lemma GoesOnMore(judged: seq<Frame>, f: Frame, i: nat)
    requires i < |judged|
    ensures LetsCaptureGoOn(judged + [f], i) == LetsCaptureGoOn(judged, i)
  {
    assert (judged + [f])[..i + 1] == judged[..i + 1];
  }

  /** The judgement of one more frame. */
  lemma JudgementIsTold(t: Turn, judged: seq<Frame>, f: Frame)
    requires t.end == NotEnded && FlagsTold(t.lastVad, judged) && t.speech == SpeechIn(judged)
    ensures var u, fs := UpdateEndpoint(t, f), judged + [f];
      && (u.end == NotEnded || ByFrames(u.end)) && EndsAsFramesSay(fs, u.end)
      && u.speech == SpeechIn(fs) && (u.end == NotEnded ==> FlagsTold(u.lastVad, fs))
  {
    var fs, last := judged + [f], |judged|;
    assert fs[..last + 1] == fs;
    SpeechInMore(judged, f);
    assert FallsSilent(fs, last) <==> t.speech && t.lastVad == Some(Speech) && f.vad == Silence;
    assert StaysSilent(fs, last) <==> f.noSpeechElapsed && !t.speech && f.vad == Silence;
    forall i | 0 <= i < last ensures LetsCaptureGoOn(fs, i) {
      GoesOnMore(judged, f, i);
    }
  }

  lemma NothingIsTold()
    ensures FlagsTold(None, []) && !SpeechIn([])
  {
  }

  lemma GateTells(cfg: Config, fs: seq<Frame>, s: Sys)
    requires Sound(cfg, s) && Told(fs, s) && s.afe.AtGate?
    ensures Told(CapturedNext(fs, s, StepAfe), AfeStep(s))
  {
    hide SpeechIn, FlagsTold, EndsAsFramesSay, ValidRing;
    assert (fs + [s.afe.f])[..|fs|] == fs;
  }

  lemma EndpointTells(cfg: Config, fs: seq<Frame>, s: Sys)
    requires Sound(cfg, s) && Told(fs, s) && s.afe.AtEndpoint?
    ensures Told(CapturedNext(fs, s, StepAfe), AfeStep(s))
  {
    hide SpeechIn, FlagsTold, EndsAsFramesSay, ValidRing, SamplesOf;
    if s.turn.end == NotEnded {
      var judged := fs[..|fs| - 1];
      assert fs == judged + [s.afe.f];
      JudgementIsTold(s.turn, judged, s.afe.f);
    }
  }

  lemma ResetTells(cfg: Config, fs: seq<Frame>, s: Sys)
    requires Sound(cfg, s) && Told(fs, s) && s.afe.ClearingWriters?
    ensures Told(CapturedNext(fs, s, StepAfe), AfeStep(s))
  {
    hide SpeechIn, FlagsTold, EndsAsFramesSay, ValidRing, SamplesOf;
    assert fs == [];
    NothingIsTold();
  }

  lemma BeginningTells(cfg: Config, fs: seq<Frame>, s: Sys)
    requires Sound(cfg, s) && Told(fs, s)
    requires s.afe.Entered? || s.afe.Starting? || s.afe.ClearingEnd? || s.afe.Accepting? || s.afe.Publishing?
    ensures Told(CapturedNext(fs, s, StepAfe), AfeStep(s))
  {
    hide SpeechIn, FlagsTold, EndsAsFramesSay, ValidRing, SoundRing, SoundUpload, GoodPayloads, GoodCommits, Gathered;
  }

  lemma CaptureTells(cfg: Config, fs: seq<Frame>, s: Sys)
    requires Sound(cfg, s) && Told(fs, s)
    requires s.afe.Capturing? || s.afe.Registering? || s.afe.Rechecking? || s.afe.BackingOut?
    ensures Told(CapturedNext(fs, s, StepAfe), AfeStep(s))
  {
    hide SpeechIn, FlagsTold, EndsAsFramesSay, ValidRing, SoundRing, SoundUpload, GoodPayloads, GoodCommits, Gathered;
  }

  lemma SendTells(cfg: Config, fs: seq<Frame>, s: Sys)
    requires Sound(cfg, s) && Told(fs, s)
    requires s.afe.Sending? || s.afe.Leaving? || s.afe.Overflowing? || s.afe.AfterCapture?
    ensures Told(CapturedNext(fs, s, StepAfe), AfeStep(s))
  {
    hide SpeechIn, FlagsTold, EndsAsFramesSay, ValidRing, SoundRing, SoundUpload, GoodPayloads, GoodCommits, Gathered;
  }

  lemma StopTells(cfg: Config, fs: seq<Frame>, s: Sys)
    requires Sound(cfg, s) && Told(fs, s) && (s.afe.AfeIdle? || s.afe.StopChecking? || s.afe.Stopping?)
    ensures Told(CapturedNext(fs, s, StepAfe), AfeStep(s))
  {
    hide SpeechIn, FlagsTold, EndsAsFramesSay, ValidRing, SoundRing, SoundUpload, GoodPayloads, GoodCommits, Gathered;
  }

  lemma AfeTells(cfg: Config, fs: seq<Frame>, s: Sys)
    requires Sound(cfg, s) && Told(fs, s)
    ensures Told(CapturedNext(fs, s, StepAfe), AfeStep(s))
  {
    hide Told, Sound, AfeStep, CapturedNext;
    match s.afe
    case AtGate(_) => GateTells(cfg, fs, s);
    case AtEndpoint(_) => EndpointTells(cfg, fs, s);
    case ClearingWriters(_) => ResetTells(cfg, fs, s);
    case Capturing(_) => CaptureTells(cfg, fs, s);
    case Registering(_) => CaptureTells(cfg, fs, s);
    case Rechecking(_) => CaptureTells(cfg, fs, s);
    case BackingOut(_) => CaptureTells(cfg, fs, s);
    case Sending(_) => SendTells(cfg, fs, s);
    case Leaving(_, _) => SendTells(cfg, fs, s);
    case Overflowing(_) => SendTells(cfg, fs, s);
    case AfterCapture(_) => SendTells(cfg, fs, s);
    case AfeIdle => StopTells(cfg, fs, s);
    case StopChecking => StopTells(cfg, fs, s);
    case Stopping => StopTells(cfg, fs, s);
    case _ => BeginningTells(cfg, fs, s);
  }

  lemma NetTells(cfg: Config, fs: seq<Frame>, s: Sys, ok: bool, reason: CaptureEnd)
    requires Sound(cfg, s) && Told(fs, s)
    ensures Told(fs, NetStep(cfg, s, ok, reason))
  {
    hide SpeechIn, FlagsTold, EndsAsFramesSay, ValidRing, SamplesOf;
  }

  lemma {:induction false} RunTells(cfg: Config, actions: seq<Action>)
    requires ValidConfig(cfg)
    ensures Told(Captured(cfg, actions), Run(cfg, actions)) && Sound(cfg, Run(cfg, actions))
  {
    RunIsSound(cfg, actions);
    if actions == [] {
      NothingIsTold();
    } else {
      var before, last := actions[..|actions| - 1], actions[|actions| - 1];
      RunTells(cfg, before);
      var fs, s := Captured(cfg, before), Run(cfg, before);
      match last
      case NewFrame(_) =>
      case StopPipeline =>
      case StepAfe => AfeTells(cfg, fs, s);
      case StepNet(ok, reason) => NetTells(cfg, fs, s, ok, reason);
    }
  }

  // ------------------------------------------------------------ main results

  /**
   A capture that has ended for a reason of its own has ended for the one its last
   frame gives: silence right after speech, no speech in time, or the time limit.
   While none has ended it, none of its frames gave a reason.
   */
  lemma CaptureEndsAsFramesSay(cfg: Config, actions: seq<Action>)
    requires ValidConfig(cfg)
    ensures var s, fs := Run(cfg, actions), Captured(cfg, actions);
      && s.heard == SamplesOf(fs) && (fs != [] ==> fs[0].wake)
      && (!s.afe.ClearingEnd? ==> EndsAsFramesSay(fs, s.turn.end))
      && (!s.afe.ClearingEnd? && ByFrames(s.turn.end) && !s.afe.ClearingWriters? ==> s.turn.speech == SpeechIn(fs))
      && (s.afe.AfeIdle? && s.turn.end == NotEnded ==> forall i :: 0 <= i < |fs| ==> LetsCaptureGoOn(fs, i))
  {
    RunTells(cfg, actions);
  }

  /** What the judgement of a frame makes of a capture that has not ended. */
  lemma JudgedFrameDecides(cfg: Config, actions: seq<Action>)
    requires ValidConfig(cfg) && Run(cfg, actions).afe.AtEndpoint? && Run(cfg, actions).turn.end == NotEnded
    ensures var fs, end := Captured(cfg, actions), Do(cfg, Run(cfg, actions), StepAfe).turn.end;
      && fs != [] && fs[|fs| - 1] == Run(cfg, actions).afe.f
      && (end == VadSilence <==> FallsSilent(fs, |fs| - 1))
      && (end == NoSpeechTimeout <==> StaysSilent(fs, |fs| - 1))
      && (end == NotEnded <==> LetsCaptureGoOn(fs, |fs| - 1))
      && (end == MaximumDuration <==>
            fs[|fs| - 1].maximumElapsed && !FallsSilent(fs, |fs| - 1) && !StaysSilent(fs, |fs| - 1))
  {
    hide *;
    RunTells(cfg, actions);
    var fs, s := Captured(cfg, actions), Run(cfg, actions);
    DecidedByLast(fs, s);
    JudgementStep(cfg, s);
  }

  lemma JudgementStep(cfg: Config, s: Sys)
    requires s.afe.AtEndpoint?
    ensures Do(cfg, s, StepAfe).turn == UpdateEndpoint(s.turn, s.afe.f)
  {
  }

  lemma DecidedByLast(fs: seq<Frame>, s: Sys)
    requires Told(fs, s) && s.afe.AtEndpoint? && s.turn.end == NotEnded
    ensures fs != [] && fs[|fs| - 1] == s.afe.f
    ensures var end, last := UpdateEndpoint(s.turn, s.afe.f).end, |fs| - 1;
      && (end == VadSilence <==> FallsSilent(fs, last)) && (end == NoSpeechTimeout <==> StaysSilent(fs, last))
      && (end == NotEnded <==> LetsCaptureGoOn(fs, last))
      && (end == MaximumDuration <==> fs[last].maximumElapsed && !FallsSilent(fs, last) && !StaysSilent(fs, last))
  {
    var judged, f := fs[..|fs| - 1], s.afe.f;
    assert fs == judged + [f];
    JudgementIsTold(s.turn, judged, f);
    assert fs[..|fs|] == fs;
    assert FallsSilent(fs, |fs| - 1) ==> fs[|fs| - 2] in fs;
  }

  /** A commit holds the samples of the frames captured since the wake word, and the reason its last frame gave. */
  lemma CommitHoldsWhatWasCaptured(cfg: Config, actions: seq<Action>, a: Action)
    requires ValidConfig(cfg) && Do(cfg, Run(cfg, actions), a).commits != Run(cfg, actions).commits
    ensures var fs, after := Captured(cfg, actions), Do(cfg, Run(cfg, actions), a).commits;
      && |after| == |Run(cfg, actions).commits| + 1 && after[..|after| - 1] == Run(cfg, actions).commits
      && var c := after[|after| - 1];
         && c.heard == SamplesOf(fs) && fs != [] && fs[0].wake && SpeechIn(fs)
         && (if FallsSilent(fs, |fs| - 1) then c.end == VadSilence
             else c.end == MaximumDuration && fs[|fs| - 1].maximumElapsed)
  {
    hide *;
    RunTells(cfg, actions);
    var fs, s := Captured(cfg, actions), Run(cfg, actions);
    OnlyCommittingCommits(cfg, s, a);
    EligibleIsTold(cfg, fs, s);
  }

  lemma OnlyCommittingCommits(cfg: Config, s: Sys, a: Action)
    requires Do(cfg, s, a).commits != s.commits
    ensures s.net.Committing?
    ensures Do(cfg, s, a).commits == s.commits + [Commit(s.heard, s.sent, s.turn.end, s.turn.speech)]
  {
  }

  lemma EligibleIsTold(cfg: Config, fs: seq<Frame>, s: Sys)
    requires Sound(cfg, s) && Told(fs, s) && s.net.Committing?
    ensures s.heard == SamplesOf(fs) && fs != [] && fs[0].wake && SpeechIn(fs)
    ensures if FallsSilent(fs, |fs| - 1) then s.turn.end == VadSilence
            else s.turn.end == MaximumDuration && fs[|fs| - 1].maximumElapsed
  {
    hide SamplesOf, SpeechIn, SoundRing, SoundUpload, GoodPayloads, GoodCommits, Conserved, FlagsTold;
  }

  // --------------------------------------------------------------- writers

  /** The front end has registered as a writer of the ring and not left again. */
  predicate IsWriting(a: Afe) {
    a.Rechecking? || a.Sending? || a.Leaving? || a.BackingOut?
  }

  lemma AfeCountsWriters(s: Sys)
    requires s.turn.writers == if IsWriting(s.afe) then 1 else 0
    ensures AfeStep(s).turn.writers == if IsWriting(AfeStep(s).afe) then 1 else 0
  {
    hide Send, Discard;
  }

  lemma NetCountsWriters(cfg: Config, s: Sys, ok: bool, reason: CaptureEnd)
    ensures NetStep(cfg, s, ok, reason).turn.writers == s.turn.writers && NetStep(cfg, s, ok, reason).afe == s.afe
  {
    hide ReceiveUpTo, Discard;
  }

  /** The writer count is right: the network task never waits for a writer that has left. */
  lemma {:induction false} WritersAreCounted(cfg: Config, actions: seq<Action>)
    ensures Run(cfg, actions).turn.writers == if IsWriting(Run(cfg, actions).afe) then 1 else 0
  {
    if actions != [] {
      var s, a := Run(cfg, actions[..|actions| - 1]), actions[|actions| - 1];
      WritersAreCounted(cfg, actions[..|actions| - 1]);
      assert Run(cfg, actions) == Do(cfg, s, a);
      hide Run, AfeStep, NetStep;
      AfeCountsWriters(s);
      if a.StepNet? {
        NetCountsWriters(cfg, s, a.ok, a.reason);
      }
    }
  }

  /** No more samples are taken up, and none is on its way to the ring. */
  predicate ShutForSamples(s: Sys) {
    !s.turn.accepting && !s.afe.Sending?
  }

  /** Once samples are no longer accepted and no writer is left, the ring gets no more of them until the next turn. */
  lemma NothingIsSentAfterwards(cfg: Config, s: Sys, a: Action)
    requires ShutForSamples(s) && !(a.StepAfe? && s.afe.Accepting?)
    ensures ShutForSamples(Do(cfg, s, a)) && |Do(cfg, s, a).ring.content| <= |s.ring.content|
  {
    if a.StepNet? {
      NetCountsWriters(cfg, s, a.ok, a.reason);
    }
  }

  lemma NoWritersNoSamples(cfg: Config, actions: seq<Action>)
    requires !Run(cfg, actions).turn.accepting && Run(cfg, actions).turn.writers == 0
    ensures ShutForSamples(Run(cfg, actions))
  {
    WritersAreCounted(cfg, actions);
  }
}
