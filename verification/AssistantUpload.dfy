/**
 One spoken command from wake word to commit: the audio front end captures
 frames into a byte ring while the network task uploads them. Both are stepped
 one shared access at a time, in any interleaving; finishing a capture is one
 step, and so is emptying the ring. `heard` is a history of what the front end
 captured in this turn, and `commits` one of what was uploaded when a turn was
 committed.
 */
module AssistantUpload {
  import opened Common
  import opened ByteRing

  datatype TurnState = WaitingForWake | Recording | AwaitingResponse | PlayingResponse

  datatype CaptureEnd =
    | NotEnded
    | VadSilence
    | NoSpeechTimeout
    | MaximumDuration
    | CaptureOverflow
    | NetworkUnavailable
    | ClockUnavailable
    | TransportFailure
    | PipelineStop

  datatype Vad = Silence | Speech

  /** A processed frame; `wake` means a detection of a mapped wake word. */
  datatype Frame = Frame(samples: Pcm, wake: bool, vad: Vad, noSpeechElapsed: bool, maximumElapsed: bool)

  datatype Config = Config(capacity: nat, append: nat)

  ghost predicate ValidConfig(cfg: Config) {
    0 < cfg.append && Even(cfg.append) && Even(cfg.capacity) && cfg.capacity >= cfg.append * 2
  }

  /** Where the front-end thread stands inside `_consume` or `_stopPipeline`. */
  datatype Afe =
    | AfeIdle
    | Entered(f: Frame)
    | Starting(f: Frame)
    | ClearingEnd(f: Frame)
    | ClearingWriters(f: Frame)
    | Accepting(f: Frame)
    | Publishing(f: Frame)
    | AtGate(f: Frame)
    | Capturing(f: Frame)
    | Registering(f: Frame)
    | Rechecking(f: Frame)
    | Sending(f: Frame)
    | Leaving(f: Frame, sent: bool)
    | BackingOut(f: Frame)
    | Overflowing(f: Frame)
    | AfterCapture(f: Frame)
    | AtEndpoint(f: Frame)
    | StopChecking
    | Stopping

  /** Where the network task stands; `drain` tells the final drain from the upload loop. */
  datatype Net =
    | NetIdle
    | Deciding
    | Connecting
    | AtLoop
    | Polling
    | Receiving(drain: bool)
    | Copying(drain: bool, item: seq<Byte>)
    | Returning(drain: bool)
    | Flushing(drain: bool)
    | AwaitingWriters
    | Judging
    | JudgingSpeech
    | SendingLast
    | Committing
    | Responding
    | Failing
    | CleaningUp
    | CleanupWriters
    | Discarding
    | Resetting

  datatype Commit = Commit(heard: seq<Byte>, payloads: seq<seq<Byte>>, end: CaptureEnd, speech: bool)

  /** The flags of a turn that both sides read and write. */
  datatype Turn = Turn(
    state: TurnState,
    end: CaptureEnd,
    accepting: bool,
    writers: int,
    speech: bool,
    lastVad: Option<Vad>)

  datatype Sys = Sys(
    turn: Turn,
    ring: Ring,
    upload: seq<Byte>,
    sent: seq<seq<Byte>>,
    afe: Afe,
    net: Net,
    heard: seq<Byte>,
    commits: seq<Commit>)

  predicate Eligible(end: CaptureEnd) {
    end == VadSilence || end == MaximumDuration
  }

  /** Only the first end reason counts; the rest of the update goes with it. */
  function FinishCapture(t: Turn, reason: CaptureEnd): Turn {
    if t.end != NotEnded then t else t.(end := reason, accepting := false, state := AwaitingResponse)
  }

  // ---------------------------------------------------------- the front end

  /** The voice-activity and time limits of one frame: when capture ends, and for which reason. */
  function UpdateEndpoint(t: Turn, f: Frame): Turn {
    if f.vad == Silence && t.speech && t.lastVad == Some(Speech) then FinishCapture(t, VadSilence)
    else
      var u := t.(speech := t.speech || f.vad == Speech, lastVad := Some(f.vad));
      if !u.speech && f.noSpeechElapsed then FinishCapture(u, NoSpeechTimeout)
      else if f.maximumElapsed then FinishCapture(u, MaximumDuration)
      else u
  }

  function AfeStep(s: Sys): Sys
  {
    match s.afe
    case AfeIdle => s
    case Entered(f) =>
      if f.wake && s.turn.state == WaitingForWake then s.(afe := Starting(f)) else s.(afe := AtGate(f))
    case Starting(f) => s.(afe := ClearingEnd(f), ring := Discard(s.ring), heard := [])
    case ClearingEnd(f) => s.(afe := ClearingWriters(f), turn := s.turn.(end := NotEnded))
    case ClearingWriters(f) => s.(afe := Accepting(f), turn := s.turn.(writers := 0, speech := false, lastVad := None))
    case Accepting(f) => s.(afe := Publishing(f), turn := s.turn.(accepting := true))
    case Publishing(f) => s.(afe := AtGate(f), turn := s.turn.(state := Recording))
    case AtGate(f) =>
      if s.turn.state != Recording then s.(afe := AfeIdle) else s.(afe := Capturing(f), heard := s.heard + f.samples)
    case Capturing(f) =>
      if !s.turn.accepting || f.samples == [] then s.(afe := AfterCapture(f)) else s.(afe := Registering(f))
    case Registering(f) => s.(afe := Rechecking(f), turn := s.turn.(writers := s.turn.writers + 1))
    case Rechecking(f) => if s.turn.accepting then s.(afe := Sending(f)) else s.(afe := BackingOut(f))
    case BackingOut(f) => s.(afe := AfterCapture(f), turn := s.turn.(writers := s.turn.writers - 1))
    case Sending(f) =>
      (match Send(s.ring, f.samples)
       case Some(r) => s.(afe := Leaving(f, true), ring := r)
       case None => s.(afe := Leaving(f, false)))
    case Leaving(f, sent) =>
      s.(afe := if sent then AfterCapture(f) else Overflowing(f), turn := s.turn.(writers := s.turn.writers - 1))
    case Overflowing(f) => s.(afe := AfterCapture(f), turn := FinishCapture(s.turn, CaptureOverflow))
    case AfterCapture(f) => if s.turn.state == Recording then s.(afe := AtEndpoint(f)) else s.(afe := AfeIdle)
    case AtEndpoint(f) => s.(afe := AfeIdle, turn := UpdateEndpoint(s.turn, f))
    case StopChecking => s.(afe := if s.turn.state == Recording then Stopping else AfeIdle)
    case Stopping => s.(afe := AfeIdle, turn := FinishCapture(s.turn, PipelineStop))
  }

  // ------------------------------------------------------- the network task

  /** `ok` is the environment's answer: ready, connected, sent, received, or still waiting. */
  function NetStep(cfg: Config, s: Sys, ok: bool, reason: CaptureEnd): Sys
  {
    match s.net
    case NetIdle =>
      if s.turn.state == Recording || s.turn.state == AwaitingResponse
      then s.(net := Deciding, upload := [], sent := []) else s
    case Deciding => s.(net := if s.turn.end != NotEnded && !Eligible(s.turn.end) then CleaningUp else Connecting)
    case Connecting =>
      if ok then s.(net := AtLoop)
      else
        var why := if reason == NetworkUnavailable || reason == ClockUnavailable then reason else TransportFailure;
        s.(net := CleaningUp, turn := FinishCapture(s.turn, why))
    case AtLoop => s.(net := if s.turn.end == NotEnded then Polling else AwaitingWriters)
    case Polling => s.(net := if ok then Receiving(false) else Failing)
    case Receiving(drain) =>
      if |s.upload| >= cfg.append then s.(net := if drain then Judging else Flushing(false))
      else
        (match ReceiveUpTo(s.ring, cfg.append - |s.upload|)
         case None => s.(net := if drain then Judging else Flushing(false))
         case Some(q) => s.(net := Copying(drain, q.0), ring := q.1))
    case Copying(drain, item) => s.(net := Returning(drain), upload := s.upload + item)
    case Returning(drain) => s.(net := Flushing(drain), ring := ReturnItem(s.ring))
    case Flushing(drain) =>
      var next := if drain then Receiving(true) else AtLoop;
      if |s.upload| != cfg.append then s.(net := next)
      else if ok then s.(net := next, upload := [], sent := s.sent + [s.upload])
      else s.(net := Failing)
    case AwaitingWriters =>
      s.(net := if s.turn.writers == 0 then Receiving(true) else if ok then AwaitingWriters else Failing)
    case Judging => s.(net := if Eligible(s.turn.end) then JudgingSpeech else CleaningUp)
    case JudgingSpeech => s.(net := if s.turn.speech then SendingLast else CleaningUp)
    case SendingLast =>
      if s.upload == [] then s.(net := Committing)
      else if ok then s.(net := Committing, upload := [], sent := s.sent + [s.upload])
      else s.(net := Failing)
    case Committing =>
      if ok then s.(net := Responding, commits := s.commits + [Commit(s.heard, s.sent, s.turn.end, s.turn.speech)])
      else s.(net := Failing)
    case Responding => if ok then s.(turn := s.turn.(state := PlayingResponse)) else s.(net := Failing)
    case Failing => s.(net := CleaningUp, turn := FinishCapture(s.turn, TransportFailure))
    case CleaningUp => s.(net := CleanupWriters, turn := s.turn.(accepting := false))
    case CleanupWriters => if s.turn.writers == 0 || !ok then s.(net := Discarding) else s
    case Discarding => s.(net := Resetting, ring := Discard(s.ring))
    case Resetting => s.(net := NetIdle, turn := s.turn.(state := WaitingForWake))
  }

  // --------------------------------------------------------------- all runs

  datatype Action = NewFrame(f: Frame) | StopPipeline | StepAfe | StepNet(ok: bool, reason: CaptureEnd)

  function Do(cfg: Config, s: Sys, a: Action): Sys
  {
    match a
    case NewFrame(f) => if s.afe == AfeIdle then s.(afe := Entered(f)) else s
    case StopPipeline => if s.afe == AfeIdle then s.(afe := StopChecking) else s
    case StepAfe => AfeStep(s)
    case StepNet(ok, reason) => NetStep(cfg, s, ok, reason)
  }

  function Start(cfg: Config): Sys {
    Sys(Turn(WaitingForWake, NotEnded, false, 0, false, None), Ring(cfg.capacity, 0, [], 0), [], [], AfeIdle, NetIdle,
        [], [])
  }

  function Run(cfg: Config, actions: seq<Action>): Sys {
    if actions == [] then Start(cfg) else Do(cfg, Run(cfg, actions[..|actions| - 1]), actions[|actions| - 1])
  }

  // -------------------------------------------------------------- invariant

  /** Samples the front end has taken up but not yet sent to the ring. */
  function Pending(a: Afe): Pcm {
    match a
    case Capturing(f) => f.samples
    case Registering(f) => f.samples
    case Rechecking(f) => f.samples
    case Sending(f) => f.samples
    case Leaving(f, sent) => if sent then [] else f.samples
    case Overflowing(f) => f.samples
    case BackingOut(f) => f.samples
    case _ => []
  }

  /** The front end is starting a turn, after the ring was emptied for it. */
  predicate Beginning(a: Afe) {
    a.ClearingEnd? || a.ClearingWriters? || a.Accepting? || a.Publishing?
  }

  /** The front end is between the gate and the end of a frame's capture. */
  predicate InCapture(a: Afe) {
    a.Capturing? || a.Registering? || a.Rechecking? || a.Sending? || a.Leaving? || a.BackingOut? || a.Overflowing?
    || a.AfterCapture? || a.AtEndpoint?
  }

  /** Bytes taken from the ring and not yet copied. */
  function InFlight(n: Net): seq<Byte> {
    if n.Copying? then n.item else []
  }

  /** The network task is still collecting this turn's samples. */
  predicate Collecting(n: Net) {
    n.Deciding? || n.Connecting? || n.AtLoop? || n.Polling? || n.Receiving? || n.Copying? || n.Returning? || n.Flushing?
    || n.AwaitingWriters? || n.Judging? || n.JudgingSpeech? || n.SendingLast? || n.Committing?
  }

  /** The network task has seen the end of the capture. */
  predicate SeenEnd(n: Net) {
    (n.Receiving? && n.drain) || (n.Copying? && n.drain) || (n.Returning? && n.drain) || (n.Flushing? && n.drain)
    || n.AwaitingWriters? || n.Judging? || n.JudgingSpeech? || n.SendingLast? || n.Committing? || n.Responding?
    || n.CleaningUp? || n.CleanupWriters? || n.Discarding? || n.Resetting?
  }

  /** A capture that is still running, or ended the way a commit needs. */
  predicate Whole(end: CaptureEnd) {
    end == NotEnded || Eligible(end)
  }

  ghost predicate GoodPayload(cfg: Config, p: seq<Byte>) {
    0 < |p| <= cfg.append && Even(|p|)
  }

  ghost predicate GoodPayloads(cfg: Config, sent: seq<seq<Byte>>) {
    forall i :: 0 <= i < |sent| ==> GoodPayload(cfg, sent[i])
  }

  ghost predicate GoodCommit(cfg: Config, c: Commit) {
    Concat(c.payloads) == c.heard && GoodPayloads(cfg, c.payloads) && Eligible(c.end) && c.speech
  }

  ghost predicate GoodCommits(cfg: Config, commits: seq<Commit>) {
    forall i :: 0 <= i < |commits| ==> GoodCommit(cfg, commits[i])
  }

  /** A piece is handed out only while the network task copies or returns it. */
  ghost predicate SoundRing(cfg: Config, r: Ring, n: Net) {
    ValidRing(r) && r.capacity == cfg.capacity && (r.held != 0 ==> n.Copying? || n.Returning?)
  }

  /** The upload buffer and the piece in flight fit the append limit. */
  ghost predicate SoundUpload(cfg: Config, upload: seq<Byte>, n: Net) {
    && (n.Copying? ==> Even(|n.item|))
    && Even(|upload|) && |upload| + |InFlight(n)| <= cfg.append
    && (n.AtLoop? || n.Polling? || n.Receiving? || n.AwaitingWriters? || n.Connecting? || n.Deciding?
        ==> |upload| < cfg.append)
  }

  /** Who may be where while the capture runs or has ended. */
  ghost predicate SoundFlags(t: Turn, a: Afe, n: Net) {
    && (t.state == Recording ==> t.end == NotEnded && t.accepting)
    && (t.state == WaitingForWake ==> n == NetIdle)
    && (t.state == AwaitingResponse || t.state == PlayingResponse ==> t.end != NotEnded)
    && (t.state == PlayingResponse ==> n != NetIdle)
    && (a.Starting? || Beginning(a) ==> t.state == WaitingForWake)
    && (Beginning(a) && !a.ClearingEnd? ==> t.end == NotEnded)
    && (a.Publishing? ==> t.accepting)
    && (n != NetIdle && t.end == NotEnded ==> t.state == Recording)
    && (SeenEnd(n) ==> t.end != NotEnded)
    && (n.JudgingSpeech? || n.SendingLast? || n.Committing? ==> Eligible(t.end))
    && (n.SendingLast? || n.Committing? ==> t.speech)
    && (Eligible(t.end) ==> !InCapture(a))
    && (InCapture(a) && t.end == NotEnded ==> t.state == Recording && !a.BackingOut?)
  }

  /** The samples of this turn, wherever they are, oldest first. */
  function Gathered(s: Sys): seq<Byte> {
    Concat(s.sent) + (s.upload + (InFlight(s.net) + (s.ring.content + Pending(s.afe))))
  }

  /** Nothing lost, nothing repeated: everything heard is sent, buffered, in flight, queued or pending, in that
      order. */
  ghost predicate Conserved(s: Sys) {
    && (Collecting(s.net) && Whole(s.turn.end) ==> s.heard == Gathered(s))
    && (s.net == NetIdle && s.turn.state != WaitingForWake && Whole(s.turn.end)
        ==> s.heard == s.ring.content + Pending(s.afe))
    && (Beginning(s.afe) ==> s.heard == [] && s.ring.content == [])
    && ((s.net.Judging? || s.net.JudgingSpeech? || s.net.SendingLast? || s.net.Committing?) && Eligible(s.turn.end)
        ==> s.ring.content == [])
    && (s.net.Committing? ==> s.upload == [])
  }

  ghost predicate Sound(cfg: Config, s: Sys) {
    && SoundRing(cfg, s.ring, s.net)
    && SoundUpload(cfg, s.upload, s.net)
    && GoodPayloads(cfg, s.sent)
    && GoodCommits(cfg, s.commits)
    && SoundFlags(s.turn, s.afe, s.net)
    && Conserved(s)
  }

  lemma StartIsSound(cfg: Config)
    requires ValidConfig(cfg)
    ensures Sound(cfg, Start(cfg))
  {
  }

  // ------------------------------------------------- every step keeps it

  lemma WakeStepsKeep(cfg: Config, s: Sys)
    requires Sound(cfg, s) && (s.afe.AfeIdle? || s.afe.Starting?)
    ensures Sound(cfg, AfeStep(s))
  {
    hide Concat;
  }

  lemma BeginStepsKeep(cfg: Config, s: Sys)
    requires Sound(cfg, s)
    requires s.afe.ClearingEnd? || s.afe.ClearingWriters? || s.afe.Accepting? || s.afe.Publishing?
    ensures Sound(cfg, AfeStep(s))
  {
    hide Concat, ValidRing;
  }

  lemma EnterKeeps(cfg: Config, s: Sys)
    requires Sound(cfg, s) && s.afe.Entered?
    ensures Sound(cfg, AfeStep(s))
  {
  }

  lemma AppendLast(a: seq<Byte>, b: seq<Byte>, c: seq<Byte>, d: seq<Byte>, e: seq<Byte>)
    ensures a + (b + (c + (d + []))) + e == a + (b + (c + (d + e)))
  {
  }

  lemma GateKeepsConserved(cfg: Config, s: Sys)
    requires Sound(cfg, s) && s.afe.AtGate?
    ensures Conserved(AfeStep(s))
  {
    AppendLast(Concat(s.sent), s.upload, InFlight(s.net), s.ring.content, s.afe.f.samples);
    assert s.ring.content + [] == s.ring.content;
    hide Concat;
  }

  lemma GateKeeps(cfg: Config, s: Sys)
    requires Sound(cfg, s) && s.afe.AtGate?
    ensures Sound(cfg, AfeStep(s))
  {
    GateKeepsConserved(cfg, s);
    hide Conserved, Gathered;
  }

  lemma CaptureCheckKeeps(cfg: Config, s: Sys)
    requires Sound(cfg, s) && s.afe.Capturing?
    ensures Sound(cfg, AfeStep(s))
  {
  }

  lemma WriterStepsKeep(cfg: Config, s: Sys)
    requires Sound(cfg, s) && (s.afe.Registering? || s.afe.BackingOut? || s.afe.Leaving?)
    ensures Sound(cfg, AfeStep(s))
  {
    hide GoodCommits, GoodPayloads, Concat, ValidRing;
  }

  lemma RecheckKeeps(cfg: Config, s: Sys)
    requires Sound(cfg, s) && s.afe.Rechecking?
    ensures Sound(cfg, AfeStep(s))
  {
  }

  /** Samples that move from pending to the end of the ring are gathered in the same order. */
  lemma SendingGathersTheSame(s: Sys, t: Sys, samples: Pcm)
    requires Pending(s.afe) == samples && Pending(t.afe) == [] && t.ring.content == s.ring.content + samples
    requires t.sent == s.sent && t.upload == s.upload && t.net == s.net
    ensures Gathered(t) == Gathered(s)
    ensures t.ring.content + Pending(t.afe) == s.ring.content + Pending(s.afe)
  {
    hide Concat, InFlight, Pending;
    assert t.ring.content + Pending(t.afe) == s.ring.content + Pending(s.afe);
  }

  lemma SendSamplesKeepConserved(cfg: Config, s: Sys)
    requires Sound(cfg, s) && s.afe.Sending?
    ensures Conserved(AfeStep(s))
  {
    var t := AfeStep(s);
    if Send(s.ring, s.afe.f.samples).Some? {
      SendingGathersTheSame(s, t, s.afe.f.samples);
    }
    hide Concat, Gathered, Send;
  }

  lemma SendSamplesKeep(cfg: Config, s: Sys)
    requires Sound(cfg, s) && s.afe.Sending?
    ensures Sound(cfg, AfeStep(s))
  {
    SendSamplesKeepConserved(cfg, s);
    hide Conserved, Gathered, GoodCommits, GoodPayloads, SoundUpload;
  }

  lemma OverflowKeeps(cfg: Config, s: Sys)
    requires Sound(cfg, s) && s.afe.Overflowing?
    ensures Sound(cfg, AfeStep(s))
  {
  }

  lemma CaptureDoneKeeps(cfg: Config, s: Sys)
    requires Sound(cfg, s) && s.afe.AfterCapture?
    ensures Sound(cfg, AfeStep(s))
  {
  }

  lemma EndpointKeeps(cfg: Config, s: Sys)
    requires Sound(cfg, s) && s.afe.AtEndpoint?
    ensures Sound(cfg, AfeStep(s))
  {
  }

  lemma StopStepsKeep(cfg: Config, s: Sys)
    requires Sound(cfg, s) && (s.afe.StopChecking? || s.afe.Stopping?)
    ensures Sound(cfg, AfeStep(s))
  {
    hide GoodCommits, GoodPayloads, Concat, ValidRing;
  }

  lemma TurnStepsKeep(cfg: Config, s: Sys, ok: bool, reason: CaptureEnd)
    requires ValidConfig(cfg) && Sound(cfg, s)
    requires s.net.NetIdle? || s.net.Deciding? || s.net.Connecting?
    ensures Sound(cfg, NetStep(cfg, s, ok, reason))
  {
    hide GoodCommits, ValidRing;
  }

  lemma LoopStepsKeep(cfg: Config, s: Sys, ok: bool, reason: CaptureEnd)
    requires ValidConfig(cfg) && Sound(cfg, s)
    requires s.net.AtLoop? || s.net.Polling? || s.net.AwaitingWriters?
    ensures Sound(cfg, NetStep(cfg, s, ok, reason))
  {
  }

  lemma PieceInFlight(item: seq<Byte>, rest: seq<Byte>, content: seq<Byte>, after: seq<Byte>)
    requires item + rest == content
    ensures item + (rest + after) == [] + (content + after)
  {
  }

  lemma ReceiveKeepsConserved(cfg: Config, s: Sys, ok: bool, reason: CaptureEnd)
    requires ValidConfig(cfg) && Sound(cfg, s) && s.net.Receiving?
    ensures Conserved(NetStep(cfg, s, ok, reason))
  {
    var q := ReceiveUpTo(s.ring, cfg.append - |s.upload|);
    hide ReceiveUpTo;
    if q.Some? {
      PieceInFlight(q.value.0, q.value.1.content, s.ring.content, Pending(s.afe));
    }
  }

  lemma ReceiveKeeps(cfg: Config, s: Sys, ok: bool, reason: CaptureEnd)
    requires ValidConfig(cfg) && Sound(cfg, s) && s.net.Receiving?
    ensures Sound(cfg, NetStep(cfg, s, ok, reason))
  {
    hide GoodCommits, GoodPayloads, Conserved, Gathered, ReceiveUpTo, Concat;
    ReceiveKeepsConserved(cfg, s, ok, reason);
    var max := cfg.append - |s.upload|;
    if max > 0 && ReceiveUpTo(s.ring, max).Some? {
      ReceiveKeepsRing(s.ring, max);
    }
  }

  /** Bytes that move from the piece in flight to the end of the upload buffer are gathered in the same order. */
  lemma CopyingGathersTheSame(s: Sys, t: Sys)
    requires s.net.Copying? && t.net.Returning? && t.upload == s.upload + s.net.item
    requires t.sent == s.sent && t.ring == s.ring && t.afe == s.afe
    ensures Gathered(t) == Gathered(s)
  {
    hide Concat, Pending;
    assert [] + (s.ring.content + Pending(s.afe)) == s.ring.content + Pending(s.afe);
  }

  lemma CopyingKeeps(cfg: Config, s: Sys, ok: bool, reason: CaptureEnd)
    requires ValidConfig(cfg) && Sound(cfg, s) && s.net.Copying?
    ensures Sound(cfg, NetStep(cfg, s, ok, reason))
  {
    hide GoodCommits, GoodPayloads, Gathered, ValidRing;
    CopyingGathersTheSame(s, NetStep(cfg, s, ok, reason));
  }

  lemma ReturningKeeps(cfg: Config, s: Sys, ok: bool, reason: CaptureEnd)
    requires ValidConfig(cfg) && Sound(cfg, s) && s.net.Returning?
    ensures Sound(cfg, NetStep(cfg, s, ok, reason))
  {
    hide GoodCommits, GoodPayloads, Concat;
  }

  lemma FlushKeeps(cfg: Config, s: Sys, ok: bool, reason: CaptureEnd)
    requires ValidConfig(cfg) && Sound(cfg, s)
    requires s.net.Flushing?
    ensures Sound(cfg, NetStep(cfg, s, ok, reason))
  {
    hide GoodCommits, ValidRing, Concat;
    ConcatAppend(s.sent, s.upload);
  }

  lemma LastSendKeeps(cfg: Config, s: Sys, ok: bool, reason: CaptureEnd)
    requires ValidConfig(cfg) && Sound(cfg, s)
    requires s.net.Judging? || s.net.JudgingSpeech? || s.net.SendingLast?
    ensures Sound(cfg, NetStep(cfg, s, ok, reason))
  {
    hide GoodCommits, ValidRing, Concat;
    ConcatAppend(s.sent, s.upload);
  }

  lemma CommitStepsKeep(cfg: Config, s: Sys, ok: bool, reason: CaptureEnd)
    requires ValidConfig(cfg) && Sound(cfg, s)
    requires s.net.Committing? || s.net.Responding? || s.net.Failing?
    ensures Sound(cfg, NetStep(cfg, s, ok, reason))
  {
    hide ValidRing, Concat, Even;
  }

  lemma CleanupStepsKeep(cfg: Config, s: Sys, ok: bool, reason: CaptureEnd)
    requires ValidConfig(cfg) && Sound(cfg, s)
    requires s.net.CleaningUp? || s.net.CleanupWriters? || s.net.Discarding? || s.net.Resetting?
    ensures Sound(cfg, NetStep(cfg, s, ok, reason))
  {
    hide GoodCommits, GoodPayloads, Concat, ValidRing;
  }

  lemma AfeKeeps(cfg: Config, s: Sys)
    requires Sound(cfg, s)
    ensures Sound(cfg, AfeStep(s))
  {
    hide *;
    match s.afe
    case AfeIdle => WakeStepsKeep(cfg, s);
    case Starting(_) => WakeStepsKeep(cfg, s);
    case ClearingEnd(_) => BeginStepsKeep(cfg, s);
    case ClearingWriters(_) => BeginStepsKeep(cfg, s);
    case Accepting(_) => BeginStepsKeep(cfg, s);
    case Publishing(_) => BeginStepsKeep(cfg, s);
    case Entered(_) => EnterKeeps(cfg, s);
    case AtGate(_) => GateKeeps(cfg, s);
    case Capturing(_) => CaptureCheckKeeps(cfg, s);
    case Registering(_) => WriterStepsKeep(cfg, s);
    case BackingOut(_) => WriterStepsKeep(cfg, s);
    case Leaving(_, _) => WriterStepsKeep(cfg, s);
    case Rechecking(_) => RecheckKeeps(cfg, s);
    case Sending(_) => SendSamplesKeep(cfg, s);
    case Overflowing(_) => OverflowKeeps(cfg, s);
    case AfterCapture(_) => CaptureDoneKeeps(cfg, s);
    case AtEndpoint(_) => EndpointKeeps(cfg, s);
    case StopChecking => StopStepsKeep(cfg, s);
    case Stopping => StopStepsKeep(cfg, s);
  }

  lemma NetKeeps(cfg: Config, s: Sys, ok: bool, reason: CaptureEnd)
    requires ValidConfig(cfg) && Sound(cfg, s)
    ensures Sound(cfg, NetStep(cfg, s, ok, reason))
  {
    hide *;
    match s.net
    case NetIdle => TurnStepsKeep(cfg, s, ok, reason);
    case Deciding => TurnStepsKeep(cfg, s, ok, reason);
    case Connecting => TurnStepsKeep(cfg, s, ok, reason);
    case AtLoop => LoopStepsKeep(cfg, s, ok, reason);
    case Polling => LoopStepsKeep(cfg, s, ok, reason);
    case AwaitingWriters => LoopStepsKeep(cfg, s, ok, reason);
    case Receiving(_) => ReceiveKeeps(cfg, s, ok, reason);
    case Copying(_, _) => CopyingKeeps(cfg, s, ok, reason);
    case Returning(_) => ReturningKeeps(cfg, s, ok, reason);
    case Flushing(_) => FlushKeeps(cfg, s, ok, reason);
    case Judging => LastSendKeeps(cfg, s, ok, reason);
    case JudgingSpeech => LastSendKeeps(cfg, s, ok, reason);
    case SendingLast => LastSendKeeps(cfg, s, ok, reason);
    case Committing => CommitStepsKeep(cfg, s, ok, reason);
    case Responding => CommitStepsKeep(cfg, s, ok, reason);
    case Failing => CommitStepsKeep(cfg, s, ok, reason);
    case CleaningUp => CleanupStepsKeep(cfg, s, ok, reason);
    case CleanupWriters => CleanupStepsKeep(cfg, s, ok, reason);
    case Discarding => CleanupStepsKeep(cfg, s, ok, reason);
    case Resetting => CleanupStepsKeep(cfg, s, ok, reason);
  }

  /** Every step of either task keeps the invariant. */
  lemma DoKeeps(cfg: Config, s: Sys, a: Action)
    requires ValidConfig(cfg) && Sound(cfg, s)
    ensures Sound(cfg, Do(cfg, s, a))
  {
    hide AfeStep, NetStep;
    match a
    case NewFrame(f) =>
    case StopPipeline =>
    case StepAfe => AfeKeeps(cfg, s);
    case StepNet(ok, reason) => NetKeeps(cfg, s, ok, reason);
  }
}
