/**
 Playing one response: the network task queues audio on a byte ring while the
 playback worker primes the sink with silence and then drains the ring. The
 worker runs from one blocking call to the next without the network task getting
 in between, since both share a core and the worker has the higher priority; the
 network task is stepped one shared access at a time. Resetting the flags for a
 new turn is one step, and so is emptying the ring.

 `queued` is a history of the bytes queued in this turn, `sink` of the writes
 that reached the sink.
 */
module AssistantPlayback {
  import opened Common
  import opened ByteRing

  datatype Config = Config(capacity: nat, write: nat, prebuffer: nat, prime: nat)

  ghost predicate ValidConfig(cfg: Config) {
    0 < cfg.write && Even(cfg.write) && 0 < cfg.prebuffer && 0 < cfg.capacity && Even(cfg.capacity)
  }

  datatype Write = Write(audio: bool, bytes: seq<Byte>)

  /** The blocking call the worker stands in. */
  datatype Worker =
    | Idle
    | PrimeWait
    | WritingSilence
    | RebufferWait
    | Receiving
    | Writing(item: seq<Byte>)

  /** Where the network task stands; `fin` tells the start of a short response from that of a long one. */
  datatype Net =
    | Outside
    | InTurn
    | Enabling
    | PrimeEnabled
    | Primed
    | Announcing
    | Streaming
    | Queueing(bytes: Pcm)
    | Overflowing
    | Queued
    | CheckingStart(fin: bool)
    | CheckingDepth(fin: bool)
    | StartingAudio(fin: bool)
    | Finishing
    | AwaitingWorker
    | CheckingOutcome
    | Finished
    | Broken
    | StopDone
    | StopUnprimed
    | Aborting
    | StopWaiting
    | Discarding
    | Unreadying

  datatype Flags = Flags(
    prime: bool,
    audioReady: bool,
    producerDone: bool,
    abort: bool,
    failed: bool,
    complete: bool)

  datatype Sys = Sys(
    flags: Flags,
    ring: Ring,
    net: Net,
    worker: Worker,
    waiting: bool,
    started: bool,
    queued: seq<Byte>,
    sink: seq<Write>)

  function Silence(n: nat): (r: seq<Byte>)
    ensures |r| == n && forall i :: 0 <= i < n ==> r[i] == 0
  {
    seq(n, _ => 0)
  }

  /** A piece that is handed out still takes up its room. */
  function Depth(r: Ring): nat {
    |r.content| + r.held
  }

  // ------------------------------------------------------------- the worker

  /** The worker leaves its loop and reports completion. */
  function Exit(s: Sys): Sys {
    s.(worker := Idle, flags := s.flags.(complete := true))
  }

  function WriteFailed(s: Sys): Sys {
    Exit(s.(flags := s.flags.(failed := true, abort := true)))
  }

  /** From the top of the loop to the next blocking call. */
  function Loop(cfg: Config, s: Sys): Sys {
    if s.flags.abort then Exit(s)
    else if !s.flags.audioReady then s.(worker := if s.flags.prime then WritingSilence else PrimeWait)
    else if s.waiting && !s.flags.producerDone && Depth(s.ring) < cfg.prebuffer then s.(worker := RebufferWait)
    else if s.waiting && Depth(s.ring) == 0 then Exit(s.(waiting := false))
    else s.(worker := Receiving, waiting := false)
  }

  /** The blocking call returns; a write has pushed `written` bytes, short if that is less than asked. */
  function WorkerStep(cfg: Config, s: Sys, written: nat): Sys
  {
    match s.worker
    case Idle => Loop(cfg, s.(waiting := false))
    case PrimeWait => Loop(cfg, s)
    case RebufferWait => Loop(cfg, s)
    case WritingSilence =>
      var t := s.(sink := s.sink + [Write(false, Silence(Min(written, cfg.prime)))]);
      if written < cfg.prime then WriteFailed(t) else Loop(cfg, t)
    case Receiving =>
      (match ReceiveUpTo(s.ring, cfg.write)
       case Some(q) => s.(worker := Writing(q.0), ring := q.1)
       case None => if s.flags.producerDone then Exit(s) else Loop(cfg, s.(waiting := true)))
    case Writing(item) =>
      var t := s.(sink := s.sink + [Write(true, item[..Min(written, |item|)])], ring := ReturnItem(s.ring));
      if written < |item| then WriteFailed(t) else Loop(cfg, t)
  }

  // ------------------------------------------------------- the network task

  /** What the turn asks of playback; `GoOn` steps a call already begun, `late` when its wait is over. */
  datatype Call = NewTurn | StartPriming | StartPlayback | Queue(bytes: Pcm) | Finish | Stop | GoOn(late: bool)

  function NetStep(cfg: Config, s: Sys, c: Call): Sys
  {
    match c
    case NewTurn =>
      if s.net != Outside then s
      else s.(net := InTurn, flags := Flags(false, false, false, false, false, true), started := false,
              queued := [], sink := [])
    case StartPriming =>
      if s.net != InTurn then s
      else if !s.flags.complete then s.(net := Broken)
      else s.(net := Enabling)
    case StartPlayback =>
      if s.net != Primed then s
      else if s.flags.failed then s.(net := Broken)
      else s.(net := Announcing)
    case Queue(bytes) =>
      if s.net != Streaming then s
      else if bytes == [] || s.flags.failed then s.(net := Broken)
      else s.(net := Queueing(bytes))
    case Finish =>
      if s.net != Streaming then s else s.(net := Finishing, flags := s.flags.(producerDone := true))
    case Stop =>
      if s.net.InTurn? || s.net.Primed? || s.net.Streaming? || s.net.Finished? || s.net.Broken?
      then s.(net := StopDone, flags := s.flags.(producerDone := true)) else s
    case GoOn(late) => NetGoesOn(cfg, s, late)
  }

  function NetGoesOn(cfg: Config, s: Sys, late: bool): Sys
  {
    match s.net
    case Enabling => s.(net := PrimeEnabled, flags := s.flags.(prime := true))
    case PrimeEnabled => s.(net := Primed, flags := s.flags.(complete := false))
    case Announcing => s.(net := Streaming, flags := s.flags.(prime := false))
    case Queueing(bytes) =>
      (match Send(s.ring, bytes)
       case Some(r) => s.(net := Queued, ring := r, queued := s.queued + bytes)
       case None => if late then s.(net := Overflowing) else s)
    case Overflowing => s.(net := Broken, flags := s.flags.(failed := true))
    case Queued => s.(net := if !s.started && Depth(s.ring) >= cfg.prebuffer then CheckingStart(false) else Streaming)
    case CheckingStart(fin) => s.(net := if s.flags.complete then Broken else CheckingDepth(fin))
    case CheckingDepth(fin) =>
      if Depth(s.ring) == 0 then s.(net := Broken) else s.(net := StartingAudio(fin), started := true)
    case StartingAudio(fin) =>
      s.(net := if fin then AwaitingWorker else Streaming, flags := s.flags.(audioReady := true))
    case Finishing => s.(net := if s.started then AwaitingWorker else CheckingStart(true))
    case AwaitingWorker =>
      if s.flags.complete then s.(net := CheckingOutcome) else if late then s.(net := Broken) else s
    case CheckingOutcome => s.(net := if s.flags.failed then Broken else Finished)
    case StopDone => s.(net := StopUnprimed, flags := s.flags.(prime := false))
    case StopUnprimed => s.(net := if s.flags.complete then Discarding else Aborting)
    case Aborting => s.(net := StopWaiting, flags := s.flags.(abort := true))
    case StopWaiting => if s.flags.complete then s.(net := Discarding) else s
    case Discarding => s.(net := Unreadying, ring := Discard(s.ring))
    case Unreadying => s.(net := Outside, started := false, flags := s.flags.(audioReady := false))
    case _ => s
  }

  // --------------------------------------------------------------- all runs

  datatype Action = StepWorker(written: nat) | StepNet(call: Call)

  function Do(cfg: Config, s: Sys, a: Action): Sys
  {
    match a
    case StepWorker(written) => WorkerStep(cfg, s, written)
    case StepNet(c) => NetStep(cfg, s, c)
  }

  function Start(cfg: Config): Sys {
    Sys(Flags(false, false, false, false, false, true), Ring(cfg.capacity, 0, [], 0), Outside, Idle, false, false, [],
        [])
  }

  function Run(cfg: Config, actions: seq<Action>): Sys {
    if actions == [] then Start(cfg) else Do(cfg, Run(cfg, actions[..|actions| - 1]), actions[|actions| - 1])
  }

  // -------------------------------------------------------------- invariant

  function AudioBytes(sink: seq<Write>): seq<Byte> {
    if sink == [] then []
    else
      var last := sink[|sink| - 1];
      AudioBytes(sink[..|sink| - 1]) + (if last.audio then last.bytes else [])
  }

  function InFlight(w: Worker): seq<Byte> {
    if w.Writing? then w.item else []
  }

  ghost predicate NoAudio(sink: seq<Write>) {
    forall i :: 0 <= i < |sink| ==> !sink[i].audio
  }

  ghost predicate SilenceThenAudio(sink: seq<Write>) {
    forall i, j :: 0 <= i < j < |sink| && sink[i].audio ==> sink[j].audio
  }

  ghost predicate FullSilence(cfg: Config, sink: seq<Write>) {
    forall i :: 0 <= i < |sink| && !sink[i].audio ==> sink[i].bytes == Silence(cfg.prime)
  }

  predicate Stopping(n: Net) {
    n.StopDone? || n.StopUnprimed? || n.Aborting? || n.StopWaiting? || n.Discarding? || n.Unreadying? || n.Outside?
  }

  /** The turn's completion flag has been cleared for its own worker run. */
  predicate PastPriming(n: Net) {
    !n.Outside? && !n.InTurn? && !n.Enabling? && !n.PrimeEnabled?
  }

  /** The network task may still queue audio. */
  predicate Producing(n: Net) {
    n.InTurn? || n.Enabling? || n.PrimeEnabled? || n.Primed? || n.Announcing? || n.Streaming? || n.Queueing?
    || n.Overflowing? || n.Queued?
    || (n.CheckingStart? && !n.fin) || (n.CheckingDepth? && !n.fin) || (n.StartingAudio? && !n.fin)
  }

  ghost predicate SoundRing(cfg: Config, r: Ring, w: Worker) {
    ValidRing(r) && r.capacity == cfg.capacity && (r.held != 0 ==> w.Writing?)
  }

  /** A completed worker has aborted, or has nothing left to play and will get nothing more. */
  ghost predicate SoundCompletion(f: Flags, n: Net, w: Worker, content: seq<Byte>) {
    && (PastPriming(n) && f.complete ==> (f.abort && w.Idle?) || (f.producerDone && content == [] && !w.Writing?))
    && (n.Outside? || n.Unreadying? || n.InTurn? || n.Enabling? || n.PrimeEnabled? ==> content == [] && !w.Writing?)
    && (n.Discarding? ==> f.complete || (content == [] && !w.Writing?))
  }

  ghost predicate SoundFlags(f: Flags, n: Net) {
    && (Producing(n) ==> !f.producerDone)
    && (f.abort ==> f.failed || Stopping(n))
    && (f.prime ==> n.PrimeEnabled? || n.Primed? || n.Announcing? || n.Broken? || n.StopDone?)
    && (n.CheckingOutcome? ==> f.complete)
  }

  ghost predicate SoundSilence(f: Flags, n: Net, w: Worker, content: seq<Byte>, queued: seq<Byte>, sink: seq<Write>) {
    && (f.prime || n.InTurn? || n.Enabling? || n.PrimeEnabled? || n.Primed? || n.Announcing? ==> queued == [])
    && (queued == [] ==> content == [] && !w.Writing? && NoAudio(sink))
    && (w.WritingSilence? ==> NoAudio(sink))
    && (n.Queueing? ==> n.bytes != [])
    && SilenceThenAudio(sink)
  }

  ghost predicate Conserved(f: Flags, w: Worker, content: seq<Byte>, queued: seq<Byte>, sink: seq<Write>) {
    !f.failed && !f.abort ==> AudioBytes(sink) + (InFlight(w) + content) == queued
  }

  ghost predicate Sound(cfg: Config, s: Sys) {
    && SoundRing(cfg, s.ring, s.worker)
    && SoundCompletion(s.flags, s.net, s.worker, s.ring.content)
    && SoundFlags(s.flags, s.net)
    && SoundSilence(s.flags, s.net, s.worker, s.ring.content, s.queued, s.sink)
    && Conserved(s.flags, s.worker, s.ring.content, s.queued, s.sink)
    && (!s.flags.failed ==> FullSilence(cfg, s.sink))
  }

  lemma StartIsSound(cfg: Config)
    requires ValidConfig(cfg)
    ensures Sound(cfg, Start(cfg))
  {
  }

  // ------------------------------------------------- every step keeps it

  lemma AudioBytesAppend(sink: seq<Write>, w: Write)
    ensures AudioBytes(sink + [w]) == AudioBytes(sink) + (if w.audio then w.bytes else [])
  {
    assert (sink + [w])[..|sink|] == sink;
  }

  lemma LoopKeeps(cfg: Config, s: Sys)
    requires ValidConfig(cfg) && Sound(cfg, s) && !s.worker.Writing?
    ensures Sound(cfg, Loop(cfg, s))
  {
    hide AudioBytes, NoAudio, SilenceThenAudio, FullSilence, ValidRing;
  }

  lemma WaitsKeep(cfg: Config, s: Sys, written: nat)
    requires ValidConfig(cfg) && Sound(cfg, s)
    requires s.worker.Idle? || s.worker.PrimeWait? || s.worker.RebufferWait?
    ensures Sound(cfg, WorkerStep(cfg, s, written))
  {
    hide Loop, AudioBytes, NoAudio, SilenceThenAudio, FullSilence, ValidRing;
    LoopKeeps(cfg, s.(waiting := false));
    LoopKeeps(cfg, s);
  }

  /** One more silent write, full or short, ahead of any audio. */
  lemma SilenceAppended(cfg: Config, sink: seq<Write>, n: nat)
    requires NoAudio(sink)
    ensures var t := sink + [Write(false, Silence(n))];
      && AudioBytes(t) == AudioBytes(sink) && NoAudio(t) && SilenceThenAudio(t)
      && (n == cfg.prime && FullSilence(cfg, sink) ==> FullSilence(cfg, t))
  {
    AudioBytesAppend(sink, Write(false, Silence(n)));
  }

  lemma SilenceKeeps(cfg: Config, s: Sys, written: nat)
    requires ValidConfig(cfg) && Sound(cfg, s) && s.worker.WritingSilence?
    ensures Sound(cfg, WorkerStep(cfg, s, written))
  {
    hide Loop, AudioBytes, NoAudio, SilenceThenAudio, FullSilence, ValidRing, Silence;
    var n := Min(written, cfg.prime);
    SilenceAppended(cfg, s.sink, n);
    var t := s.(sink := s.sink + [Write(false, Silence(n))]);
    if written >= cfg.prime {
      LoopKeeps(cfg, t);
    }
  }

  lemma ReceivingKeeps(cfg: Config, s: Sys, written: nat)
    requires ValidConfig(cfg) && Sound(cfg, s) && s.worker.Receiving?
    ensures Sound(cfg, WorkerStep(cfg, s, written))
  {
    hide Loop, AudioBytes, NoAudio, SilenceThenAudio, FullSilence, ReceiveUpTo, Even;
    var q := ReceiveUpTo(s.ring, cfg.write);
    if q.Some? {
      ReceiveKeepsRing(s.ring, cfg.write);
      assert [] + s.ring.content == q.value.0 + q.value.1.content;
    } else if !s.flags.producerDone {
      LoopKeeps(cfg, s.(waiting := true));
    }
  }

  /** One more audio write, the last so far. */
  lemma AudioAppended(cfg: Config, sink: seq<Write>, bytes: seq<Byte>)
    requires SilenceThenAudio(sink)
    ensures var t := sink + [Write(true, bytes)];
      && AudioBytes(t) == AudioBytes(sink) + bytes && SilenceThenAudio(t)
      && (FullSilence(cfg, sink) ==> FullSilence(cfg, t))
  {
    AudioBytesAppend(sink, Write(true, bytes));
  }

  lemma LoopForgetsWorker(cfg: Config, s: Sys, w: Worker)
    ensures Loop(cfg, s.(worker := w)) == Loop(cfg, s)
  {
  }

  lemma WritingKeeps(cfg: Config, s: Sys, written: nat)
    requires ValidConfig(cfg) && Sound(cfg, s) && s.worker.Writing?
    ensures Sound(cfg, WorkerStep(cfg, s, written))
  {
    hide Loop, AudioBytes, NoAudio, SilenceThenAudio, FullSilence;
    var item := s.worker.item;
    var n := Min(written, |item|);
    AudioAppended(cfg, s.sink, item[..n]);
    var t := s.(sink := s.sink + [Write(true, item[..n])], ring := ReturnItem(s.ring));
    if written >= |item| {
      assert item[..n] == item;
      LoopKeeps(cfg, t.(worker := Receiving));
      LoopForgetsWorker(cfg, t, Receiving);
    }
  }

  lemma NewTurnKeeps(cfg: Config, s: Sys)
    requires ValidConfig(cfg) && Sound(cfg, s)
    ensures Sound(cfg, NetStep(cfg, s, NewTurn))
  {
    hide ValidRing;
  }

  lemma StartCallsKeep(cfg: Config, s: Sys, c: Call)
    requires ValidConfig(cfg) && Sound(cfg, s) && (c.StartPriming? || c.StartPlayback?)
    ensures Sound(cfg, NetStep(cfg, s, c))
  {
    hide AudioBytes, NoAudio, SilenceThenAudio, FullSilence, ValidRing, NetGoesOn;
  }

  lemma LaterCallsKeep(cfg: Config, s: Sys, c: Call)
    requires ValidConfig(cfg) && Sound(cfg, s) && (c.Queue? || c.Finish? || c.Stop?)
    ensures Sound(cfg, NetStep(cfg, s, c))
  {
    hide AudioBytes, NoAudio, SilenceThenAudio, FullSilence, ValidRing, NetGoesOn;
  }

  lemma CallKeeps(cfg: Config, s: Sys, c: Call)
    requires ValidConfig(cfg) && Sound(cfg, s) && !c.GoOn?
    ensures Sound(cfg, NetStep(cfg, s, c))
  {
    hide *;
    match c
    case NewTurn => NewTurnKeeps(cfg, s);
    case StartPriming => StartCallsKeep(cfg, s, c);
    case StartPlayback => StartCallsKeep(cfg, s, c);
    case Queue(_) => LaterCallsKeep(cfg, s, c);
    case Finish => LaterCallsKeep(cfg, s, c);
    case Stop => LaterCallsKeep(cfg, s, c);
  }

  lemma AppendLast(a: seq<Byte>, b: seq<Byte>, c: seq<Byte>, d: seq<Byte>)
    ensures a + (b + (c + d)) == a + (b + c) + d
  {
  }

  lemma QueueingKeeps(cfg: Config, s: Sys, late: bool)
    requires ValidConfig(cfg) && Sound(cfg, s) && s.net.Queueing?
    ensures Sound(cfg, NetGoesOn(cfg, s, late))
  {
    AppendLast(AudioBytes(s.sink), InFlight(s.worker), s.ring.content, s.net.bytes);
    hide AudioBytes, NoAudio, SilenceThenAudio, FullSilence, InFlight;
  }

  lemma StartStepsKeep(cfg: Config, s: Sys, late: bool)
    requires ValidConfig(cfg) && Sound(cfg, s)
    requires s.net.Enabling? || s.net.PrimeEnabled? || s.net.Announcing? || s.net.Overflowing? || s.net.Queued?
          || s.net.CheckingStart? || s.net.CheckingDepth? || s.net.StartingAudio?
    ensures Sound(cfg, NetGoesOn(cfg, s, late))
  {
    hide AudioBytes, NoAudio, SilenceThenAudio, FullSilence, ValidRing;
  }

  lemma FinishStepsKeep(cfg: Config, s: Sys, late: bool)
    requires ValidConfig(cfg) && Sound(cfg, s)
    requires s.net.Finishing? || s.net.AwaitingWorker? || s.net.CheckingOutcome?
    ensures Sound(cfg, NetGoesOn(cfg, s, late))
  {
    hide AudioBytes, NoAudio, SilenceThenAudio, FullSilence, ValidRing;
  }

  lemma StopStepsKeep(cfg: Config, s: Sys, late: bool)
    requires ValidConfig(cfg) && Sound(cfg, s) && Stopping(s.net)
    ensures Sound(cfg, NetGoesOn(cfg, s, late))
  {
    hide AudioBytes, NoAudio, SilenceThenAudio, FullSilence;
  }

  lemma NetGoesOnKeeps(cfg: Config, s: Sys, late: bool)
    requires ValidConfig(cfg) && Sound(cfg, s)
    ensures Sound(cfg, NetGoesOn(cfg, s, late))
  {
    if s.net.Queueing? {
      QueueingKeeps(cfg, s, late);
    } else if Stopping(s.net) {
      StopStepsKeep(cfg, s, late);
    } else if s.net.Finishing? || s.net.AwaitingWorker? || s.net.CheckingOutcome? {
      FinishStepsKeep(cfg, s, late);
    } else if s.net.Enabling? || s.net.PrimeEnabled? || s.net.Announcing? || s.net.Overflowing? || s.net.Queued?
           || s.net.CheckingStart? || s.net.CheckingDepth? || s.net.StartingAudio? {
      StartStepsKeep(cfg, s, late);
    } else {
      hide Sound, ValidConfig;
    }
  }

  lemma WorkerKeeps(cfg: Config, s: Sys, written: nat)
    requires ValidConfig(cfg) && Sound(cfg, s)
    ensures Sound(cfg, WorkerStep(cfg, s, written))
  {
    hide *;
    match s.worker
    case Idle => WaitsKeep(cfg, s, written);
    case PrimeWait => WaitsKeep(cfg, s, written);
    case RebufferWait => WaitsKeep(cfg, s, written);
    case WritingSilence => SilenceKeeps(cfg, s, written);
    case Receiving => ReceivingKeeps(cfg, s, written);
    case Writing(_) => WritingKeeps(cfg, s, written);
  }

  /** Every step of the worker or the network task keeps the invariant. */
  lemma DoKeeps(cfg: Config, s: Sys, a: Action)
    requires ValidConfig(cfg) && Sound(cfg, s)
    ensures Sound(cfg, Do(cfg, s, a))
  {
    hide Sound, ValidConfig, WorkerStep, NetGoesOn;
    match a
    case StepWorker(written) => WorkerKeeps(cfg, s, written);
    case StepNet(c) =>
      if c.GoOn? {
        NetGoesOnKeeps(cfg, s, c.late);
      } else {
        CallKeeps(cfg, s, c);
      }
  }
}
