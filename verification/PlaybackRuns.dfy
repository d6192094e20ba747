/** What holds of every run of the playback worker and the network task, and that responses do finish. */
module PlaybackRuns {
  import opened Common
  import opened ByteRing
  import opened AssistantPlayback

  lemma {:induction false} RunIsSound(cfg: Config, actions: seq<Action>)
    requires ValidConfig(cfg)
    ensures Sound(cfg, Run(cfg, actions))
  {
    if actions == [] {
      StartIsSound(cfg);
    } else {
      var before, last := actions[..|actions| - 1], actions[|actions| - 1];
      RunIsSound(cfg, before);
      DoKeeps(cfg, Run(cfg, before), last);
    }
  }

  // ------------------------------------------------------------ main results

  /** The writes of a turn fall into silence first and audio after. */
  lemma {:induction false} SilenceThenAudioSplits(sink: seq<Write>) returns (k: nat)
    requires SilenceThenAudio(sink)
    ensures k <= |sink| && NoAudio(sink[..k]) && forall i :: k <= i < |sink| ==> sink[i].audio
  {
    if sink == [] || !sink[|sink| - 1].audio {
      k := |sink|;
      assert forall i :: 0 <= i < |sink| && sink[i].audio ==> sink[|sink| - 1].audio;
    } else {
      k := SilenceThenAudioSplits(sink[..|sink| - 1]);
      assert sink[..|sink| - 1][..k] == sink[..k];
    }
  }

  /** Exactly the first `k` writes are silence, each a full block. */
  ghost predicate PrimedBy(cfg: Config, sink: seq<Write>, k: nat) {
    && k <= |sink|
    && (forall i :: 0 <= i < k ==> sink[i] == Write(false, Silence(cfg.prime)))
    && (forall i :: k <= i < |sink| ==> sink[i].audio)
  }

  lemma PrimedBySome(cfg: Config, sink: seq<Write>)
    requires SilenceThenAudio(sink) && FullSilence(cfg, sink)
    ensures exists k :: PrimedBy(cfg, sink, k)
  {
    var k := SilenceThenAudioSplits(sink);
    assert forall i :: 0 <= i < k ==> sink[..k][i] == sink[i];
    assert PrimedBy(cfg, sink, k);
  }

  /** The sink has received full blocks of silence, then exactly the bytes queued in this turn, and the ring is
      empty. */
  ghost predicate AllPlayed(cfg: Config, s: Sys) {
    && s.ring.content == [] && s.ring.held == 0
    && AudioBytes(s.sink) == s.queued
    && exists k :: PrimedBy(cfg, s.sink, k)
  }

  /**
   Whatever the interleaving, from the end of priming to the end of the turn: a
   worker that has completed without failing or being stopped has played all of
   it, whether or not anyone was still waiting for it.
   */
  lemma CompleteMeansAllPlayed(cfg: Config, actions: seq<Action>)
    requires ValidConfig(cfg)
    ensures var s := Run(cfg, actions);
      PastPriming(s.net) && s.flags.complete && !s.flags.failed && !s.flags.abort ==> AllPlayed(cfg, s)
  {
    RunIsSound(cfg, actions);
    var s := Run(cfg, actions);
    if !s.flags.failed {
      PrimedBySome(cfg, s.sink);
    }
    hide AudioBytes, PrimedBy, FullSilence, SilenceThenAudio, NoAudio;
    assert [] + s.ring.content == s.ring.content;
    assert AudioBytes(s.sink) + [] == AudioBytes(s.sink);
  }

  /** When finishing reports success, on any interleaving, all of the turn has been played. */
  lemma FinishedMeansAllPlayed(cfg: Config, actions: seq<Action>, late: bool)
    requires ValidConfig(cfg)
    requires Run(cfg, actions).net.CheckingOutcome? && NetGoesOn(cfg, Run(cfg, actions), late).net.Finished?
    ensures AllPlayed(cfg, NetGoesOn(cfg, Run(cfg, actions), late))
  {
    RunIsSound(cfg, actions);
    CompleteMeansAllPlayed(cfg, actions);
  }

  /** In every state of every run, no silence follows audio, and unless playback failed or was stopped
      nothing is lost: what was queued is what was played, then what is in flight, then what is in the ring. */
  lemma NothingLostWhilePlaying(cfg: Config, actions: seq<Action>)
    requires ValidConfig(cfg)
    ensures var s := Run(cfg, actions);
      && SilenceThenAudio(s.sink)
      && (!s.flags.failed && !s.flags.abort
          ==> AudioBytes(s.sink) + (InFlight(s.worker) + s.ring.content) == s.queued)
  {
    RunIsSound(cfg, actions);
  }

  /** The final discard never runs while the worker holds a piece of the ring. */
  lemma DiscardFindsNoPieceOut(cfg: Config, actions: seq<Action>)
    requires ValidConfig(cfg)
    ensures var s := Run(cfg, actions); s.net.Discarding? ==> s.ring.held == 0 && !s.worker.Writing?
  {
    RunIsSound(cfg, actions);
  }

  lemma RunOneMore(cfg: Config, actions: seq<Action>, a: Action)
    ensures Run(cfg, actions + [a]) == Do(cfg, Run(cfg, actions), a)
  {
    assert (actions + [a])[..|actions|] == actions;
  }

  /** Takes one more step of a run. */
  lemma Then(cfg: Config, actions: seq<Action>, a: Action) returns (longer: seq<Action>)
    ensures Run(cfg, longer) == Do(cfg, Run(cfg, actions), a)
  {
    longer := actions + [a];
    RunOneMore(cfg, actions, a);
  }

  lemma StartRun(cfg: Config) returns (actions: seq<Action>)
    ensures Run(cfg, actions) == Start(cfg)
  {
    actions := [];
  }

  const PRIMING := Flags(true, false, false, false, false, false)
  const ANNOUNCED := Flags(false, false, false, false, false, false)
  const AUDIBLE := Flags(false, true, false, false, false, false)
  const ENDED := Flags(false, true, true, false, false, false)

  /** A turn under way: its flags, its ring, where both sides stand, and what was queued and written. */
  function Playing(cfg: Config, f: Flags, head: nat, content: seq<Byte>, net: Net, worker: Worker, queued: seq<Byte>,
                   sink: seq<Write>): Sys {
    Sys(f, Ring(cfg.capacity, head, content, 0), net, worker, false, f.audioReady, queued, sink)
  }

  /** A turn starts priming, and the worker's first block of silence is under way. */
  lemma PrimingStarts(cfg: Config) returns (actions: seq<Action>)
    ensures Run(cfg, actions) == Playing(cfg, PRIMING, 0, [], Primed, WritingSilence, [], [])
  {
    hide Run;
    actions := StartRun(cfg);
    actions := Then(cfg, actions, StepNet(NewTurn));
    actions := Then(cfg, actions, StepNet(StartPriming));
    actions := Then(cfg, actions, StepNet(GoOn(false)));
    actions := Then(cfg, actions, StepNet(GoOn(false)));
    actions := Then(cfg, actions, StepWorker(0));
  }

  /** Any number of blocks of silence. */
  function Silences(cfg: Config, n: nat): seq<Write> {
    seq(n, _ => Write(false, Silence(cfg.prime)))
  }

  lemma {:induction false} SilencesArePlayed(cfg: Config, n: nat) returns (actions: seq<Action>)
    ensures Run(cfg, actions) == Playing(cfg, PRIMING, 0, [], Primed, WritingSilence, [], Silences(cfg, n))
  {
    hide Run;
    if n == 0 {
      actions := PrimingStarts(cfg);
    } else {
      actions := SilencesArePlayed(cfg, n - 1);
      assert Silences(cfg, n) == Silences(cfg, n - 1) + [Write(false, Silence(cfg.prime))];
      actions := Then(cfg, actions, StepWorker(cfg.prime));
    }
  }

  /** The response is announced during one of them, after which the worker waits for audio. */
  lemma ResponseIsAnnounced(cfg: Config, n: nat) returns (actions: seq<Action>)
    requires n > 0
    ensures Run(cfg, actions) == Playing(cfg, ANNOUNCED, 0, [], Streaming, PrimeWait, [], Silences(cfg, n))
  {
    hide Run;
    actions := SilencesArePlayed(cfg, n - 1);
    actions := Then(cfg, actions, StepNet(StartPlayback));
    actions := Then(cfg, actions, StepNet(GoOn(false)));
    assert Silences(cfg, n) == Silences(cfg, n - 1) + [Write(false, Silence(cfg.prime))];
    actions := Then(cfg, actions, StepWorker(cfg.prime));
  }

  /** The prebuffer fills at once, so the audio starts. */
  lemma AudioStarts(cfg: Config, before: seq<Action>, bytes: Pcm, sink: seq<Write>) returns (actions: seq<Action>)
    requires 0 < |bytes| <= cfg.capacity && cfg.prebuffer <= |bytes|
    requires Run(cfg, before) == Playing(cfg, ANNOUNCED, 0, [], Streaming, PrimeWait, [], sink)
    ensures Run(cfg, actions) == Playing(cfg, AUDIBLE, 0, bytes, Streaming, Receiving, bytes, sink)
  {
    hide Run;
    assert [] + bytes == bytes;
    actions := Then(cfg, before, StepNet(Queue(bytes)));
    actions := Then(cfg, actions, StepNet(GoOn(false)));
    actions := Then(cfg, actions, StepNet(GoOn(false)));
    assert Run(cfg, actions) == Playing(cfg, ANNOUNCED, 0, bytes, CheckingStart(false), PrimeWait, bytes, sink);
    actions := AudioIsReady(cfg, actions, bytes, sink);
  }

  lemma AudioIsReady(cfg: Config, before: seq<Action>, bytes: Pcm, sink: seq<Write>) returns (actions: seq<Action>)
    requires bytes != []
    requires Run(cfg, before) == Playing(cfg, ANNOUNCED, 0, bytes, CheckingStart(false), PrimeWait, bytes, sink)
    ensures Run(cfg, actions) == Playing(cfg, AUDIBLE, 0, bytes, Streaming, Receiving, bytes, sink)
  {
    hide Run;
    actions := Then(cfg, before, StepNet(GoOn(false)));
    actions := Then(cfg, actions, StepNet(GoOn(false)));
    actions := Then(cfg, actions, StepNet(GoOn(false)));
    actions := Then(cfg, actions, StepWorker(0));
  }

  /** The worker plays one piece. */
  lemma PieceIsPlayed(cfg: Config, before: seq<Action>, head: nat, content: seq<Byte>, queued: seq<Byte>,
                      sink: seq<Write>)
    returns (actions: seq<Action>, next: nat, n: nat)
    requires cfg.write > 0 && head < cfg.capacity && content != []
    requires Run(cfg, before) == Playing(cfg, AUDIBLE, head, content, Streaming, Receiving, queued, sink)
    ensures 0 < n <= |content| && next < cfg.capacity
    ensures Run(cfg, actions)
         == Playing(cfg, AUDIBLE, next, content[n..], Streaming, Receiving, queued, sink + [Write(true, content[..n])])
  {
    hide Run;
    n := Piece(Ring(cfg.capacity, head, content, 0), cfg.write);
    next := if head + n == cfg.capacity then 0 else head + n;
    actions := Then(cfg, before, StepWorker(0));
    assert Run(cfg, actions).worker == Writing(content[..n]);
    assert content[..n][..n] == content[..n];
    actions := Then(cfg, actions, StepWorker(n));
  }

  /** And so on, until the ring is empty and it waits for more. */
  lemma {:induction false} AllIsPlayed(cfg: Config, before: seq<Action>, head: nat, content: seq<Byte>,
                                       queued: seq<Byte>, sink: seq<Write>, k: nat)
    returns (actions: seq<Action>, next: nat, written: seq<Write>)
    requires cfg.write > 0 && head < cfg.capacity && PrimedBy(cfg, sink, k)
    requires Run(cfg, before) == Playing(cfg, AUDIBLE, head, content, Streaming, Receiving, queued, sink)
    ensures next < cfg.capacity && PrimedBy(cfg, written, k)
    ensures Run(cfg, actions) == Playing(cfg, AUDIBLE, next, [], Streaming, Receiving, queued, written)
    decreases |content|
  {
    hide Run, Playing, Silence;
    if content == [] {
      actions, next, written := before, head, sink;
    } else {
      var n: nat;
      actions, next, n := PieceIsPlayed(cfg, before, head, content, queued, sink);
      actions, next, written :=
        AllIsPlayed(cfg, actions, next, content[n..], queued, sink + [Write(true, content[..n])], k);
    }
  }

  /** More audio is queued while the worker waits for it. */
  lemma MoreIsQueued(cfg: Config, before: seq<Action>, head: nat, bytes: Pcm, queued: seq<Byte>, sink: seq<Write>)
    returns (actions: seq<Action>)
    requires 0 < |bytes| <= cfg.capacity
    requires Run(cfg, before) == Playing(cfg, AUDIBLE, head, [], Streaming, Receiving, queued, sink)
    ensures Run(cfg, actions) == Playing(cfg, AUDIBLE, head, bytes, Streaming, Receiving, queued + bytes, sink)
  {
    hide Run;
    assert [] + bytes == bytes;
    actions := Then(cfg, before, StepNet(Queue(bytes)));
    actions := Then(cfg, actions, StepNet(GoOn(false)));
    actions := Then(cfg, actions, StepNet(GoOn(false)));
  }

  /** A response in any number of parts, the first of which fills the prebuffer. */
  lemma {:induction false} PartsArePlayed(cfg: Config, n: nat, parts: seq<Pcm>)
    returns (actions: seq<Action>, head: nat, sink: seq<Write>)
    requires ValidConfig(cfg) && n > 0 && parts != [] && cfg.prebuffer <= |parts[0]|
    requires forall p :: p in parts ==> 0 < |p| <= cfg.capacity
    ensures head < cfg.capacity && PrimedBy(cfg, sink, n)
    ensures Run(cfg, actions) == Playing(cfg, AUDIBLE, head, [], Streaming, Receiving, Concat(parts), sink)
  {
    hide Run, Playing, PrimedBy;
    var before, last := parts[..|parts| - 1], parts[|parts| - 1];
    var queued: seq<Byte>;
    if before == [] {
      actions := ResponseIsAnnounced(cfg, n);
      SilencesPrime(cfg, n);
      actions := AudioStarts(cfg, actions, last, Silences(cfg, n));
      head, sink, queued := 0, Silences(cfg, n), last;
      assert Concat(parts) == [] + last == last;
    } else {
      actions, head, sink := PartsArePlayed(cfg, n, before);
      actions := MoreIsQueued(cfg, actions, head, last, Concat(before), sink);
      queued := Concat(before) + last;
      assert parts == before + [last];
    }
    actions, head, sink := AllIsPlayed(cfg, actions, head, last, queued, sink, n);
  }

  lemma SilencesPrime(cfg: Config, n: nat)
    ensures PrimedBy(cfg, Silences(cfg, n), n)
  {
  }

  /**
   Finishing does succeed: after any number of blocks of silence, a response in any
   number of parts can be queued, played and finished.
   */
  lemma AnyResponseCanFinish(cfg: Config, n: nat, parts: seq<Pcm>) returns (actions: seq<Action>)
    requires ValidConfig(cfg) && n > 0 && parts != [] && cfg.prebuffer <= |parts[0]|
    requires forall p :: p in parts ==> 0 < |p| <= cfg.capacity
    ensures Run(cfg, actions).net.CheckingOutcome? && NetGoesOn(cfg, Run(cfg, actions), false).net.Finished?
    ensures Run(cfg, actions).queued == Concat(parts) && PrimedBy(cfg, Run(cfg, actions).sink, n)
  {
    hide Run, PrimedBy, Concat, ValidRing;
    var head: nat, sink: seq<Write>;
    actions, head, sink := PartsArePlayed(cfg, n, parts);
    actions := Then(cfg, actions, StepNet(Finish));
    actions := Then(cfg, actions, StepNet(GoOn(false)));
    assert Run(cfg, actions) == Playing(cfg, ENDED, head, [], AwaitingWorker, Receiving, Concat(parts), sink);
    actions := Then(cfg, actions, StepWorker(0));
    actions := Then(cfg, actions, StepNet(GoOn(false)));
  }

  /** A response that does not fill the prebuffer can finish as well: its end starts the audio. */
  lemma ShortResponseCanFinish(cfg: Config, bytes: Pcm) returns (actions: seq<Action>)
    requires ValidConfig(cfg) && 0 < |bytes| <= cfg.write && |bytes| < cfg.prebuffer && |bytes| <= cfg.capacity
    ensures Run(cfg, actions).net.CheckingOutcome? && NetGoesOn(cfg, Run(cfg, actions), false).net.Finished?
    ensures Run(cfg, actions).queued == bytes && PrimedBy(cfg, Run(cfg, actions).sink, 1)
  {
    hide Run, ValidRing, WorkerStep, PrimedBy;
    actions := ResponseIsAnnounced(cfg, 1);
    actions := ShortIsQueued(cfg, actions, bytes, Silences(cfg, 1));
    actions := ShortIsEnded(cfg, actions, bytes, Silences(cfg, 1));
    SilencesPrime(cfg, 1);
    actions := PlayOut(cfg, actions, bytes, Silences(cfg, 1));
    actions := Then(cfg, actions, StepNet(GoOn(false)));
  }

  lemma ShortIsQueued(cfg: Config, before: seq<Action>, bytes: Pcm, sink: seq<Write>) returns (actions: seq<Action>)
    requires 0 < |bytes| < cfg.prebuffer && |bytes| <= cfg.capacity
    requires Run(cfg, before) == Playing(cfg, ANNOUNCED, 0, [], Streaming, PrimeWait, [], sink)
    ensures Run(cfg, actions) == Playing(cfg, ANNOUNCED, 0, bytes, Streaming, PrimeWait, bytes, sink)
  {
    hide Run;
    actions := Then(cfg, before, StepNet(Queue(bytes)));
    actions := Then(cfg, actions, StepNet(GoOn(false)));
    actions := Then(cfg, actions, StepNet(GoOn(false)));
    assert [] + bytes == bytes;
  }

  lemma ShortIsEnded(cfg: Config, before: seq<Action>, bytes: Pcm, sink: seq<Write>) returns (actions: seq<Action>)
    requires bytes != [] && Run(cfg, before) == Playing(cfg, ANNOUNCED, 0, bytes, Streaming, PrimeWait, bytes, sink)
    ensures Run(cfg, actions) == Playing(cfg, ENDED, 0, bytes, AwaitingWorker, PrimeWait, bytes, sink)
  {
    hide Run;
    actions := Then(cfg, before, StepNet(Finish));
    actions := Then(cfg, actions, StepNet(GoOn(false)));
    actions := Then(cfg, actions, StepNet(GoOn(false)));
    actions := Then(cfg, actions, StepNet(GoOn(false)));
    actions := Then(cfg, actions, StepNet(GoOn(false)));
  }

  /** The worker plays what is queued and completes. */
  lemma PlayOut(cfg: Config, before: seq<Action>, bytes: Pcm, sink: seq<Write>) returns (actions: seq<Action>)
    requires 0 < |bytes| <= cfg.write && |bytes| <= cfg.capacity && PrimedBy(cfg, sink, |sink|)
    requires Run(cfg, before) == Playing(cfg, ENDED, 0, bytes, AwaitingWorker, PrimeWait, bytes, sink)
    ensures Run(cfg, actions).net.AwaitingWorker? && Run(cfg, actions).flags == ENDED.(complete := true)
    ensures Run(cfg, actions).queued == bytes && PrimedBy(cfg, Run(cfg, actions).sink, |sink|)
  {
    hide Run, Silence;
    actions := Then(cfg, before, StepWorker(0));
    actions := Then(cfg, actions, StepWorker(0));
    assert bytes[..|bytes|] == bytes && bytes[|bytes|..] == [];
    assert Run(cfg, actions).worker == Writing(bytes);
    actions := Then(cfg, actions, StepWorker(|bytes|));
    assert Run(cfg, actions).sink == sink + [Write(true, bytes)] && Run(cfg, actions).worker == Receiving;
    actions := Then(cfg, actions, StepWorker(0));
  }
}
