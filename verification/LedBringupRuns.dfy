/** What holds of every run of the LED bring-up protocol, and that delivery does enable the outputs. */
module LedBringupRuns {
  import opened Common
  import opened LedBringupModel

  lemma {:induction false} RunIsSound(cfg: Config, actions: seq<Action>)
    ensures Sound(Run(cfg, actions))
  {
    if actions == [] {
    } else {
      RunIsSound(cfg, actions[..|actions| - 1]);
      DoKeeps(cfg, Run(cfg, actions[..|actions| - 1]), actions[|actions| - 1]);
    }
  }

  // ------------------------------------------------------------ main results

  /** Whatever the network does, an enabled gate means that both GPUs have begun and the master has heard from both. */
  lemma EnabledOnlyWhenAllReady(cfg: Config, actions: seq<Action>)
    ensures var s := Run(cfg, actions);
      s.gpu0.gateEnabled || s.gpu1.gateEnabled ==> s.gpu0.begun && s.gpu1.begun && AllReady(s.master)
  {
    RunIsSound(cfg, actions);
    var s := Run(cfg, actions);
    assert SoundGpu(GpuAt(s, true), NodeOf(true), s) && SoundGpu(GpuAt(s, false), NodeOf(false), s);
    assert Gpu0 in REQUIRED && Gpu1 in REQUIRED;
  }

  /**
   Normal operation is allowed exactly when the enable and the boot animation were
   published and, modulo 2^32 ms, the animation's lifetime has passed.
   */
  lemma NormalOperationExactly(cfg: Config, actions: seq<Action>)
    ensures var s := Run(cfg, actions);
      BootAnimationFinished(cfg, s.master, Clock(s.time))
      <==> s.master.enablePublished && s.master.probePublished
           && (cfg.probeEnabled ==> (s.time - s.probeTime) % WORD_32 >= cfg.lifetimeMs)
  {
    RunIsSound(cfg, actions);
    hide Run, SoundGpu, Sub32, Clock;
    var s := Run(cfg, actions);
    if s.master.probePublished {
      ElapsedModulo(s.time, s.probeTime);
    }
  }

  /** So it is never allowed before that lifetime has really passed. */
  lemma NormalOperationWaits(cfg: Config, actions: seq<Action>)
    ensures var s := Run(cfg, actions);
      BootAnimationFinished(cfg, s.master, Clock(s.time)) && cfg.probeEnabled ==> s.time - s.probeTime >= cfg.lifetimeMs
  {
    RunIsSound(cfg, actions);
    NormalOperationExactly(cfg, actions);
    hide Run, SoundGpu, Sub32, Clock;
  }

  /** But it is withdrawn again when the clock has gone round since the animation was published. */
  lemma NormalOperationLapses(cfg: Config, b: Bringup, t: nat)
    requires cfg.probeEnabled && cfg.lifetimeMs > 0 && b.probePublished && b.probePublishedMs == Clock(t)
    ensures BootAnimationFinished(cfg, b, Clock(t + cfg.lifetimeMs))
    ensures !BootAnimationFinished(cfg, b, Clock(t + WORD_32))
  {
  }

  // ------------------------------------------------- what the master publishes

  function Rank(p: Publication): nat {
    match p
    case EnableOutputs => 0
    case BootAnimation => 1
    case WheelIndicator => 2
  }

  /** The rank of what the master publishes next. */
  function Stage(b: Bringup): nat {
    if !b.enablePublished then 0 else if !b.probePublished then 1 else if !b.indicatorPublished then 2 else 3
  }

  ghost predicate InTurn(tried: seq<Attempt>, i: nat, j: nat)
    requires i < j < |tried|
  {
    Rank(tried[i].what) < Rank(tried[j].what)
    || (tried[i].what == tried[j].what && tried[i].outcome != Published)
  }

  /** Enable, boot animation and wheel indicator in that order, each again only while it has not succeeded. */
  ghost predicate InOrder(tried: seq<Attempt>) {
    forall i, j :: 0 <= i < j < |tried| ==> InTurn(tried, i, j)
  }

  /** Nothing beyond `stage` was tried, and nothing at it has succeeded. */
  ghost predicate UpTo(tried: seq<Attempt>, stage: nat) {
    forall a :: a in tried ==> Rank(a.what) < stage || (Rank(a.what) == stage && a.outcome != Published)
  }

  lemma AttemptKeepsOrder(tried: seq<Attempt>, a: Attempt)
    requires InOrder(tried) && UpTo(tried, Rank(a.what))
    ensures InOrder(tried + [a])
    ensures UpTo(tried + [a], if a.outcome == Published then Rank(a.what) + 1 else Rank(a.what))
  {
    var longer := tried + [a];
    forall i, j | 0 <= i < j < |longer| ensures InTurn(longer, i, j) {
      if j < |tried| {
        assert InTurn(tried, i, j);
      } else {
        assert tried[i] in tried;
        SameRankSame(tried[i].what, a.what);
      }
    }
  }

  lemma SameRankSame(p: Publication, q: Publication)
    requires Rank(p) == Rank(q) || Rank(p) < Rank(q)
    ensures Rank(p) == Rank(q) ==> p == q
  {
  }

  /** The history is in order, and the master's flags say what in it has succeeded. */
  ghost predicate SoundHistory(cfg: Config, b: Bringup, tried: seq<Attempt>) {
    && InOrder(tried) && UpTo(tried, Stage(b))
    && (b.probePublished ==> b.enablePublished) && (b.indicatorPublished ==> b.probePublished)
    && (b.enablePublished ==> Attempt(EnableOutputs, Published) in tried)
    && (b.probePublished && cfg.probeEnabled ==> Attempt(BootAnimation, Published) in tried)
    && (b.indicatorPublished ==> Attempt(WheelIndicator, Published) in tried)
  }

  lemma UpToGrows(tried: seq<Attempt>, stage: nat)
    requires UpTo(tried, stage)
    ensures UpTo(tried, stage + 1)
  {
  }

  /** A pass that tries what comes next, and goes on to the next stage if that succeeds. */
  predicate TriesNext(b: Bringup, pass: Pass) {
    && |pass.tried| == 1 && Rank(pass.tried[0].what) == Stage(b)
    && (if pass.tried[0].outcome == Published then Stage(pass.left) == Stage(b) + 1 else pass.left == b)
  }

  lemma TryKeepsHistory(cfg: Config, b: Bringup, tried: seq<Attempt>, pass: Pass)
    requires SoundHistory(cfg, b, tried) && TriesNext(b, pass)
    requires (pass.left.probePublished ==> pass.left.enablePublished)
             && (pass.left.indicatorPublished ==> pass.left.probePublished)
    ensures SoundHistory(cfg, pass.left, tried + pass.tried)
  {
    var a := pass.tried[0];
    assert pass.tried == [a];
    AttemptKeepsOrder(tried, a);
    hide InOrder, UpTo;
    assert forall x :: x in tried + [a] <==> x in tried || x == a;
  }

  lemma EnableKeepsHistory(cfg: Config, b: Bringup, tried: seq<Attempt>, enable: Outcome)
    requires SoundHistory(cfg, b, tried)
    ensures SoundHistory(cfg, EnablePass(b, enable).left, tried + EnablePass(b, enable).tried)
  {
    hide InOrder, UpTo, AllReady;
    var pass := EnablePass(b, enable);
    if pass.tried == [] {
      assert tried + pass.tried == tried;
    } else {
      TryKeepsHistory(cfg, b, tried, pass);
    }
  }

  lemma ProbeKeepsHistory(cfg: Config, b: Bringup, tried: seq<Attempt>, nowMs: Word32, probe: Outcome)
    requires SoundHistory(cfg, b, tried)
    ensures SoundHistory(cfg, ProbePass(cfg, b, nowMs, probe).left, tried + ProbePass(cfg, b, nowMs, probe).tried)
  {
    var pass := ProbePass(cfg, b, nowMs, probe);
    UpToGrows(tried, Stage(b));
    hide InOrder, UpTo;
    if pass.tried == [] {
      assert tried + pass.tried == tried;
    } else {
      TryKeepsHistory(cfg, b, tried, pass);
    }
  }

  lemma IndicatorKeepsHistory(cfg: Config, b: Bringup, tried: seq<Attempt>, nowMs: Word32, indicator: Outcome)
    requires SoundHistory(cfg, b, tried)
    ensures SoundHistory(cfg, IndicatorPass(cfg, b, nowMs, indicator).left,
                         tried + IndicatorPass(cfg, b, nowMs, indicator).tried)
  {
    hide InOrder, UpTo, Sub32, ToWord32;
    var pass := IndicatorPass(cfg, b, nowMs, indicator);
    if pass.tried == [] {
      assert tried + pass.tried == tried;
    } else {
      TryKeepsHistory(cfg, b, tried, pass);
    }
  }

  lemma WorkKeepsHistory(cfg: Config, b: Bringup, tried: seq<Attempt>, nowMs: Word32, enable: Outcome, probe: Outcome,
                         indicator: Outcome)
    requires SoundHistory(cfg, b, tried)
    ensures var pass := MasterWork(cfg, b, nowMs, enable, probe, indicator);
      SoundHistory(cfg, pass.left, tried + pass.tried)
  {
    hide SoundHistory, EnablePass, ProbePass, IndicatorPass;
    var first := EnablePass(b, enable);
    EnableKeepsHistory(cfg, b, tried, enable);
    if first.ok {
      var second := ProbePass(cfg, first.left, nowMs, probe);
      ProbeKeepsHistory(cfg, first.left, tried + first.tried, nowMs, probe);
      assert tried + first.tried + second.tried == tried + (first.tried + second.tried);
      if second.ok {
        var third := IndicatorPass(cfg, second.left, nowMs, indicator);
        IndicatorKeepsHistory(cfg, second.left, tried + (first.tried + second.tried), nowMs, indicator);
        assert tried + (first.tried + second.tried) + third.tried == tried + (first.tried + second.tried + third.tried);
      }
    }
  }

  lemma DoKeepsHistory(cfg: Config, s: Sys, a: Action)
    requires SoundHistory(cfg, s.master, s.tried)
    ensures SoundHistory(cfg, Do(cfg, s, a).master, Do(cfg, s, a).tried)
  {
    if a.DoMasterWork? {
      WorkKeepsHistory(cfg, s.master, s.tried, Clock(s.time), a.enable, a.probe, a.indicator);
      hide SoundHistory, MasterWork;
    } else {
      hide InOrder, UpTo;
    }
  }

  lemma {:induction false} HistoryIsSound(cfg: Config, actions: seq<Action>)
    ensures SoundHistory(cfg, Run(cfg, actions).master, Run(cfg, actions).tried)
  {
    hide Do;
    if actions == [] {
    } else {
      HistoryIsSound(cfg, actions[..|actions| - 1]);
      DoKeepsHistory(cfg, Run(cfg, actions[..|actions| - 1]), actions[|actions| - 1]);
    }
  }

  /** What has succeeded was tried before anything that comes after it. */
  lemma SucceededBefore(tried: seq<Attempt>, p: Publication, j: nat)
    requires InOrder(tried) && j < |tried| && Attempt(p, Published) in tried && Rank(p) < Rank(tried[j].what)
    ensures Attempt(p, Published) in tried[..j]
  {
    var i :| 0 <= i < |tried| && tried[i] == Attempt(p, Published);
    assert i > j ==> InTurn(tried, j, i);
    assert tried[..j][i] == tried[i];
  }

  /**
   Over any run the master tries to enable the outputs, then to start the boot
   animation, then to show the wheel indicator, each again only until it succeeds,
   and nothing before what has to come first has succeeded.
   */
  lemma PublishedInOrder(cfg: Config, actions: seq<Action>, i: nat, j: nat)
    requires i < j < |Run(cfg, actions).tried|
    ensures var tried := Run(cfg, actions).tried;
      && Rank(tried[i].what) <= Rank(tried[j].what)
      && (tried[i].outcome == Published ==> tried[i].what != tried[j].what)
      && (tried[j].what != EnableOutputs ==> Attempt(EnableOutputs, Published) in tried[..j])
      && (tried[j].what == WheelIndicator && cfg.probeEnabled ==> Attempt(BootAnimation, Published) in tried[..j])
  {
    HistoryIsSound(cfg, actions);
    var s := Run(cfg, actions);
    hide Run;
    assert InTurn(s.tried, i, j);
    assert s.tried[j] in s.tried;
    if Rank(s.tried[j].what) > 0 {
      SucceededBefore(s.tried, EnableOutputs, j);
    }
    if Rank(s.tried[j].what) > 1 && cfg.probeEnabled {
      SucceededBefore(s.tried, BootAnimation, j);
    }
  }

  lemma RunOneMore(cfg: Config, actions: seq<Action>, a: Action)
    ensures Run(cfg, actions + [a]) == Do(cfg, Run(cfg, actions), a)
  {
    assert (actions + [a])[..|actions|] == actions;
  }

  /** Both GPUs have announced themselves, and nothing has enabled this owner's gate yet. */
  predicate BothAnnounced(s: Sys, first: bool) {
    && GpuAt(s, first).begun && GpuAt(s, first).ownsGate && !s.master.enablePublished
    && Ready(Gpu0) in s.air && Ready(Gpu1) in s.air
  }

  /** Once both GPUs have begun, one delivery of each message enables an owner's gate. */
  lemma DeliveryEnables(cfg: Config, actions: seq<Action>, first: bool)
    requires BothAnnounced(Run(cfg, actions), first)
    ensures var more := [DeliverReady(Ready(Gpu0)), DeliverReady(Ready(Gpu1)), DoMasterWork(Published, Lost, Lost),
                         DeliverEnable(first, Enable(Master, true), true)];
      GpuAt(Run(cfg, actions + more), first).gateEnabled
  {
    var a := actions + [DeliverReady(Ready(Gpu0))];
    var b := a + [DeliverReady(Ready(Gpu1))];
    var c := b + [DoMasterWork(Published, Lost, Lost)];
    var d := c + [DeliverEnable(first, Enable(Master, true), true)];
    RunOneMore(cfg, actions, DeliverReady(Ready(Gpu0)));
    RunOneMore(cfg, a, DeliverReady(Ready(Gpu1)));
    RunOneMore(cfg, b, DoMasterWork(Published, Lost, Lost));
    RunOneMore(cfg, c, DeliverEnable(first, Enable(Master, true), true));
    assert d == actions + [DeliverReady(Ready(Gpu0)), DeliverReady(Ready(Gpu1)), DoMasterWork(Published, Lost, Lost),
                           DeliverEnable(first, Enable(Master, true), true)];
    hide Run;
  }
}
