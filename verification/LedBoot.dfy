/**
 The LED bring-up step by step: what each step reports and sends, when the repeated
 and delayed publishes are due, and that a boot without failures runs through.
 */
module LedBoot {
  import opened Common
  import opened LedBringupModel
  import opened LedBringupRuns

  // ------------------------------------------------------------------ a GPU

  /** Holding the gate is for once, and needs the pin; taking up work needs that, the service and a subscription. */
  lemma HoldAndBeginExactly(g: Gpu, gateSet: bool, owns: bool, service: bool, subscribed: bool)
    ensures var held := HoldGateDisabled(g, gateSet);
      && (held.gateConfigured <==> g.gateConfigured || gateSet)
      && (!g.gateConfigured && gateSet ==> !held.gateEnabled)
      && held.(gateConfigured := g.gateConfigured, gateEnabled := g.gateEnabled) == g
      && (g.gateConfigured ==> held == g)
    ensures var begun := Begin(g, owns, service, subscribed);
      var may := !g.begun && service && (owns ==> g.gateConfigured);
      && (begun.begun <==> g.begun || (may && (owns ==> subscribed)))
      && begun.ownsGate == (if may then owns else g.ownsGate)
      && begun.(begun := g.begun, ownsGate := g.ownsGate) == g
  {
  }

  /**
   A GPU that has begun announces itself at once and then, when it gets to work, again
   once a second has passed, modulo 2^32 ms; the announcement is sent unless it is lost.
   */
  lemma AnnouncesExactly(cfg: Config, s: Sys, first: bool, outcome: Outcome, last: nat)
    requires var g := GpuAt(s, first); g.hasPublishedReady ==> last <= s.time && g.lastReadyMs == Clock(last)
    ensures var g, t := GpuAt(s, first), Do(cfg, s, DoGpuWork(first, outcome));
      var due := g.begun && (g.hasPublishedReady ==> (s.time - last) % WORD_32 >= 1000);
      && GpuAt(t, first) == (if due then g.(hasPublishedReady := true, lastReadyMs := Clock(s.time)) else g)
      && t.air == s.air + (if due && outcome != Lost then {Ready(NodeOf(first))} else {})
      && GpuAt(t, !first) == GpuAt(s, !first) && t.master == s.master
  {
    var g := GpuAt(s, first);
    if g.hasPublishedReady {
      ElapsedModulo(s.time, last);
    }
    hide Sub32, Clock;
  }

  /** Over every run the gate stands as the commands received say. */
  lemma {:induction false} GateStandsAsCommanded(cfg: Config, actions: seq<Action>)
    ensures var s := Run(cfg, actions);
      s.gpu0.gateEnabled == s.gpu0.enableReceived && s.gpu1.gateEnabled == s.gpu1.enableReceived
  {
    if actions != [] {
      var before, a := actions[..|actions| - 1], actions[|actions| - 1];
      GateStandsAsCommanded(cfg, before);
      RunIsSound(cfg, before);
      var s := Run(cfg, before);
      assert SoundGpu(GpuAt(s, true), NodeOf(true), s) && SoundGpu(GpuAt(s, false), NodeOf(false), s);
      hide Run, Sound, MasterWork, ReadyDue;
    }
  }

  // -------------------------------------------------------------- the master

  /** A pass reports success exactly if every publish it tried was reported so, and stops at the first failure. */
  lemma PassReportsExactly(cfg: Config, b: Bringup, nowMs: Word32, enable: Outcome, probe: Outcome, indicator: Outcome)
    ensures var pass := MasterWork(cfg, b, nowMs, enable, probe, indicator);
      && (pass.ok <==> forall a :: a in pass.tried ==> a.outcome == Published)
      && forall i :: 0 <= i < |pass.tried| - 1 ==> pass.tried[i].outcome == Published
  {
    hide IndicatorDue, BootAnimationFinished, AllReady;
  }

  /** Each publish comes with its own outcome. */
  lemma AttemptsAreAnswered(cfg: Config, b: Bringup, nowMs: Word32, enable: Outcome, probe: Outcome, indicator: Outcome)
    ensures forall a :: a in MasterWork(cfg, b, nowMs, enable, probe, indicator).tried ==>
      a.outcome == match a.what
                   case EnableOutputs => enable
                   case BootAnimation => probe
                   case WheelIndicator => indicator
  {
    hide IndicatorDue, BootAnimationFinished, AllReady;
  }

  /** The outputs are enabled on the air exactly if the pass tried to, and that was not lost. */
  lemma EnableIsSentExactly(cfg: Config, s: Sys, enable: Outcome, probe: Outcome, indicator: Outcome)
    ensures var t := Do(cfg, s, DoMasterWork(enable, probe, indicator));
      var tried := Attempt(EnableOutputs, enable) in t.tried[|s.tried|..];
      && |s.tried| <= |t.tried| && t.tried[..|s.tried|] == s.tried
      && (tried <==> !s.master.enablePublished && Gpu0 in s.master.ready && Gpu1 in s.master.ready)
      && t.air == s.air + (if tried && enable != Lost then {Enable(Master, true)} else {})
  {
    var pass := MasterWork(cfg, s.master, Clock(s.time), enable, probe, indicator);
    assert (s.tried + pass.tried)[|s.tried|..] == pass.tried;
    AllReadyExactly(s.master);
    hide IndicatorDue, BootAnimationFinished, AllReady, Clock;
  }

  lemma AllReadyExactly(b: Bringup)
    ensures AllReady(b) <==> Gpu0 in b.ready && Gpu1 in b.ready
  {
  }

  /** When the wheel indicator is tried, in terms of real time since the boot animation. */
  lemma IndicatorExactly(cfg: Config, b: Bringup, time: nat, probeTime: nat, indicator: Outcome)
    requires b.probePublished ==> probeTime <= time && b.probePublishedMs == Clock(probeTime)
    ensures var elapsed := (time - probeTime) % WORD_32;
      var due := && cfg.indicatorEnabled && !b.indicatorPublished && b.probePublished
                 && (if cfg.probeEnabled
                     then elapsed >= cfg.lifetimeMs && elapsed >= (cfg.lifetimeMs + cfg.indicatorDelayMs) % WORD_32
                     else elapsed >= cfg.indicatorDelayMs);
      IndicatorPass(cfg, b, Clock(time), indicator)
      == if due then Pass(indicator == Published, [Attempt(WheelIndicator, indicator)],
                          b.(indicatorPublished := indicator == Published))
         else Pass(true, [], b)
  {
    if b.probePublished {
      ElapsedModulo(time, probeTime);
    }
    hide Sub32, Clock;
  }

  // ------------------------------------------------------------ the network

  /** Any other node may send anything at any time, and time passes as it likes. */
  lemma ElsewhereIsFree(cfg: Config, s: Sys, m: Message, ms: nat)
    requires m.source == Elsewhere
    ensures Do(cfg, s, SendElsewhere(m)) == s.(air := s.air + {m}) && Do(cfg, s, Tick(ms)).time == s.time + ms
  {
  }

  // ------------------------------------------------------------- a whole boot

  /** Takes one more step of a run. */
  lemma Then(cfg: Config, actions: seq<Action>, a: Action) returns (longer: seq<Action>)
    ensures Run(cfg, longer) == Do(cfg, Run(cfg, actions), a)
  {
    longer := actions + [a];
    RunOneMore(cfg, actions, a);
  }

  /** GPU 0 owns the gate; GPU 1 owns none and needs no subscription. Both announce themselves, and are heard. */
  lemma GpusAnnounce(cfg: Config) returns (actions: seq<Action>)
    ensures Run(cfg, actions)
         == Sys(Gpu(true, false, true, true, true, 0, false), Gpu(false, false, false, true, true, 0, false),
                WAITING.(ready := {Gpu0, Gpu1}), {Ready(Gpu0), Ready(Gpu1)}, 0, 0, [])
  {
    actions := [];
    assert Run(cfg, actions) == Start();
    hide Run, Sub32;
    actions := Then(cfg, actions, DoHold(true, true));
    actions := Then(cfg, actions, DoBegin(true, true, true, true));
    actions := Then(cfg, actions, DoBegin(false, false, true, false));
    actions := Then(cfg, actions, DoGpuWork(true, Published));
    actions := Then(cfg, actions, DoGpuWork(false, FailedButDelivered));
    var s := Run(cfg, actions);
    assert s.air == {Ready(Gpu0), Ready(Gpu1)};
    actions := Then(cfg, actions, DeliverReady(Ready(Gpu0)));
    actions := Then(cfg, actions, DeliverReady(Ready(Gpu1)));
    assert Run(cfg, actions).master.ready == {Gpu0, Gpu1};
  }

  /** What has been published once the boot is through. */
  function BootPublishes(cfg: Config): seq<Attempt> {
    [Attempt(EnableOutputs, Published)] + (if cfg.probeEnabled then [Attempt(BootAnimation, Published)] else [])
    + (if cfg.indicatorEnabled then [Attempt(WheelIndicator, Published)] else [])
  }

  /**
   A boot in which nothing fails runs through: the gate is enabled, each publish has
   been made once and in order, and after the animation and the delay of the indicator
   normal operation is allowed.
   */
  lemma BootRunsThrough(cfg: Config) returns (actions: seq<Action>)
    requires cfg.lifetimeMs + cfg.indicatorDelayMs < WORD_32
    ensures var s := Run(cfg, actions);
      && s.gpu0.gateEnabled && s.tried == BootPublishes(cfg)
      && s.master.enablePublished && s.master.probePublished && s.master.indicatorPublished == cfg.indicatorEnabled
      && BootAnimationFinished(cfg, s.master, Clock(s.time))
  {
    actions := GpusAnnounce(cfg);
    hide Run;
    actions := Then(cfg, actions, DoMasterWork(Published, Published, Published));
    actions := Then(cfg, actions, DeliverEnable(true, Enable(Master, true), true));
    actions := Then(cfg, actions, Tick(cfg.lifetimeMs + cfg.indicatorDelayMs));
    actions := Then(cfg, actions, DoMasterWork(Lost, Lost, Published));
  }
}
