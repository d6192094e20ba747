/**
 How the LED outputs are brought up: each GPU announces that its output is ready,
 the master enables the outputs when both have, then plays a boot animation and
 only after it allows normal operation. Messages may be lost, delayed, repeated
 and reordered; a publish that fails may have been delivered.
 */
module LedBringupModel {
  import opened Common

  datatype Node = Gpu0 | Gpu1 | Master | Elsewhere

  const REQUIRED: set<Node> := {Gpu0, Gpu1}
  const READY_INTERVAL_MS: Word32 := 1000

  datatype Message = Ready(source: Node) | Enable(source: Node, enabled: bool)

  datatype Outcome = Published | FailedButDelivered | Lost

  // ----------------------------------------------------------------- a GPU

  datatype Gpu = Gpu(
    gateConfigured: bool,
    gateEnabled: bool,
    ownsGate: bool,
    begun: bool,
    hasPublishedReady: bool,
    lastReadyMs: Word32,
    enableReceived: bool)

  const OFF := Gpu(false, false, false, false, false, 0, false)

  /** `gateSet` tells whether the pin could be set. */
  function HoldGateDisabled(g: Gpu, gateSet: bool): Gpu {
    if g.gateConfigured || !gateSet then g else g.(gateConfigured := true, gateEnabled := false)
  }

  /** Taking up work is refused twice, to an owner whose gate is not held, and without a message service. */
  predicate MayBegin(g: Gpu, ownsGate: bool, service: bool) {
    !g.begun && (ownsGate ==> g.gateConfigured) && service
  }

  /** An owner has to subscribe as well; it counts as the owner even if that fails. */
  function Begin(g: Gpu, ownsGate: bool, service: bool, subscribed: bool): Gpu {
    if !MayBegin(g, ownsGate, service) then g
    else g.(ownsGate := ownsGate, begun := !ownsGate || subscribed)
  }

  predicate ReadyDue(g: Gpu, nowMs: Word32) {
    g.begun && (!g.hasPublishedReady || Sub32(nowMs, g.lastReadyMs) >= READY_INTERVAL_MS)
  }

  function GpuWork(g: Gpu, nowMs: Word32): Gpu {
    if ReadyDue(g, nowMs) then g.(hasPublishedReady := true, lastReadyMs := nowMs) else g
  }

  /** An enable command from the master sets the gate, if it can be set; only a gate owner is subscribed. */
  function OnEnable(g: Gpu, m: Message, gateSet: bool): Gpu {
    if !g.begun || !g.ownsGate || !m.Enable? || m.source != Master || !gateSet then g
    else g.(gateEnabled := m.enabled, enableReceived := m.enabled)
  }

  // ------------------------------------------------------------ the master

  datatype Config = Config(probeEnabled: bool, lifetimeMs: Word32, indicatorEnabled: bool, indicatorDelayMs: Word32)

  datatype Bringup = Bringup(
    ready: set<Node>,
    enablePublished: bool,
    probePublished: bool,
    probePublishedMs: Word32,
    indicatorPublished: bool)

  const WAITING := Bringup({}, false, false, 0, false)

  function OnReady(b: Bringup, m: Message): Bringup {
    if m.Ready? && m.source in REQUIRED then b.(ready := b.ready + {m.source}) else b
  }

  predicate AllReady(b: Bringup) {
    REQUIRED <= b.ready
  }

  predicate BootAnimationFinished(cfg: Config, b: Bringup, nowMs: Word32) {
    b.probePublished && (!cfg.probeEnabled || Sub32(nowMs, b.probePublishedMs) >= cfg.lifetimeMs)
  }

  function ToWord32(x: int): Word32 {
    x % WORD_32
  }

  datatype Publication = EnableOutputs | BootAnimation | WheelIndicator

  /** A publish that was tried, and what came of it. */
  datatype Attempt = Attempt(what: Publication, outcome: Outcome)

  /** What a pass reports, the publishes it tried, and what it leaves. */
  datatype Pass = Pass(ok: bool, tried: seq<Attempt>, left: Bringup)

  predicate IndicatorDue(cfg: Config, b: Bringup, nowMs: Word32) {
    && cfg.indicatorEnabled && !b.indicatorPublished && BootAnimationFinished(cfg, b, nowMs)
    && Sub32(nowMs, b.probePublishedMs)
       >= ToWord32((if cfg.probeEnabled then cfg.lifetimeMs else 0) + cfg.indicatorDelayMs)
  }

  function EnablePass(b: Bringup, enable: Outcome): Pass {
    if b.enablePublished || !AllReady(b) then Pass(true, [], b)
    else Pass(enable == Published, [Attempt(EnableOutputs, enable)], b.(enablePublished := enable == Published))
  }

  function ProbePass(cfg: Config, b: Bringup, nowMs: Word32, probe: Outcome): Pass {
    if !b.enablePublished || b.probePublished then Pass(true, [], b)
    else if !cfg.probeEnabled then Pass(true, [], b.(probePublished := true, probePublishedMs := nowMs))
    else if probe != Published then Pass(false, [Attempt(BootAnimation, probe)], b)
    else Pass(true, [Attempt(BootAnimation, probe)], b.(probePublished := true, probePublishedMs := nowMs))
  }

  function IndicatorPass(cfg: Config, b: Bringup, nowMs: Word32, indicator: Outcome): Pass {
    if !IndicatorDue(cfg, b, nowMs) then Pass(true, [], b)
    else Pass(indicator == Published, [Attempt(WheelIndicator, indicator)],
              b.(indicatorPublished := indicator == Published))
  }

  /** The pass goes on after `first` as `second`, unless that failed. */
  function Chain(first: Pass, second: Pass): Pass {
    if first.ok then Pass(second.ok, first.tried + second.tried, second.left) else first
  }

  /** One pass of the master: the outcomes are those of the publishes it comes to. */
  function MasterWork(cfg: Config, b: Bringup, nowMs: Word32, enable: Outcome, probe: Outcome,
                      indicator: Outcome): Pass {
    var first := EnablePass(b, enable);
    var second := Chain(first, ProbePass(cfg, first.left, nowMs, probe));
    Chain(second, IndicatorPass(cfg, second.left, nowMs, indicator))
  }

  predicate SendsEnable(b: Bringup, enable: Outcome) {
    !b.enablePublished && AllReady(b) && enable != Lost
  }

  // ---------------------------------------------------------- the protocol

  /** `air` holds every message ever sent, to be delivered any number of times; times are unbounded milliseconds.
      `tried` is a history of what the master tried to publish. */
  datatype Sys = Sys(
    gpu0: Gpu,
    gpu1: Gpu,
    master: Bringup,
    air: set<Message>,
    time: nat,
    probeTime: nat,
    tried: seq<Attempt>)

  function Start(): Sys {
    Sys(OFF, OFF, WAITING, {}, 0, 0, [])
  }

  function GpuAt(s: Sys, first: bool): Gpu {
    if first then s.gpu0 else s.gpu1
  }

  function WithGpu(s: Sys, first: bool, g: Gpu): Sys {
    if first then s.(gpu0 := g) else s.(gpu1 := g)
  }

  function NodeOf(first: bool): Node {
    if first then Gpu0 else Gpu1
  }

  /** Steps of either GPU (`first` tells which), of the master, of the network and of the clock. */
  datatype Action =
    | DoHold(first: bool, gateSet: bool)
    | DoBegin(first: bool, ownsGate: bool, service: bool, subscribed: bool)
    | DoGpuWork(first: bool, outcome: Outcome)
    | DeliverEnable(first: bool, m: Message, gateSet: bool)
    | DeliverReady(m: Message)
    | DoMasterWork(enable: Outcome, probe: Outcome, indicator: Outcome)
    | SendElsewhere(m: Message)
    | Tick(ms: nat)

  function Do(cfg: Config, s: Sys, a: Action): Sys
  {
    match a
    case DoHold(first, gateSet) => WithGpu(s, first, HoldGateDisabled(GpuAt(s, first), gateSet))
    case DoBegin(first, owns, service, subscribed) =>
      WithGpu(s, first, Begin(GpuAt(s, first), owns, service, subscribed))
    case DoGpuWork(first, outcome) =>
      var g := GpuAt(s, first);
      var sent := if ReadyDue(g, Clock(s.time)) && outcome != Lost then {Ready(NodeOf(first))} else {};
      WithGpu(s, first, GpuWork(g, Clock(s.time))).(air := s.air + sent)
    case DeliverEnable(first, m, gateSet) =>
      if m in s.air then WithGpu(s, first, OnEnable(GpuAt(s, first), m, gateSet)) else s
    case DeliverReady(m) => if m in s.air then s.(master := OnReady(s.master, m)) else s
    case DoMasterWork(enable, probe, indicator) =>
      var pass := MasterWork(cfg, s.master, Clock(s.time), enable, probe, indicator);
      var b := pass.left;
      s.(master := b,
         tried := s.tried + pass.tried,
         air := s.air + (if SendsEnable(s.master, enable) then {Enable(Master, true)} else {}),
         probeTime := if b.probePublished && !s.master.probePublished then s.time else s.probeTime)
    case SendElsewhere(m) => if m.source == Elsewhere then s.(air := s.air + {m}) else s
    case Tick(ms) => s.(time := s.time + ms)
  }

  function Run(cfg: Config, actions: seq<Action>): Sys {
    if actions == [] then Start() else Do(cfg, Run(cfg, actions[..|actions| - 1]), actions[|actions| - 1])
  }

  // -------------------------------------------------------------- invariant

  ghost predicate SoundGpu(g: Gpu, n: Node, s: Sys) {
    && (Ready(n) in s.air ==> g.begun)
    && (n in s.master.ready ==> Ready(n) in s.air)
    && (g.begun && g.ownsGate ==> g.gateConfigured)
    && (g.gateEnabled ==> g.gateConfigured && g.begun && g.ownsGate && Enable(Master, true) in s.air)
  }

  ghost predicate SoundMaster(s: Sys) {
    && (forall e :: Enable(Master, e) in s.air ==> e && AllReady(s.master))
    && (s.master.enablePublished ==> Enable(Master, true) in s.air)
    && (s.master.probePublished ==>
          s.master.enablePublished && s.probeTime <= s.time && s.master.probePublishedMs == Clock(s.probeTime))
  }

  ghost predicate Sound(s: Sys) {
    SoundMaster(s) && forall first: bool :: SoundGpu(GpuAt(s, first), NodeOf(first), s)
  }

  lemma DoKeeps(cfg: Config, s: Sys, a: Action)
    requires Sound(s)
    ensures Sound(Do(cfg, s, a))
  {
    hide Sub32, ToWord32, IndicatorDue;
  }
}
