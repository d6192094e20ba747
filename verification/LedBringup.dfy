/** The GPU's startup object and the master's bring-up state, updated in place. */
module LedBringup {
  import opened Common
  import opened LedBringupModel

  class LedStartup {
    var gateEnabled: bool
    var lastReadyPublishMs: Word32
    var gateConfigured: bool
    var ownsOutputGate: bool
    var begun: bool
    var hasPublishedReady: bool
    var enableReceived: bool

    constructor ()
      ensures View() == OFF
    {
      gateEnabled, lastReadyPublishMs, gateConfigured, ownsOutputGate := false, 0, false, false;
      begun, hasPublishedReady, enableReceived := false, false, false;
    }

    function View(): Gpu
      reads this
    {
      Gpu(gateConfigured, gateEnabled, ownsOutputGate, begun, hasPublishedReady, lastReadyPublishMs, enableReceived)
    }

    method HoldOutputGateDisabled(gateSet: bool) returns (ok: bool)
      modifies this`gateConfigured, this`gateEnabled
      ensures View() == HoldGateDisabled(old(View()), gateSet) && ok == (!old(gateConfigured) && gateSet)
    {
      if gateConfigured {
        return false;
      }
      if !gateSet {
        return false;
      }
      gateEnabled := false;
      gateConfigured := true;
      return true;
    }

    method Begin(ownsGate: bool, service: bool, subscribed: bool) returns (ok: bool)
      modifies this`ownsOutputGate, this`begun
      ensures View() == LedBringupModel.Begin(old(View()), ownsGate, service, subscribed)
      ensures ok == (!old(begun) && begun)
    {
      if begun {
        return false;
      }
      if ownsGate && !gateConfigured {
        return false;
      }
      if !service {
        return false;
      }
      ownsOutputGate := ownsGate;
      if ownsOutputGate && !subscribed {
        return false;
      }
      begun := true;
      return true;
    }

    /** Announces readiness once a second: `send` tells the caller to publish it. */
    method Work(nowMs: Word32) returns (ok: bool, send: bool)
      modifies this`hasPublishedReady, this`lastReadyPublishMs
      ensures View() == GpuWork(old(View()), nowMs) && ok == begun && send == ReadyDue(old(View()), nowMs)
    {
      if !begun {
        return false, false;
      }
      if hasPublishedReady && Sub32(nowMs, lastReadyPublishMs) < READY_INTERVAL_MS {
        return true, false;
      }
      hasPublishedReady := true;
      lastReadyPublishMs := nowMs;
      return true, true;
    }

    method SetEnabled(enabled: bool, gateSet: bool) returns (ok: bool)
      modifies this`gateEnabled, this`enableReceived
      ensures ok == (ownsOutputGate ==> gateSet)
      ensures ok ==> enableReceived == enabled && gateEnabled == (if ownsOutputGate then enabled else old(gateEnabled))
      ensures !ok ==> View() == old(View())
    {
      if ownsOutputGate {
        if !gateSet {
          return false;
        }
        gateEnabled := enabled;
      }
      if enableReceived != enabled {
        enableReceived := enabled;
      }
      return true;
    }

    /** The subscription to enable commands, which only a gate owner takes out. */
    method OnEnableEnvelope(m: Message, gateSet: bool) returns (ok: bool)
      requires begun && ownsOutputGate && m.Enable?
      modifies this`gateEnabled, this`enableReceived
      ensures View() == OnEnable(old(View()), m, gateSet) && ok == (m.source == Master && gateSet)
    {
      if m.source != Master {
        return false;
      }
      ok := SetEnabled(m.enabled, gateSet);
    }
  }

  class MasterLedBringup {
    const config: Config
    var readyGpus: set<Node>
    var bootAnimationPublishedMs: Word32
    var outputEnablePublished: bool
    var spokeProbePublished: bool
    var wheelIndicatorPublished: bool

    constructor (config: Config)
      ensures this.config == config && View() == WAITING
    {
      this.config := config;
      readyGpus, bootAnimationPublishedMs := {}, 0;
      outputEnablePublished, spokeProbePublished, wheelIndicatorPublished := false, false, false;
    }

    function View(): Bringup
      reads this
    {
      Bringup(readyGpus, outputEnablePublished, spokeProbePublished, bootAnimationPublishedMs, wheelIndicatorPublished)
    }

    method OnOutputReadyEnvelope(m: Message) returns (ok: bool)
      requires m.Ready?
      modifies this`readyGpus
      ensures View() == OnReady(old(View()), m) && ok == (m.source in REQUIRED)
    {
      if m.source != Gpu0 && m.source != Gpu1 {
        return false;
      }
      readyGpus := readyGpus + {m.source};
      return true;
    }

    method TryEnable(enable: Outcome) returns (ok: bool, tried: seq<Attempt>)
      modifies this`outputEnablePublished
      ensures Pass(ok, tried, View()) == EnablePass(old(View()), enable)
    {
      if !outputEnablePublished && AllReady(View()) {
        if enable != Published {
          return false, [Attempt(EnableOutputs, enable)];
        }
        outputEnablePublished := true;
        return true, [Attempt(EnableOutputs, enable)];
      }
      return true, [];
    }

    method TryProbe(nowMs: Word32, probe: Outcome) returns (ok: bool, tried: seq<Attempt>)
      modifies this`bootAnimationPublishedMs, this`spokeProbePublished
      ensures Pass(ok, tried, View()) == ProbePass(config, old(View()), nowMs, probe)
    {
      tried := [];
      if outputEnablePublished && !spokeProbePublished {
        if !config.probeEnabled {
          bootAnimationPublishedMs := nowMs;
          spokeProbePublished := true;
        } else {
          tried := [Attempt(BootAnimation, probe)];
          if probe != Published {
            return false, tried;
          }
          bootAnimationPublishedMs := nowMs;
          spokeProbePublished := true;
        }
      }
      return true, tried;
    }

    method TryIndicator(nowMs: Word32, indicator: Outcome) returns (ok: bool, tried: seq<Attempt>)
      modifies this`wheelIndicatorPublished
      ensures Pass(ok, tried, View()) == IndicatorPass(config, old(View()), nowMs, indicator)
    {
      hide BootAnimationFinished, Sub32, ToWord32;
      if config.indicatorEnabled && !wheelIndicatorPublished && BootAnimationFinished(config, View(), nowMs)
         && Sub32(nowMs, bootAnimationPublishedMs)
            >= ToWord32((if config.probeEnabled then config.lifetimeMs else 0) + config.indicatorDelayMs)
      {
        if indicator != Published {
          return false, [Attempt(WheelIndicator, indicator)];
        }
        wheelIndicatorPublished := true;
        return true, [Attempt(WheelIndicator, indicator)];
      }
      return true, [];
    }

    /** `tried` are the publishes of this pass, in order; the first failure ends it. */
    method Work(nowMs: Word32, enable: Outcome, probe: Outcome, indicator: Outcome)
      returns (ok: bool, tried: seq<Attempt>)
      modifies this
      ensures Pass(ok, tried, View()) == MasterWork(config, old(View()), nowMs, enable, probe, indicator)
    {
      hide EnablePass, ProbePass, IndicatorPass;
      var more: seq<Attempt>;
      ok, tried := TryEnable(enable);
      if !ok {
        return;
      }
      ok, more := TryProbe(nowMs, probe);
      tried := tried + more;
      if !ok {
        return;
      }
      ok, more := TryIndicator(nowMs, indicator);
      tried := tried + more;
    }
  }
}
