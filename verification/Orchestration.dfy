/**
 The master's spectrum-visual sequencer and wheel publisher. Commands go out on a
 bus on which a publish may fail, and may have been delivered even so; a display
 stands at the other end and renders frames in between.
 */
module MasterOrchestration {
  import opened Common
  import opened LayerScreens

  datatype Command =
    | LayerActive(layer: Layer, active: bool)
    | OtherLayerActive
    | LayerOpacity(layer: Layer, opacity: Byte)
    | Play(layer: Layer, preset: nat, requestId: Word16)
    | Swap(first: Layer, second: Layer, durationMs: Word16)
    | HueOffset(angle: Byte)
    | RotationOffset(angle: Byte)
    | WheelIndicator

  datatype Outcome = Published | FailedButDelivered | Lost

  /** What a display makes of the commands that arrive: its two layers, and the wheel's two offsets. */
  datatype Display = Display(screen: Screen, hue: Option<Byte>, rotation: Option<Byte>) {
    function With(c: Command, nowMs: Word32): Display {
      match c
      case LayerActive(layer, active) => this.(screen := screen.Activated(layer, active))
      case OtherLayerActive => this
      case LayerOpacity(layer, opacity) => this.(screen := screen.Dimmed(layer, opacity))
      case Play(layer, preset, requestId) => this.(screen := screen.Playing(layer, preset, requestId))
      case Swap(first, second, durationMs) => this.(screen := screen.Swapping(first, second, durationMs, nowMs))
      case HueOffset(angle) => this.(hue := Some(angle))
      case RotationOffset(angle) => this.(rotation := Some(angle))
      case WheelIndicator => this
    }
  }

  function After(i: nat, n: nat): (next: nat)
    requires n > 0
    ensures next < n
  {
    (i + 1) % n
  }

  /** From the first of `n` on, each is the next one, cyclically. */
  predicate RoundRobin(visited: seq<nat>, n: nat) {
    n > 0 && visited != [] && forall i :: 0 <= i < |visited| ==> visited[i] == i % n
  }

  lemma NextOnTheRing(i: nat, n: nat)
    requires n > 0
    ensures After(i % n, n) == (i + 1) % n
  {
    var q, r := i / n, i % n;
    assert i == q * n + r;
    if r + 1 < n {
      RemainderIs(i + 1, q, r + 1, n);
      RemainderIs(r + 1, 0, r + 1, n);
    } else {
      assert (q + 1) * n == q * n + n;
      RemainderIs(i + 1, q + 1, 0, n);
      RemainderIs(n, 1, 0, n);
    }
  }

  lemma RemainderIs(x: nat, q: nat, r: nat, n: nat)
    requires r < n && x == q * n + r
    ensures x % n == r
  {
    var d := x / n;
    assert x == d * n + x % n;
    assert (d + 1) * n == d * n + n && (q + 1) * n == q * n + n;
    ProductsGrow(d + 1, q, n);
    ProductsGrow(q + 1, d, n);
  }

  lemma RoundRobinAppend(visited: seq<nat>, n: nat, next: nat)
    requires RoundRobin(visited, n) && next == After(visited[|visited| - 1], n)
    ensures RoundRobin(visited + [next], n)
  {
    hide After;
    NextOnTheRing(|visited| - 1, n);
  }

  /**
   What the environment does with the publishes tried, one after the other: whether
   each is delivered and reported, when it arrives, and when the display has
   rendered frames since the one before.
   */
  class Bus {
    const outcomes: nat -> Outcome
    const arrivals: nat -> Word32
    const frames: nat -> seq<Word32>
    var tried: nat
    var display: Display

    /** Every command that was tried, in order. */
    ghost var log: seq<Command>

    constructor (outcomes: nat -> Outcome, arrivals: nat -> Word32, frames: nat -> seq<Word32>)
      ensures this.outcomes == outcomes && this.arrivals == arrivals && this.frames == frames
      ensures tried == 0 && display == Display(STARTED, None, None)
    {
      this.outcomes, this.arrivals, this.frames := outcomes, arrivals, frames;
      tried, display, log := 0, Display(STARTED, None, None), [];
    }

    /** What the display shows just before the next publish arrives. */
    function Arriving(): Screen
      reads this
    {
      display.screen.After(frames(tried))
    }

    method Publish(c: Command) returns (ok: bool)
      modifies this
      ensures tried == old(tried) + 1 && ok == outcomes(old(tried)).Published? && log == old(log) + [c]
      ensures var was := old(display).(screen := old(Arriving()));
        display == if outcomes(old(tried)).Lost? then was else was.With(c, arrivals(old(tried)))
      ensures old(display.screen.Sound()) ==> display.screen.Sound() && old(Arriving()).Sound()
    {
      hide Screen.After, Screen.Sound, Screen.Toward;
      if display.screen.Sound() {
        FramesKeep(display.screen, frames(tried));
        CommandKeepsSound(display.(screen := Arriving()), c, arrivals(tried));
      }
      display := display.(screen := Arriving());
      var outcome := outcomes(tried);
      if outcome != Lost {
        display := display.With(c, arrivals(tried));
      }
      tried, log := tried + 1, log + [c];
      return outcome == Published;
    }

    /** The publish tried `i` publishes from now will be reported as successful. */
    predicate Succeeds(i: nat)
      reads this
    {
      outcomes(tried + i).Published?
    }

    /** Every publish will be. */
    ghost predicate Reliable() {
      forall i: nat :: outcomes(i).Published?
    }

    predicate AllSucceed(n: nat)
      reads this
    {
      forall i :: tried <= i < tried + n ==> outcomes(i).Published?
    }

    /** The next staging gets as far as its swap, which is delivered, but reported as failed. */
    predicate LosesSwap()
      reads this
    {
      Succeeds(0) && Succeeds(1) && Succeeds(2) && outcomes(tried + 3).FailedButDelivered?
    }

    /** The swap of the next staging arrives, reported or not. */
    predicate SwapArrives()
      reads this
    {
      AllSucceed(4) || LosesSwap()
    }
  }

  lemma CommandKeepsSound(d: Display, c: Command, nowMs: Word32)
    requires d.screen.Sound()
    ensures d.With(c, nowMs).screen.Sound()
  {
  }

  datatype Preset = Preset(dwellMs: Word32, fadeMs: Word16)

  datatype Config = Config(
    publishOnStartup: bool,
    presets: seq<Preset>,
    refreshIntervalMs: Word32,
    publishLayers: bool,
    layersRetryMs: Word32,
    fftActive: bool,
    fftAltActive: bool,
    fftRequestId: Word16,
    fftAltRequestId: Word16,
    publishHueOffset: bool,
    publishRotationOffset: bool,
    publishIndicatorUpdate: bool,
    publishMinIntervalMs: Word32,
    hueScale: Word16 -> Byte,
    rotationScale: Word16 -> Byte)

  /** The two layers' requests do not take each other's animations away. */
  predicate OwnRequests(config: Config) {
    config.fftRequestId == 0 || config.fftRequestId != config.fftAltRequestId
  }

  function RequestFor(config: Config, layer: Layer): Word16 {
    if layer == FftAlt then config.fftAltRequestId else config.fftRequestId
  }

  /** The offset is the sum of all turns, modulo 2^16, and unless dirty it is what was last published. */
  predicate Turned(config: Config, hue: Option<Byte>, rotation: Option<Byte>, offset: Word16, dirty: bool, turned: int,
                   moved: bool) {
    && offset == turned % WORD_16
    && (dirty || offset != 0 ==> moved)
    && (!dirty && moved && config.publishHueOffset ==> hue == Some(config.hueScale(offset)))
    && (!dirty && moved && config.publishRotationOffset ==> rotation == Some(config.rotationScale(offset)))
  }

  /** Where the sequencer stands: the layer it holds active, the presets, and whether it is fading to the other
      layer. */
  datatype Stand = Stand(active: Layer, activePreset: nat, pendingPreset: nat, fading: bool) {
    /** The layer that is meant to be shown, once a fade is over, and the preset on it. */
    function Front(): Layer {
      if fading then Other(active) else active
    }

    function FrontPreset(): nat {
      if fading then pendingPreset else activePreset
    }

    /** At the end of a fade the layers change places, and what was pending is active. */
    function FadedOver(): Stand {
      Stand(Other(active), pendingPreset, pendingPreset, false)
    }
  }

  /** The display is in step: what was last played where and, while all is steady, what it shows or is fading to. */
  predicate InStep(config: Config, screen: Screen, v: Stand, steady: bool) {
    && screen.On(v.active).played == Some(v.activePreset)
    && (v.fading ==> screen.On(Other(v.active)).played == Some(v.pendingPreset))
    && (steady && OwnRequests(config) ==> screen.HeadsFor(v.Front(), v.FrontPreset(), RequestFor(config, v.Front())))
  }

  /** Frames leave it in step. */
  lemma FramesStayInStep(config: Config, screen: Screen, frames: seq<Word32>, v: Stand, steady: bool)
    requires screen.Sound() && InStep(config, screen, v, steady)
    ensures InStep(config, screen.After(frames), v, steady)
  {
    hide Screen.After, Screen.Toward;
    FramesKeep(screen, frames);
  }

  /** So does playing the active preset again. */
  lemma PlayStaysInStep(config: Config, screen: Screen, v: Stand, steady: bool)
    requires InStep(config, screen, v, steady) && !v.fading
    ensures var s := screen.Playing(v.active, v.activePreset, RequestFor(config, v.active));
      InStep(config, s, v, steady) && (screen.Stuck() ==> s.Stuck()) && s.Toward() == screen.Toward()
  {
  }

  /** And the end of the sequencer's own fade. */
  lemma FadeIsOver(config: Config, screen: Screen, v: Stand, steady: bool)
    requires InStep(config, screen, v, steady) && v.fading
    ensures InStep(config, screen, v.FadedOver(), steady)
  {
    hide Screen.HeadsFor;
  }

  /** What a staging has made of the screen, whose swap may or may not have arrived. */
  predicate StagedAs(config: Config, was: Screen, s: Screen, active: Layer, next: nat, nowMs: Word32, swapped: bool)
    requires next < |config.presets|
  {
    var request := RequestFor(config, Other(active));
    if swapped then s == Staged(was, active, next, request, config.presets[next].fadeMs, nowMs)
    else Readying(was, s, active, request)
  }

  /** Without that it is enough that what was last played is the same. */
  lemma UnsteadyStaysInStep(config: Config, was: Screen, s: Screen, v: Stand, steady: bool)
    requires InStep(config, was, v, steady) && forall l :: s.On(l).played == was.On(l).played
    ensures InStep(config, s, v, false)
  {
  }

  /** It stays in step, and steady if no fade was under way and the report of the swap is right. */
  lemma StagingStaysInStep(config: Config, was: Screen, s: Screen, v: Stand, next: nat, nowMs: Word32, ok: bool,
                           lost: bool, steady: bool)
    requires next < |config.presets| && !v.fading && !(ok && lost)
    requires InStep(config, was, v, steady) && StagedAs(config, was, s, v.active, next, nowMs, ok || lost)
    ensures var still := steady && was.fade.None? && !lost && config.presets[next].fadeMs > 0;
      InStep(config, s, if ok then v.(pendingPreset := next, fading := true) else v, still)
  {
    if ok || lost {
      StagingEnds(was, v.active, next, RequestFor(config, Other(v.active)), config.presets[next].fadeMs, nowMs);
    }
  }

  lemma StagingStaysStuck(config: Config, was: Screen, s: Screen, active: Layer, next: nat, nowMs: Word32,
                          swapped: bool)
    requires next < |config.presets| && StagedAs(config, was, s, active, next, nowMs, swapped) && was.Stuck()
    ensures s.Stuck()
  {
  }

  /** A menu event: whether it selects the next visual, and whether its handler's other publishes succeed. */
  datatype MenuEvent = MenuEvent(next: bool, published: bool)

  class Orchestrator {
    const config: Config
    const bus: Bus

    var activeLayer: Layer
    var hiddenLayer: Layer
    var activePreset: nat
    var pendingPreset: nat
    var fadeInProgress: bool
    var fadeStartMs: Word32
    var fadeDurationMs: Word16
    var lastVisualPublishMs: Word32
    var lastSwitchMs: Word32
    var visualPublished: bool
    var visualSuppressed: bool
    var layersPublished: bool
    var lastLayersPublishMs: Word32

    var wheelOffset: Word16
    var wheelOffsetDirty: bool
    var wheelIndicatorDirty: bool
    var lastWheelPublishMs: Word32

    /** The presets that were active since the visuals were last published, the sum of all wheel turns handled, and
        whether any of them moved the wheel. */
    ghost var visited: seq<nat>
    ghost var turned: int
    ghost var moved: bool

    /** Since then no swap was delivered though reported as failed, every staging met a display whose last fade was
        over, every fade took some time, and the layers' startup state was not published again. */
    ghost var steady: bool

    constructor (config: Config, bus: Bus)
      requires config.presets != [] && bus.display.screen.Sound()
      ensures Valid() && this.config == config && this.bus == bus && turned == 0 && !visualPublished
      ensures !visualSuppressed && Standing() == Stand(Fft, 0, 0, false) && !layersPublished && lastLayersPublishMs == 0
      ensures wheelOffset == 0 && !wheelOffsetDirty && lastWheelPublishMs == 0 && lastVisualPublishMs == 0
    {
      this.config, this.bus := config, bus;
      activeLayer, hiddenLayer, activePreset, pendingPreset := Fft, FftAlt, 0, 0;
      fadeInProgress, fadeStartMs, fadeDurationMs := false, 0, 0;
      lastVisualPublishMs, lastSwitchMs, visualPublished, visualSuppressed := 0, 0, false, false;
      layersPublished, lastLayersPublishMs := false, 0;
      wheelOffset, wheelOffsetDirty, wheelIndicatorDirty, lastWheelPublishMs := 0, false, false, 0;
      visited, steady, turned, moved := [], false, 0, false;
    }

    /**
     The sequencer's two layers are the two layers, in some order, and a fade leads
     to the next preset, cyclically.
     */
    ghost predicate ValidState()
      reads this
    {
      && config.presets != []
      && hiddenLayer == Other(activeLayer)
      && activePreset < |config.presets| && pendingPreset < |config.presets|
      && (fadeInProgress ==>
            pendingPreset == After(activePreset, |config.presets|)
            && fadeDurationMs == config.presets[pendingPreset].fadeMs)
      && (visualSuppressed ==> !visualPublished)
    }

    function Standing(): Stand
      reads this
    {
      Stand(activeLayer, activePreset, pendingPreset, fadeInProgress)
    }

    /** While the visuals are published, the display is in step with the state, and the presets went round in order. */
    ghost predicate ValidVisuals()
      reads this, bus
    {
      && bus.display.screen.Sound()
      && (visualPublished ==>
            && InStep(config, bus.display.screen, Standing(), steady)
            && RoundRobin(visited, |config.presets|) && visited[|visited| - 1] == activePreset)
    }

    ghost predicate ValidWheel()
      reads this, bus
    {
      && (wheelOffsetDirty <==> wheelIndicatorDirty)
      && Turned(config, bus.display.hue, bus.display.rotation, wheelOffset, wheelOffsetDirty, turned, moved)
    }

    ghost predicate Valid()
      reads this, bus
    {
      ValidState() && ValidVisuals() && ValidWheel()
    }

    /** Both settings of a layer: the second is tried even if the first one failed. */
    method PublishLayer(layer: Layer, active: bool, opacity: Byte) returns (ok: bool)
      requires bus.display.screen.Sound()
      modifies bus
      ensures bus.display.hue == old(bus.display.hue) && bus.display.rotation == old(bus.display.rotation)
      ensures bus.tried == old(bus.tried) + 2 && ok == old(bus.AllSucceed(2)) && bus.display.screen.Sound()
      ensures ok ==> bus.display.screen == old(bus.Arriving()).Activated(layer, active).Dimmed(layer, opacity)
    {
      hide Screen.After, Screen.Sound, Screen.Toward, Screen.Stuck;
      var ok1 := bus.Publish(LayerActive(layer, active));
      FramesKeep(bus.display.screen, bus.frames(bus.tried));
      var ok2 := bus.Publish(LayerOpacity(layer, opacity));
      return ok1 && ok2;
    }

    /** The first of the visuals on their layers: everything is tried, even after a failure. */
    method PublishFirst(active: Layer, hidden: Layer) returns (ok: bool)
      requires hidden == Other(active) && bus.display.screen.Sound()
      modifies bus
      ensures bus.display.hue == old(bus.display.hue) && bus.display.rotation == old(bus.display.rotation)
      ensures bus.tried == old(bus.tried) + 5 && ok == old(bus.AllSucceed(5)) && bus.display.screen.Sound()
      ensures ok ==>
        && bus.display.screen.InFront(active) && bus.display.screen.HeadsFor(active, 0, RequestFor(config, active))
        && !bus.display.screen.On(hidden).enabled
    {
      hide Screen.After, Screen.Sound, Screen.Stuck;
      var ok1 := PublishLayer(active, true, FULL);
      FramesKeep(bus.display.screen, bus.frames(bus.tried));
      var ok2 := PublishLayer(hidden, false, 0);
      FramesKeep(bus.display.screen, bus.frames(bus.tried));
      var ok3 := bus.Publish(Play(active, 0, RequestFor(config, active)));
      return ok1 && ok2 && ok3;
    }

    /** Back to the first preset on the first layer, with no fade. */
    method Reset()
      requires Valid() && !visualPublished
      modifies this`activeLayer, this`hiddenLayer, this`activePreset, this`pendingPreset, this`fadeInProgress
      ensures Valid() && Standing() == Stand(Fft, 0, 0, false)
    {
      hide Turned, InStep, Screen.Sound;
      activeLayer, hiddenLayer, activePreset, pendingPreset, fadeInProgress := Fft, FftAlt, 0, 0, false;
    }

    /** From now on the visuals count as published. */
    method MarkPublished(nowMs: Word32)
      requires Valid() && !visualSuppressed && !fadeInProgress && activePreset == 0
      requires bus.display.screen.HeadsFor(activeLayer, 0, RequestFor(config, activeLayer))
      modifies this`lastVisualPublishMs, this`lastSwitchMs, this`visualPublished, this`visited, this`steady
      ensures Valid() && visualPublished && visited == [0] && steady
      ensures lastSwitchMs == nowMs && lastVisualPublishMs == nowMs
    {
      hide Turned, Screen.Sound, Screen.Toward;
      lastVisualPublishMs, lastSwitchMs, visualPublished := nowMs, nowMs, true;
      visited, steady := [0], true;
    }

    method PublishInitial(nowMs: Word32) returns (ok: bool)
      requires Valid() && !visualPublished && !visualSuppressed
      modifies this`activeLayer, this`hiddenLayer, this`activePreset, this`pendingPreset, this`fadeInProgress,
               this`lastVisualPublishMs, this`lastSwitchMs, this`visualPublished, this`visited, this`steady, bus
      ensures Valid() && visualPublished == ok && Standing() == Stand(Fft, 0, 0, false)
      ensures bus.tried == old(bus.tried) + 5 && ok == old(bus.AllSucceed(5))
      ensures ok ==> visited == [0] && steady && lastSwitchMs == nowMs && lastVisualPublishMs == nowMs
      ensures ok ==> bus.display.screen.InFront(Fft) && !bus.display.screen.fftAlt.enabled
    {
      hide Display.With, Screen.InFront, Turned, Bus.AllSucceed, Screen.HeadsFor, InStep, Screen.Sound;
      Reset();
      ok := PublishFirst(activeLayer, hiddenLayer);
      if ok {
        MarkPublished(nowMs);
      }
    }

    /** The fade is over: the layers change places, and the pending preset is the active one. */
    method SwapLayers(nowMs: Word32)
      requires Valid() && fadeInProgress
      modifies this`activeLayer, this`hiddenLayer, this`activePreset, this`fadeInProgress,
               this`lastVisualPublishMs, this`lastSwitchMs, this`visited
      ensures Valid() && Standing() == old(Standing()).FadedOver()
      ensures lastSwitchMs == nowMs && lastVisualPublishMs == nowMs
      ensures activePreset == After(old(activePreset), |config.presets|) && visited == old(visited) + [activePreset]
    {
      hide RoundRobin, Turned, InStep, After, Screen.Sound;
      if visualPublished {
        FadeIsOver(config, bus.display.screen, Standing(), steady);
        RoundRobinAppend(visited, |config.presets|, pendingPreset);
      }
      visited := visited + [pendingPreset];
      activeLayer, hiddenLayer, activePreset, fadeInProgress := hiddenLayer, activeLayer, pendingPreset, false;
      lastSwitchMs, lastVisualPublishMs := nowMs, nowMs;
      assert ValidState();
      assert ValidWheel();
    }

    predicate FadeDue(nowMs: Word32)
      reads this
    {
      fadeInProgress && Sub32(nowMs, fadeStartMs) >= fadeDurationMs
    }

    method CompleteFadeIfDue(nowMs: Word32)
      requires Valid()
      modifies this`activeLayer, this`hiddenLayer, this`activePreset, this`fadeInProgress,
               this`lastVisualPublishMs, this`lastSwitchMs, this`visited
      ensures Valid()
      ensures
        if old(FadeDue(nowMs)) then
          && !fadeInProgress && activePreset == old(pendingPreset) == (old(activePreset) + 1) % |config.presets|
          && activeLayer == old(hiddenLayer) && hiddenLayer == old(activeLayer)
          && visited == old(visited) + [activePreset] && lastSwitchMs == nowMs && lastVisualPublishMs == nowMs
          && Standing() == old(Standing()).FadedOver()
        else
          && Standing() == old(Standing()) && visited == old(visited) && lastSwitchMs == old(lastSwitchMs)
          && lastVisualPublishMs == old(lastVisualPublishMs)
    {
      hide Turned, InStep, RoundRobin, Screen.Sound;
      if !fadeInProgress {
        return;
      }
      if Sub32(nowMs, fadeStartMs) < fadeDurationMs {
        return;
      }
      SwapLayers(nowMs);
    }

    /** The next visual on the hidden layer, unseen: the first failure ends it. */
    method PrepareHidden(active: Layer, hidden: Layer, next: nat) returns (ok: bool)
      requires hidden == Other(active) && bus.display.screen.Sound()
      modifies bus
      ensures bus.display.hue == old(bus.display.hue) && bus.display.rotation == old(bus.display.rotation)
      ensures ok == old(bus.AllSucceed(3)) && (ok ==> bus.tried == old(bus.tried) + 3) && bus.display.screen.Sound()
      ensures Readying(old(bus.Arriving()), bus.display.screen, active, RequestFor(config, hidden))
      ensures ok ==> bus.display.screen.fade.None?
      ensures ok ==>
        bus.display.screen
        == old(bus.Arriving()).Activated(hidden, true).Dimmed(hidden, 0)
                              .Playing(hidden, next, RequestFor(config, hidden))
    {
      hide Screen.After, Screen.Sound, Screen.Toward, Screen.Stuck;
      ok := bus.Publish(LayerActive(hidden, true));
      FramesKeep(bus.display.screen, bus.frames(bus.tried));
      if !ok {
        return;
      }
      ok := bus.Publish(LayerOpacity(hidden, 0));
      FramesKeep(bus.display.screen, bus.frames(bus.tried));
      if !ok {
        return;
      }
      ok := bus.Publish(Play(hidden, next, RequestFor(config, hidden)));
    }

    /** The next visual on the hidden layer, then the fade to it. */
    method PublishStaged(active: Layer, hidden: Layer, next: nat) returns (ok: bool)
      requires hidden == Other(active) && next < |config.presets| && bus.display.screen.Sound()
      modifies bus
      ensures bus.display.hue == old(bus.display.hue) && bus.display.rotation == old(bus.display.rotation)
      ensures ok == old(bus.AllSucceed(4)) && !(ok && old(bus.LosesSwap())) && bus.display.screen.Sound()
      ensures StagedAs(config, old(bus.Arriving()), bus.display.screen, active, next, bus.arrivals(old(bus.tried) + 3),
                       ok || old(bus.LosesSwap()))
      ensures ok || old(bus.LosesSwap()) ==> bus.tried == old(bus.tried) + 4
    {
      hide Screen.After, Screen.Swapping, Screen.Sound, Screen.Toward, Screen.Stuck, Screen.Playing, Readying;
      ok := PrepareHidden(active, hidden, next);
      assert old(bus.LosesSwap()) <==> ok && bus.outcomes(old(bus.tried) + 3).FailedButDelivered? by {
        assert old(bus.AllSucceed(3)) == old(bus.Succeeds(0) && bus.Succeeds(1) && bus.Succeeds(2));
      }
      if !ok {
        return;
      }
      FramesKeep(bus.display.screen, bus.frames(bus.tried));
      ok := bus.Publish(Swap(active, hidden, config.presets[next].fadeMs));
    }

    /** From now on the sequencer is fading to what was staged. */
    method StartFade(next: nat, nowMs: Word32)
      requires ValidState() && ValidWheel() && bus.display.screen.Sound()
      requires !fadeInProgress && next == After(activePreset, |config.presets|)
      requires visualPublished ==>
        && InStep(config, bus.display.screen, Stand(activeLayer, activePreset, next, true), steady)
        && RoundRobin(visited, |config.presets|) && visited[|visited| - 1] == activePreset
      modifies this`pendingPreset, this`fadeInProgress, this`fadeStartMs, this`fadeDurationMs, this`lastVisualPublishMs
      ensures Valid() && fadeInProgress && pendingPreset == next
      ensures fadeStartMs == nowMs && fadeDurationMs == config.presets[next].fadeMs && lastVisualPublishMs == nowMs
    {
      hide InStep, Turned, After, RoundRobin, Screen.Sound;
      pendingPreset, fadeInProgress, fadeStartMs, fadeDurationMs := next, true, nowMs, config.presets[next].fadeMs;
      lastVisualPublishMs := nowMs;
    }

    /** What the next staging would show, and how long it would take to fade in. */
    function Next(): nat
      requires config.presets != []
      reads this
    {
      After(activePreset, |config.presets|)
    }

    /** Publishes the staging; the display and the sequencer then stand where its outcome puts them. */
    method StageHidden(next: nat) returns (ok: bool)
      requires Valid() && !fadeInProgress && next == Next()
      modifies this`steady, bus
      ensures ok == old(bus.AllSucceed(4)) && ValidWheel() && bus.display.screen.Sound()
      ensures StagedAs(config, old(bus.Arriving()), bus.display.screen, activeLayer, next,
                       bus.arrivals(old(bus.tried) + 3), old(bus.SwapArrives()))
      ensures old(bus.SwapArrives()) ==> bus.tried == old(bus.tried) + 4
      ensures steady
           == (old(steady && bus.Arriving().fade.None? && !bus.LosesSwap()) && config.presets[next].fadeMs > 0)
      ensures visualPublished ==>
        InStep(config, bus.display.screen,
               if ok then Stand(activeLayer, activePreset, next, true) else Standing(), steady)
      ensures old(bus.display.screen.Stuck()) ==> bus.display.screen.Stuck()
    {
      hide Display.With, InStep, StagedAs, Turned, After, Bus.LosesSwap, Bus.AllSucceed, RoundRobin, Screen.After,
        Screen.Sound, Screen.Stuck, Screen.Toward, OwnRequests, RequestFor;
      ghost var was, lost, at := bus.Arriving(), bus.LosesSwap(), bus.arrivals(bus.tried + 3);
      if visualPublished {
        FramesStayInStep(config, bus.display.screen, bus.frames(bus.tried), Standing(), steady);
      }
      FramesKeep(bus.display.screen, bus.frames(bus.tried));
      ok := PublishStaged(activeLayer, hiddenLayer, next);
      if was.Stuck() {
        StagingStaysStuck(config, was, bus.display.screen, activeLayer, next, at, ok || lost);
      }
      if visualPublished {
        StagingStaysInStep(config, was, bus.display.screen, Standing(), next, at, ok, lost, steady);
      }
      steady := steady && was.fade.None? && !lost && config.presets[next].fadeMs > 0;
    }

    method StageNext(nowMs: Word32) returns (ok: bool)
      requires Valid()
      modifies this`pendingPreset, this`fadeInProgress, this`fadeStartMs, this`fadeDurationMs, this`lastVisualPublishMs,
               this`steady, bus
      ensures Valid()
      ensures old(fadeInProgress) ==>
        && ok && bus.tried == old(bus.tried) && bus.display == old(bus.display) && steady == old(steady)
        && Standing() == old(Standing()) && fadeStartMs == old(fadeStartMs) && fadeDurationMs == old(fadeDurationMs)
      ensures !old(fadeInProgress) ==>
        && ok == old(bus.AllSucceed(4)) && fadeInProgress == ok
        && StagedAs(config, old(bus.Arriving()), bus.display.screen, activeLayer, Next(),
                    bus.arrivals(old(bus.tried) + 3), old(bus.SwapArrives()))
        && (old(bus.SwapArrives()) ==> bus.tried == old(bus.tried) + 4)
        && steady == (old(steady && bus.Arriving().fade.None? && !bus.LosesSwap()) && config.presets[Next()].fadeMs > 0)
      ensures ok ==> fadeInProgress && pendingPreset == (activePreset + 1) % |config.presets|
      ensures !ok ==> pendingPreset == old(pendingPreset)
      ensures ok && !old(fadeInProgress) ==>
        fadeStartMs == nowMs && fadeDurationMs == config.presets[Next()].fadeMs && lastVisualPublishMs == nowMs
      ensures old(bus.display.screen.Stuck()) ==> bus.display.screen.Stuck()
    {
      hide Display.With, InStep, StagedAs, Turned, Bus.LosesSwap, Bus.AllSucceed, RoundRobin, Screen.After,
        Screen.Sound, Screen.Stuck, Bus.Arriving;
      if fadeInProgress {
        return true;
      }
      var next := After(activePreset, |config.presets|);
      ok := StageHidden(next);
      if !ok {
        return;
      }
      StartFade(next, nowMs);
    }

    predicate RefreshDue(nowMs: Word32)
      reads this
    {
      && config.refreshIntervalMs != 0 && lastVisualPublishMs != 0
      && Sub32(nowMs, lastVisualPublishMs) >= config.refreshIntervalMs
    }

    /** The active preset is played again every so often, for a display that missed it. */
    method RefreshIfDue(nowMs: Word32) returns (ok: bool)
      requires Valid() && visualPublished && !fadeInProgress
      modifies this`lastVisualPublishMs, bus
      ensures Valid() && bus.display.screen.Toward() == old(bus.display.screen.Toward())
      ensures old(RefreshDue(nowMs)) ==>
        && bus.tried == old(bus.tried) + 1 && ok == old(bus.Succeeds(0))
        && lastVisualPublishMs == (if ok then nowMs else old(lastVisualPublishMs))
        && (ok ==> bus.display.screen
                   == old(bus.Arriving()).Playing(activeLayer, activePreset, RequestFor(config, activeLayer)))
      ensures !old(RefreshDue(nowMs)) ==>
        && ok && bus.tried == old(bus.tried) && bus.display == old(bus.display)
        && lastVisualPublishMs == old(lastVisualPublishMs)
      ensures old(bus.display.screen.Stuck()) ==> bus.display.screen.Stuck()
    {
      hide Screen.After, InStep, Turned, After, RoundRobin, Screen.Sound, Screen.Playing, Screen.Toward, Screen.Stuck;
      var elapsed := Sub32(nowMs, lastVisualPublishMs);
      if config.refreshIntervalMs != 0 && lastVisualPublishMs != 0 && elapsed >= config.refreshIntervalMs {
        FramesStayInStep(config, bus.display.screen, bus.frames(bus.tried), Standing(), steady);
        FramesKeep(bus.display.screen, bus.frames(bus.tried));
        PlayStaysInStep(config, bus.Arriving(), Standing(), steady);
        ok := bus.Publish(Play(activeLayer, activePreset, RequestFor(config, activeLayer)));
        if !ok {
          return;
        }
        lastVisualPublishMs := nowMs;
      }
      return true;
    }

    /** The visuals are published and their sequence goes on. */
    predicate Showing()
      reads this
    {
      config.publishOnStartup && visualPublished && !visualSuppressed
    }

    /** The visual has been shown for its time: this pass stages the next one. */
    predicate DwellOver(nowMs: Word32)
      requires ValidState()
      reads this
    {
      && Showing() && !fadeInProgress
      && config.presets[activePreset].dwellMs != 0
      && Sub32(nowMs, lastSwitchMs) >= config.presets[activePreset].dwellMs
    }

    /** What a pass does for visuals that are published: nothing during a fade, else a staging or a refresh when due. */
    method GoOn(nowMs: Word32) returns (ok: bool)
      requires Valid() && Showing()
      modifies this`pendingPreset, this`fadeInProgress, this`fadeStartMs, this`fadeDurationMs, this`lastVisualPublishMs,
               this`steady, bus
      ensures Valid()
      ensures !old(DwellOver(nowMs)) ==>
        Standing() == old(Standing()) && fadeStartMs == old(fadeStartMs) && fadeDurationMs == old(fadeDurationMs)
      ensures old(DwellOver(nowMs)) ==>
        && ok == old(bus.AllSucceed(4)) && fadeInProgress == ok
        && pendingPreset == (if ok then (activePreset + 1) % |config.presets| else old(pendingPreset))
        && StagedAs(config, old(bus.Arriving()), bus.display.screen, activeLayer, Next(),
                    bus.arrivals(old(bus.tried) + 3), old(bus.SwapArrives()))
        && (old(bus.SwapArrives()) ==> bus.tried == old(bus.tried) + 4)
        && (ok ==> fadeStartMs == nowMs && fadeDurationMs == config.presets[Next()].fadeMs)
      ensures !old(DwellOver(nowMs)) && (old(fadeInProgress) || !old(RefreshDue(nowMs))) ==>
        ok && bus.tried == old(bus.tried) && bus.display == old(bus.display)
      ensures !old(DwellOver(nowMs)) && !old(fadeInProgress) && old(RefreshDue(nowMs)) ==>
        && bus.tried == old(bus.tried) + 1 && ok == old(bus.Succeeds(0))
        && (ok ==> lastVisualPublishMs == nowMs
                   && bus.display.screen
                      == old(bus.Arriving()).Playing(activeLayer, activePreset, RequestFor(config, activeLayer)))
      ensures old(bus.display.screen.Stuck()) ==> bus.display.screen.Stuck()
    {
      hide InStep, Turned, After, StagedAs, Bus.LosesSwap, Bus.AllSucceed, RoundRobin, Screen.After, Screen.Sound,
        Screen.Toward, Screen.Stuck, Screen.InFront, Screen.Playing;
      if fadeInProgress {
        return true;
      }
      var dwellMs := config.presets[activePreset].dwellMs;
      if dwellMs != 0 && Sub32(nowMs, lastSwitchMs) >= dwellMs {
        ok := StageNext(nowMs);
        return;
      }
      ok := RefreshIfDue(nowMs);
    }

    /** Whatever this pass has to publish for the visuals will be reported as successful. */
    predicate VisualsSucceed(nowMs: Word32)
      requires ValidState()
      reads this, bus
    {
      if !config.publishOnStartup || visualSuppressed then true
      else if !visualPublished then bus.AllSucceed(5)
      else if fadeInProgress then true
      else if DwellOver(nowMs) then bus.AllSucceed(4)
      else RefreshDue(nowMs) ==> bus.Succeeds(0)
    }

    method HandleVisuals(nowMs: Word32) returns (ok: bool)
      requires Valid()
      modifies this`activeLayer, this`hiddenLayer, this`activePreset, this`pendingPreset, this`fadeInProgress,
               this`fadeStartMs, this`fadeDurationMs, this`lastVisualPublishMs, this`lastSwitchMs,
               this`visualPublished, this`visited, this`steady, bus
      ensures Valid() && ok == old(VisualsSucceed(nowMs))
      ensures !config.publishOnStartup || visualSuppressed ==>
        ok && bus.tried == old(bus.tried) && bus.display == old(bus.display)
      ensures old(visualPublished) ==> visualPublished
      ensures config.publishOnStartup && !visualSuppressed && !old(visualPublished) ==>
        && ok == old(bus.AllSucceed(5)) && visualPublished == ok && bus.tried == old(bus.tried) + 5
        && (ok ==> Standing() == Stand(Fft, 0, 0, false) && visited == [0] && lastSwitchMs == nowMs)
      ensures old(Showing() && FadeDue(nowMs)) ==>
        && ok && bus.tried == old(bus.tried) && bus.display == old(bus.display)
        && activeLayer == old(hiddenLayer) && hiddenLayer == old(activeLayer) && activePreset == old(pendingPreset)
        && Standing() == old(Standing()).FadedOver() && lastSwitchMs == nowMs
        && visited == old(visited) + [activePreset]
      ensures old(Showing() && !FadeDue(nowMs)) ==>
        && lastSwitchMs == old(lastSwitchMs) && visited == old(visited)
        && activeLayer == old(activeLayer) && activePreset == old(activePreset)
      ensures old(Showing() && !FadeDue(nowMs) && !DwellOver(nowMs)) ==>
        Standing() == old(Standing()) && fadeStartMs == old(fadeStartMs) && fadeDurationMs == old(fadeDurationMs)
      ensures old(DwellOver(nowMs)) ==>
        && ok == old(bus.AllSucceed(4)) && fadeInProgress == ok
        && pendingPreset == (if ok then (activePreset + 1) % |config.presets| else old(pendingPreset))
        && StagedAs(config, old(bus.Arriving()), bus.display.screen, activeLayer, Next(),
                    bus.arrivals(old(bus.tried) + 3), old(bus.SwapArrives()))
        && (old(bus.SwapArrives()) ==> bus.tried == old(bus.tried) + 4)
        && (ok ==> fadeStartMs == nowMs && fadeDurationMs == config.presets[Next()].fadeMs)
      ensures old(Showing() && !FadeDue(nowMs) && !DwellOver(nowMs) && !(RefreshDue(nowMs) && !fadeInProgress)) ==>
        ok && bus.tried == old(bus.tried) && bus.display == old(bus.display)
      ensures old(Showing() && !fadeInProgress && !DwellOver(nowMs) && RefreshDue(nowMs)) ==>
        && bus.tried == old(bus.tried) + 1 && ok == old(bus.Succeeds(0))
        && (ok ==> lastVisualPublishMs == nowMs
                   && bus.display.screen
                      == old(bus.Arriving()).Playing(activeLayer, activePreset, RequestFor(config, activeLayer)))
      ensures old(visualPublished && bus.display.screen.Stuck()) ==> bus.display.screen.Stuck()
    {
      hide InStep, Turned, After, StagedAs, Bus.LosesSwap, Bus.AllSucceed, RoundRobin, Screen.After, Screen.Sound,
        Screen.Toward, Screen.Stuck, Screen.InFront, Screen.Playing, Bus.Arriving, Bus.SwapArrives, ValidVisuals,
        ValidWheel;
      if !config.publishOnStartup || visualSuppressed {
        return true;
      }
      CompleteFadeIfDue(nowMs);
      if !visualPublished {
        ok := PublishInitial(nowMs);
        return;
      }
      ok := GoOn(nowMs);
    }

    /** A stop of everything or of either visual suppresses the sequencer for good. */
    method OnAnimationStop(requestId: Word16)
      requires Valid()
      modifies this`visualSuppressed, this`visualPublished, this`fadeInProgress, this`lastVisualPublishMs,
               this`lastSwitchMs
      ensures Valid()
      ensures var stops := requestId == 0 || requestId == config.fftRequestId || requestId == config.fftAltRequestId;
        && visualSuppressed == (old(visualSuppressed) || stops)
        && visualPublished == (old(visualPublished) && !stops)
        && (if stops && !old(visualSuppressed)
            then !fadeInProgress && lastVisualPublishMs == 0 && lastSwitchMs == 0
            else fadeInProgress == old(fadeInProgress) && lastVisualPublishMs == old(lastVisualPublishMs)
                 && lastSwitchMs == old(lastSwitchMs))
    {
      hide Turned, InStep, RoundRobin, Screen.Sound;
      var stops := requestId == 0 || requestId == config.fftRequestId || requestId == config.fftAltRequestId;
      if stops && !visualSuppressed {
        visualSuppressed, visualPublished, fadeInProgress := true, false, false;
        lastVisualPublishMs, lastSwitchMs := 0, 0;
      }
    }

    method HandleWheel(delta: Word16)
      requires Valid()
      modifies this`wheelOffset, this`wheelOffsetDirty, this`wheelIndicatorDirty, this`turned, this`moved
      ensures Valid() && turned == old(turned) + delta && moved == (old(moved) || delta != 0)
      ensures delta != 0 ==> wheelOffsetDirty
      ensures delta == 0 ==> wheelOffsetDirty == old(wheelOffsetDirty)
    {
      hide InStep, RoundRobin, Screen.Sound;
      if delta == 0 {
        return;
      }
      wheelOffset := (wheelOffset + delta) % WORD_16;
      turned, moved := turned + delta, true;
      wheelOffsetDirty, wheelIndicatorDirty := true, true;
    }

    /** A command that leaves the layers alone. */
    method PublishAside(c: Command) returns (ok: bool)
      requires Valid() && wheelOffsetDirty && (c.HueOffset? || c.RotationOffset? || c.WheelIndicator?)
      modifies bus
      ensures bus.tried == old(bus.tried) + 1 && ok == old(bus.Succeeds(0)) && bus.log == old(bus.log) + [c]
      ensures Valid() && bus.display.screen.Toward() == old(bus.display.screen.Toward())
      ensures ok ==> bus.display == old(bus.display).(screen := bus.display.screen).With(c, 0)
      ensures old(bus.display.screen.Stuck()) ==> bus.display.screen.Stuck()
    {
      hide Screen.After, InStep, RoundRobin, Screen.Sound, Screen.Toward, Screen.Stuck;
      if visualPublished {
        FramesStayInStep(config, bus.display.screen, bus.frames(bus.tried), Standing(), steady);
      }
      FramesKeep(bus.display.screen, bus.frames(bus.tried));
      ok := bus.Publish(c);
    }

    /** How many commands the wheel has to publish. */
    function WheelCommands(): nat {
      (if config.publishHueOffset then 1 else 0) + (if config.publishRotationOffset then 1 else 0)
      + (if config.publishIndicatorUpdate then 1 else 0)
    }

    function WheelLog(): seq<Command>
      reads this`wheelOffset
    {
      (if config.publishHueOffset then [HueOffset(config.hueScale(wheelOffset))] else [])
      + (if config.publishRotationOffset then [RotationOffset(config.rotationScale(wheelOffset))] else [])
      + (if config.publishIndicatorUpdate then [WheelIndicator] else [])
    }

    method PublishWheelEffects() returns (ok: bool)
      requires Valid() && wheelOffsetDirty
      modifies bus
      ensures ok ==> bus.log == old(bus.log) + WheelLog()
      ensures ok == old(bus.AllSucceed(WheelCommands())) && (ok ==> bus.tried == old(bus.tried) + WheelCommands())
      ensures Valid() && bus.display.screen.Toward() == old(bus.display.screen.Toward())
      ensures ok && config.publishHueOffset ==> bus.display.hue == Some(config.hueScale(wheelOffset))
      ensures ok && config.publishRotationOffset ==> bus.display.rotation == Some(config.rotationScale(wheelOffset))
      ensures old(bus.display.screen.Stuck()) ==> bus.display.screen.Stuck()
    {
      hide InStep, RoundRobin, Screen.Sound, Screen.Toward, Screen.Stuck, Turned;
      if config.publishHueOffset {
        ok := PublishAside(HueOffset(config.hueScale(wheelOffset)));
        if !ok {
          return;
        }
      }
      if config.publishRotationOffset {
        ok := PublishAside(RotationOffset(config.rotationScale(wheelOffset)));
        if !ok {
          return;
        }
      }
      if config.publishIndicatorUpdate {
        ok := PublishAside(WheelIndicator);
        if !ok {
          return;
        }
      }
      return true;
    }

    /** The startup state of five more layers, one after the other, even after a failure. */
    method PublishFiveOthers() returns (ok: bool)
      requires bus.display.screen.Sound()
      modifies bus
      ensures bus.display.screen.Sound() && bus.tried == old(bus.tried) + 5 && ok == old(bus.AllSucceed(5))
      ensures bus.log == old(bus.log) + seq(5, _ => OtherLayerActive)
      ensures bus.display.hue == old(bus.display.hue) && bus.display.rotation == old(bus.display.rotation)
      ensures forall l :: bus.display.screen.On(l).played == old(bus.display.screen.On(l).played)
      ensures old(bus.display.screen.fade.None?) ==> bus.display.screen == old(bus.display.screen)
    {
      hide Screen.Sound, Screen.After, Screen.Toward, Screen.Stuck, Screen.On;
      ghost var first := bus.tried;
      ok := true;
      for i := 0 to 5
        invariant bus.display.screen.Sound() && bus.tried == first + i
        invariant bus.log == old(bus.log) + seq(i, _ => OtherLayerActive)
        invariant ok == forall k :: first <= k < first + i ==> bus.outcomes(k).Published?
        invariant bus.display.hue == old(bus.display.hue) && bus.display.rotation == old(bus.display.rotation)
        invariant forall l :: bus.display.screen.On(l).played == old(bus.display.screen.On(l).played)
        invariant old(bus.display.screen.fade.None?) ==> bus.display.screen == old(bus.display.screen)
      {
        FramesKeep(bus.display.screen, bus.frames(bus.tried));
        var done := bus.Publish(OtherLayerActive);
        ok := ok && done;
      }
    }

    /** The startup state of all eight layers, these two second and third: everything is tried, even after a failure. */
    method PublishLayerStartup() returns (ok: bool)
      requires bus.display.screen.Sound()
      modifies bus
      ensures bus.display.screen.Sound() && ok == old(bus.AllSucceed(8))
      ensures bus.log == old(bus.log) + [OtherLayerActive, LayerActive(Fft, config.fftActive),
                                         LayerActive(FftAlt, config.fftAltActive)] + seq(5, _ => OtherLayerActive)
      ensures bus.display.hue == old(bus.display.hue) && bus.display.rotation == old(bus.display.rotation)
      ensures forall l :: bus.display.screen.On(l).played == old(bus.display.screen.On(l).played)
      ensures ok ==>
        bus.display.screen == old(bus.Arriving()).After(bus.frames(old(bus.tried) + 1))
                              .Activated(Fft, config.fftActive).Activated(FftAlt, config.fftAltActive)
    {
      hide Screen.Sound, Screen.After, Screen.Toward, Screen.Stuck;
      FramesKeep(bus.display.screen, bus.frames(bus.tried));
      var ok1 := bus.Publish(OtherLayerActive);
      FramesKeep(bus.display.screen, bus.frames(bus.tried));
      var ok2 := bus.Publish(LayerActive(Fft, config.fftActive));
      FramesKeep(bus.display.screen, bus.frames(bus.tried));
      var ok3 := bus.Publish(LayerActive(FftAlt, config.fftAltActive));
      var ok4 := PublishFiveOthers();
      ok := ok1 && ok2 && ok3 && ok4;
    }

    /** The layers' startup state has not been published yet, and its first try, or the next one, is due. */
    predicate LayersDue(nowMs: Word32)
      reads this
    {
      && config.publishLayers && !layersPublished
      && (lastLayersPublishMs == 0
          || (config.layersRetryMs != 0 && Sub32(nowMs, lastLayersPublishMs) >= config.layersRetryMs))
    }

    /** A retry may come when the visuals are published already; it cancels a fade, and the display may no longer be
        steady. */
    method StartLayersIfDue(nowMs: Word32) returns (ok: bool)
      requires Valid()
      modifies this`layersPublished, this`lastLayersPublishMs, this`steady, bus
      ensures Valid()
      ensures ok == (old(LayersDue(nowMs)) ==> old(bus.AllSucceed(8)))
      ensures !old(LayersDue(nowMs)) ==>
        steady == old(steady) && bus.tried == old(bus.tried) && bus.display == old(bus.display)
      ensures layersPublished == (old(layersPublished) || (old(LayersDue(nowMs)) && ok))
      ensures lastLayersPublishMs == if old(LayersDue(nowMs)) then nowMs else old(lastLayersPublishMs)
      ensures old(LayersDue(nowMs)) && ok ==>
        bus.display.screen == old(bus.Arriving()).After(bus.frames(old(bus.tried) + 1))
                              .Activated(Fft, config.fftActive).Activated(FftAlt, config.fftAltActive)
    {
      hide Turned, InStep, RoundRobin, Screen.Sound, Screen.After, Screen.Activated, Bus.AllSucceed, Sub32;
      ok := true;
      var elapsed := Sub32(nowMs, lastLayersPublishMs);
      var due := !layersPublished
        && (lastLayersPublishMs == 0 || (config.layersRetryMs != 0 && elapsed >= config.layersRetryMs));
      if config.publishLayers && due {
        ghost var was := bus.display.screen;
        ok := PublishLayerStartup();
        if visualPublished {
          UnsteadyStaysInStep(config, was, bus.display.screen, Standing(), steady);
        }
        steady := false;
        lastLayersPublishMs := nowMs;
        if ok {
          layersPublished := true;
        }
      }
    }

    /** The interval between two publishes of the wheel has passed. */
    predicate WheelMayPublish(nowMs: Word32)
      reads this
    {
      lastWheelPublishMs == 0 || Sub32(nowMs, lastWheelPublishMs) >= config.publishMinIntervalMs
    }

    /** The wheel's offsets, if they are dirty and their interval has passed. */
    method PublishWheelIfDue(nowMs: Word32) returns (ok: bool)
      requires Valid()
      modifies this`lastWheelPublishMs, this`wheelOffsetDirty, this`wheelIndicatorDirty, bus
      ensures Valid()
      ensures old(wheelOffsetDirty && WheelMayPublish(nowMs)) ==>
        && lastWheelPublishMs == nowMs
        && ok == old(bus.AllSucceed(WheelCommands())) && wheelOffsetDirty == !ok
      ensures !old(wheelOffsetDirty && WheelMayPublish(nowMs)) ==>
        && ok && lastWheelPublishMs == old(lastWheelPublishMs) && wheelOffsetDirty == old(wheelOffsetDirty)
        && bus.tried == old(bus.tried) && bus.display == old(bus.display)
      ensures old(bus.display.screen.Stuck()) ==> bus.display.screen.Stuck()
    {
      hide InStep, RoundRobin, Screen.Sound, Screen.Toward, Screen.Stuck;
      if !wheelOffsetDirty && !wheelIndicatorDirty {
        return true;
      }
      var elapsed := Sub32(nowMs, lastWheelPublishMs);
      if lastWheelPublishMs != 0 && elapsed < config.publishMinIntervalMs {
        return true;
      }
      lastWheelPublishMs := nowMs;
      ok := PublishWheelEffects();
      if ok {
        wheelOffsetDirty, wheelIndicatorDirty := false, false;
      }
    }

    method VisualsThenWheel(nowMs: Word32) returns (ok: bool)
      requires Valid()
      modifies this, bus
      ensures Valid() && turned == old(turned) && wheelOffset == old(wheelOffset)
      ensures visualSuppressed == old(visualSuppressed) && (old(visualPublished) ==> visualPublished)
      ensures !wheelOffsetDirty && old(wheelOffsetDirty) ==>
        && (old(lastWheelPublishMs) == 0 || Sub32(nowMs, old(lastWheelPublishMs)) >= config.publishMinIntervalMs)
        && lastWheelPublishMs == nowMs
      ensures old(visualPublished && bus.display.screen.Stuck()) ==> bus.display.screen.Stuck()
      ensures old(Showing() && FadeDue(nowMs)) ==>
        Standing() == old(Standing()).FadedOver() && lastSwitchMs == nowMs
      ensures bus.Reliable() && config.publishOnStartup && !visualSuppressed ==> visualPublished
      ensures bus.Reliable() && old(WheelMayPublish(nowMs)) ==> !wheelOffsetDirty
      ensures layersPublished == old(layersPublished)
      ensures !old(VisualsSucceed(nowMs)) ==>
        ok && wheelOffsetDirty == old(wheelOffsetDirty) && lastWheelPublishMs == old(lastWheelPublishMs)
    {
      hide Turned, InStep, RoundRobin, Screen.Sound, Screen.Toward, Screen.Stuck, Sub32, StagedAs, After,
        Bus.SwapArrives, Bus.Arriving, ValidVisuals, ValidWheel;
      var visuals := HandleVisuals(nowMs);
      if !visuals {
        return true;
      }
      ok := PublishWheelIfDue(nowMs);
    }

    /** The end of a work pass: the startup states, the visuals, then the wheel; `ioStarted` tells whether that of the
        other LEDs, if it was due, could be published. */
    method WorkTail(nowMs: Word32, ioStarted: bool) returns (ok: bool)
      requires Valid()
      modifies this, bus
      ensures Valid() && turned == old(turned) && wheelOffset == old(wheelOffset)
      ensures visualSuppressed == old(visualSuppressed) && (old(visualPublished) ==> visualPublished)
      ensures !wheelOffsetDirty && old(wheelOffsetDirty) ==>
        && (old(lastWheelPublishMs) == 0 || Sub32(nowMs, old(lastWheelPublishMs)) >= config.publishMinIntervalMs)
        && lastWheelPublishMs == nowMs
      ensures old(visualPublished && !LayersDue(nowMs) && bus.display.screen.Stuck()) ==> bus.display.screen.Stuck()
      ensures old(Showing() && FadeDue(nowMs) && (LayersDue(nowMs) ==> bus.AllSucceed(8))) && ioStarted ==>
        Standing() == old(Standing()).FadedOver() && lastSwitchMs == nowMs
      ensures bus.Reliable() && ioStarted && config.publishOnStartup && !visualSuppressed ==> visualPublished
      ensures bus.Reliable() && ioStarted && old(WheelMayPublish(nowMs)) ==> !wheelOffsetDirty
      ensures layersPublished == (old(layersPublished) || old(LayersDue(nowMs) && bus.AllSucceed(8)))
      ensures !ioStarted || (old(LayersDue(nowMs)) && !old(bus.AllSucceed(8))) ==>
        && ok && Standing() == old(Standing()) && wheelOffsetDirty == old(wheelOffsetDirty)
        && lastWheelPublishMs == old(lastWheelPublishMs)
    {
      hide Turned, InStep, RoundRobin, Screen.Sound, Screen.Toward, Screen.Stuck, Sub32, StagedAs, After, LayersDue,
        Bus.SwapArrives, Bus.Arriving, ValidVisuals, ValidWheel, DwellOver;
      var layersStarted := StartLayersIfDue(nowMs);
      if !layersStarted || !ioStarted {
        return true;
      }
      ok := VisualsThenWheel(nowMs);
    }

    method HandleMenu(e: MenuEvent, nowMs: Word32) returns (ok: bool)
      requires Valid()
      modifies this`pendingPreset, this`fadeInProgress, this`fadeStartMs, this`fadeDurationMs, this`lastVisualPublishMs,
               this`steady, bus
      ensures Valid()
      ensures !e.next || old(fadeInProgress) ==>
        && ok == e.published && bus.tried == old(bus.tried) && bus.display == old(bus.display)
        && Standing() == old(Standing()) && fadeStartMs == old(fadeStartMs) && fadeDurationMs == old(fadeDurationMs)
      ensures e.next && !old(fadeInProgress) ==>
        && ok == (e.published && old(bus.AllSucceed(4))) && fadeInProgress == old(bus.AllSucceed(4))
        && activePreset == old(activePreset)
        && (fadeInProgress ==> pendingPreset == (activePreset + 1) % |config.presets|)
      ensures old(visualPublished && bus.display.screen.Stuck()) ==> bus.display.screen.Stuck()
    {
      hide Turned, InStep, RoundRobin, Screen.Sound, Screen.Toward, Screen.Stuck, StagedAs, After;
      ok := true;
      if e.next {
        ok := StageNext(nowMs);
      }
      ok := ok && e.published;
    }

    /** The queued menu events: while `allow` is set, the first failure ends it. */
    method HandleMenus(menu: seq<MenuEvent>, nowMs: Word32, allow: bool) returns (ok: bool)
      requires Valid()
      modifies this`pendingPreset, this`fadeInProgress, this`fadeStartMs, this`fadeDurationMs, this`lastVisualPublishMs,
               this`steady, bus
      ensures Valid()
      ensures allow && (exists e :: e in menu && !e.published) ==> !ok
      ensures !allow ==> ok
      ensures (forall e :: e in menu ==> e.published && (e.next ==> bus.Reliable() || old(fadeInProgress))) ==> ok
      ensures !allow || old(fadeInProgress) || (forall e :: e in menu ==> !e.next) ==>
        && Standing() == old(Standing()) && fadeStartMs == old(fadeStartMs) && fadeDurationMs == old(fadeDurationMs)
        && bus.tried == old(bus.tried) && bus.display == old(bus.display)
      ensures old(visualPublished && bus.display.screen.Stuck()) ==> bus.display.screen.Stuck()
    {
      hide Turned, InStep, RoundRobin, Screen.Sound, Screen.Toward, Screen.Stuck, After, ValidVisuals, ValidWheel;
      ok := true;
      for i := 0 to |menu|
        invariant Valid() && ok
        invariant allow ==> forall e :: e in menu[..i] ==> e.published
        invariant old(visualPublished && bus.display.screen.Stuck()) ==> bus.display.screen.Stuck()
        invariant !allow || old(fadeInProgress) || (forall e :: e in menu ==> !e.next) ==>
          && Standing() == old(Standing()) && fadeStartMs == old(fadeStartMs) && fadeDurationMs == old(fadeDurationMs)
          && bus.tried == old(bus.tried) && bus.display == old(bus.display)
      {
        if allow {
          assert menu[i] in menu;
          ok := HandleMenu(menu[i], nowMs);
          if !ok {
            return;
          }
        }
        assert menu[..i + 1] == menu[..i] + [menu[i]];
      }
      assert menu[..|menu|] == menu;
    }

    /** The queued turns of the wheel. */
    method HandleTurns(deltas: seq<Word16>)
      requires Valid()
      modifies this`wheelOffset, this`wheelOffsetDirty, this`wheelIndicatorDirty, this`turned, this`moved
      ensures Valid() && turned == old(turned) + Sum(deltas)
    {
      hide InStep, RoundRobin, Screen.Sound, Screen.Toward, Screen.Stuck, ValidVisuals;
      for i := 0 to |deltas|
        invariant Valid() && turned == old(turned) + Sum(deltas[..i])
      {
        assert deltas[..i + 1][..i] == deltas[..i];
        HandleWheel(deltas[i]);
      }
      assert deltas[..|deltas|] == deltas;
    }

    /**
     One work pass: queued menu events, the other events ahead of the wheel, of which `handled` tells whether all could
     be handled, queued wheel turns, and the tail. While `allow` is set, whatever fails ahead of the wheel ends the pass
     and leaves the turns queued.
     */
    method Work(nowMs: Word32, menu: seq<MenuEvent>, handled: bool, deltas: seq<Word16>, allow: bool, ioStarted: bool)
      returns (ok: bool)
      requires Valid()
      modifies this, bus
      ensures Valid() && (old(visualPublished) ==> visualPublished)
      ensures turned == old(turned) + Sum(deltas) || (turned == old(turned) && allow && !ok)
      ensures !allow || (handled && forall e :: e in menu ==> e.published && !e.next) ==>
        turned == old(turned) + Sum(deltas)
      ensures allow && (!handled || exists e :: e in menu && !e.published) ==> turned == old(turned) && !ok
      ensures old(visualPublished && !LayersDue(nowMs) && bus.display.screen.Stuck()) ==> bus.display.screen.Stuck()
      ensures allow && handled && ioStarted && (forall e :: e in menu ==> e.published)
              && old(Showing() && FadeDue(nowMs) && (LayersDue(nowMs) ==> bus.AllSucceed(8))) ==>
        Standing() == old(Standing()).FadedOver() && lastSwitchMs == nowMs
      ensures bus.Reliable() && allow && handled && ioStarted && (forall e :: e in menu ==> e.published) ==>
        && (config.publishOnStartup && !visualSuppressed ==> visualPublished)
        && (old(WheelMayPublish(nowMs)) ==> !wheelOffsetDirty)
        && (old(LayersDue(nowMs)) ==> layersPublished)
      ensures !allow ==>
        && ok && Standing() == old(Standing()) && bus.tried == old(bus.tried) && bus.display == old(bus.display)
    {
      hide Turned, InStep, RoundRobin, Screen.Sound, Screen.Toward, Screen.Stuck, After, Sub32, ValidVisuals,
        ValidWheel;
      ok := HandleMenus(menu, nowMs, allow);
      if !ok {
        return;
      }
      if allow && !handled {
        return false;
      }
      HandleTurns(deltas);
      if !allow {
        return true;
      }
      ok := WorkTail(nowMs, ioStarted);
    }
  }

  /**
   While the visuals are published and all has been steady, a display shows the
   sequencer's front layer alone, or is fading to it, and its preset is the one
   that runs there.
   */
  lemma SteadyShows(o: Orchestrator)
    requires o.Valid() && o.visualPublished && o.steady && OwnRequests(o.config)
    ensures var v := o.Standing();
      o.bus.display.screen.HeadsFor(v.Front(), v.FrontPreset(),
                                    if v.Front() == Fft then o.config.fftRequestId else o.config.fftAltRequestId)
  {
  }

  /**
   Whatever the display shows when a staging reaches it, afterwards it heads for the
   sequencer's front layer exactly under these conditions on the active layer at
   that moment. Frames, and playing the active preset again, never change where it
   heads.
   */
  lemma FrontExactly(config: Config, was: Screen, s: Screen, v: Stand, next: nat, nowMs: Word32, ok: bool, lost: bool)
    requires next < |config.presets| && !v.fading && !(ok && lost)
    requires StagedAs(config, was, s, v.active, next, nowMs, ok || lost)
    ensures var a, takesTime := was.On(v.active), config.presets[next].fadeMs > 0;
      s.Toward() == Some(if ok then Other(v.active) else v.active) <==>
        if ok then takesTime && a.opacity == FULL
        else if lost then (if takesTime then a.opacity != FULL && !a.enabled else a.opacity == FULL && a.enabled)
        else if s == was then was.Toward() == Some(v.active)
        else a.opacity == FULL && a.enabled && s.On(Other(v.active)).opacity == 0
  {
    var request := RequestFor(config, Other(v.active));
    if ok || lost {
      StagingEnds(was, v.active, next, request, config.presets[next].fadeMs, nowMs);
    } else if s != was {
      ReadyingEnds(was, s, v.active, request);
    }
  }

  /** The first visual is shown for its time, and the next one takes time to fade in. */
  predicate Ordinary(config: Config) {
    && config.publishOnStartup && config.presets != [] && config.presets[0].dwellMs > 0
    && config.presets[After(0, |config.presets|)].fadeMs > 0
  }

  /** The visuals are published, their time is over, and the swap to the next one is delivered but reported as
      failed. */
  method LoseFirstSwap(config: Config, bus: Bus) returns (o: Orchestrator)
    requires Ordinary(config) && bus.tried == 0 && bus.display.screen == STARTED
             && bus.outcomes(8) == FailedButDelivered
    requires forall i: nat :: i < 8 ==> bus.outcomes(i) == Published && bus.frames(i) == []
    modifies bus
    ensures fresh(o) && o.Valid() && o.config == config && o.bus == bus && bus.tried == 9
    ensures o.activeLayer == Fft && o.activePreset == 0 && o.DwellOver(config.presets[0].dwellMs)
    ensures bus.display.screen.fade
            == Some(Fade(FftAlt, bus.arrivals(8), config.presets[After(0, |config.presets|)].fadeMs))
    ensures bus.display.screen.On(FftAlt).opacity == 0
  {
    hide After, Screen.After;
    o := new Orchestrator(config, bus);
    var started := o.PublishInitial(0);
    FramesKeep(bus.display.screen, bus.frames(5));
    ghost var was := bus.Arriving();
    var staged := o.HandleVisuals(config.presets[0].dwellMs);
    StagingEnds(was, Fft, o.Next(), RequestFor(config, FftAlt), config.presets[o.Next()].fadeMs, bus.arrivals(8));
    StagingStarts(was, Fft, o.Next(), RequestFor(config, FftAlt), config.presets[o.Next()].fadeMs, bus.arrivals(8));
  }

  /**
   The next pass stages again, before any frame. The display goes on to the hidden
   layer, which is in front in the end: as the sequencer means it if this time the
   report is right, and not as it means it if the swap's report is lost twice.
   */
  method RepeatInTime(config: Config, twice: bool) returns (o: Orchestrator)
    requires Ordinary(config)
    ensures o.Valid() && o.config == config && o.visualPublished && o.activeLayer == Fft && o.fadeInProgress == !twice
    ensures o.bus.display.screen.Toward() == Some(FftAlt)
    ensures o.bus.display.screen.Toward() == Some(o.Standing().Front()) <==> !twice
  {
    hide After, StagedAs;
    var bus := new Bus(i => if i == 8 || (twice && i == 12) then FailedButDelivered else Published, i => 0, i => []);
    o := LoseFirstSwap(config, bus);
    ghost var was := bus.Arriving();
    assert was == bus.display.screen;
    assert bus.outcomes(12).Published? == !twice && bus.AllSucceed(4) == !twice;
    var staged := o.HandleVisuals(config.presets[0].dwellMs);
    StagingRepeated(config, was, bus.display.screen, Fft, o.Next(), 0);
  }

  lemma StagingRepeated(config: Config, was: Screen, s: Screen, active: Layer, next: nat, nowMs: Word32)
    requires next < |config.presets| && config.presets[next].fadeMs > 0
             && StagedAs(config, was, s, active, next, nowMs, true)
    requires was.Sound() && was.fade.Some? && was.fade.value.to == Other(active)
    ensures was.On(Other(active)).opacity == 0 ==> s.Toward() == Some(Other(active))
    ensures was.On(Other(active)).opacity > 0 ==> s.Stuck() && s.On(Other(active)).opacity == 0
  {
    hide Staged, Screen.Toward, Screen.Stuck;
    var request, fadeMs := RequestFor(config, Other(active)), config.presets[next].fadeMs;
    RepeatedStagingEnds(was, active, next, request, fadeMs, nowMs);
    StagingStarts(was, active, next, request, fadeMs, nowMs);
  }

  /**
   If a frame has moved the fade before the next pass stages again, the display
   gets stuck, although this time everything is reported as published.
   */
  method RepeatTooLate(config: Config) returns (o: Orchestrator)
    requires Ordinary(config) && config.presets[After(0, |config.presets|)].fadeMs == 10000
    ensures fresh(o) && fresh(o.bus) && o.Valid() && o.config == config && o.visualPublished && o.fadeInProgress
    ensures o.fadeStartMs == config.presets[0].dwellMs && o.fadeDurationMs == 10000 && o.hiddenLayer == FftAlt
    ensures o.bus.display.screen.Stuck() && o.bus.display.screen.On(FftAlt).opacity == 0
    ensures o.bus.SwapArrives()
  {
    hide After, StagedAs, Screen.After;
    var bus := new Bus(i => if i == 8 then FailedButDelivered else Published, i => 0, i => if i == 9 then [20] else []);
    o := LoseFirstSwap(config, bus);
    ghost var was := bus.Arriving();
    OneFrame(bus.display.screen, 20);
    assert was.On(FftAlt).opacity == FadeIn(20, 10000) == 1;
    var staged := o.HandleVisuals(config.presets[0].dwellMs);
    StagingRepeated(config, was, bus.display.screen, Fft, o.Next(), 0);
  }

  /** After one more staging of such a display neither layer is seen any more. */
  method StageAgain(o: Orchestrator)
    requires o.Valid() && o.visualPublished && o.fadeInProgress && o.hiddenLayer == FftAlt && o.bus.SwapArrives()
    requires o.fadeStartMs + o.fadeDurationMs < WORD_32
    requires o.bus.display.screen.Stuck() && o.bus.display.screen.On(FftAlt).opacity == 0
    modifies o, o.bus
    ensures o.bus.display.screen.Stuck()
    ensures o.bus.display.screen.fft.opacity == 0 && o.bus.display.screen.fftAlt.opacity == 0
  {
    hide After, StagedAs, Screen.After;
    FramesKeep(o.bus.display.screen, o.bus.frames(o.bus.tried));
    ghost var was, at := o.bus.Arriving(), o.bus.arrivals(o.bus.tried + 3);
    o.CompleteFadeIfDue(o.fadeStartMs + o.fadeDurationMs);
    var staged := o.StageNext(o.fadeStartMs + o.fadeDurationMs);
    StuckStaging(o.config, was, o.bus.display.screen, FftAlt, o.Next(), at);
  }

  /** The next staging of a stuck display takes the last layer away. */
  lemma StuckStaging(config: Config, was: Screen, s: Screen, active: Layer, next: nat, nowMs: Word32)
    requires next < |config.presets| && StagedAs(config, was, s, active, next, nowMs, true)
    requires was.Stuck() && was.On(active).opacity == 0
    ensures s.Stuck() && s.fft.opacity == 0 && s.fftAlt.opacity == 0
  {
  }

  function Sum(deltas: seq<Word16>): int {
    if deltas == [] then 0 else Sum(deltas[..|deltas| - 1]) + deltas[|deltas| - 1]
  }
}
