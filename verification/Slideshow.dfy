/**
 The spectrum visuals over a long run of passes, in real time: whatever the
 displays make of it, the presets take turns, one per dwell and fade.
 */
module Slideshows {
  import opened Common
  import opened LayerScreens
  import opened MasterOrchestration

  /** Each pass comes after the one before, and no later than `gap`. */
  ghost predicate InTime(start: nat, times: seq<nat>, gap: nat) {
    forall i :: 0 <= i < |times| ==> Before(start, times, i) < times[i] <= Before(start, times, i) + gap
  }

  /** The time of the pass before the `i`th. */
  function Before(start: nat, times: seq<nat>, i: nat): nat
    requires i <= |times|
  {
    if i == 0 then start else times[i - 1]
  }

  /** Every preset is shown for some time, and the clock does not go round while it waits for a pass. */
  ghost predicate Timed(config: Config, gap: nat) {
    && config.presets != [] && gap < 0x8000_0000
    && forall p :: p in config.presets ==> 0 < p.dwellMs < 0x8000_0000
  }

  /** How long the `k`th preset to become active is shown, and how long it takes to fade in. */
  function ShownFor(config: Config, k: nat): nat
    requires config.presets != []
  {
    config.presets[k % |config.presets|].dwellMs
  }

  function FadesFor(config: Config, k: nat): nat
    requires config.presets != []
  {
    config.presets[k % |config.presets|].fadeMs
  }

  /** From when the `k`th preset becomes active until the next one does. */
  function TurnOf(config: Config, k: nat): nat
    requires config.presets != []
  {
    ShownFor(config, k) + FadesFor(config, k + 1)
  }

  /** The preset after the `k`th becomes active once that was shown and the fade is over, two passes later at most. */
  ghost predicate FollowsInTime(config: Config, gap: nat, switches: seq<nat>, k: nat)
    requires config.presets != [] && k + 1 < |switches|
  {
    switches[k] + TurnOf(config, k) <= switches[k + 1] <= switches[k] + TurnOf(config, k) + 2 * gap
  }

  /** Where the show is at a time: what became active when, and since when it is fading, if it is; `stamp` is what the
      clock showed when that fade began, or else when the last preset became active. */
  ghost predicate OnTime(config: Config, gap: nat, switches: seq<nat>, fading: bool, stamp: Word32, since: nat,
                         now: nat)
    requires config.presets != []
  {
    && switches != [] && stamp == Clock(since) && since <= now
    && (forall k :: 0 <= k < |switches| - 1 ==> FollowsInTime(config, gap, switches, k))
    && var last := switches[|switches| - 1];
       if fading then
         && last + ShownFor(config, |switches| - 1) <= since <= last + ShownFor(config, |switches| - 1) + gap
         && now <= since + FadesFor(config, |switches|)
       else
         since == last && now <= last + ShownFor(config, |switches| - 1)
  }

  /** A fade that is over when a pass comes makes its preset active, in time. */
  lemma FadeEndsInTime(config: Config, gap: nat, switches: seq<nat>, stamp: Word32, since: nat, last: nat, now: nat)
    requires Timed(config, gap) && OnTime(config, gap, switches, true, stamp, since, last) && last < now <= last + gap
    requires Sub32(Clock(now), stamp) >= FadesFor(config, |switches|)
    ensures OnTime(config, gap, switches + [now], false, Clock(now), now, now)
  {
    ElapsedModulo(now, since);
    var more := switches + [now];
    forall k | 0 <= k < |more| - 1 ensures FollowsInTime(config, gap, more, k) {
      assert k < |switches| - 1 ==> FollowsInTime(config, gap, switches, k);
    }
  }

  /** A dwell that is over when a pass comes begins a fade, in time. */
  lemma DwellEndsInTime(config: Config, gap: nat, switches: seq<nat>, stamp: Word32, since: nat, last: nat, now: nat)
    requires Timed(config, gap) && OnTime(config, gap, switches, false, stamp, since, last) && last < now <= last + gap
    requires Sub32(Clock(now), stamp) >= ShownFor(config, |switches| - 1)
    ensures OnTime(config, gap, switches, true, Clock(now), now, now)
  {
    ElapsedModulo(now, since);
  }

  /** Otherwise nothing is overdue. */
  lemma NothingIsDue(config: Config, gap: nat, switches: seq<nat>, fading: bool, stamp: Word32, since: nat, last: nat,
                     now: nat)
    requires Timed(config, gap) && OnTime(config, gap, switches, fading, stamp, since, last) && last < now <= last + gap
    requires Sub32(Clock(now), stamp)
           < if fading then FadesFor(config, |switches|) else ShownFor(config, |switches| - 1)
    ensures OnTime(config, gap, switches, fading, stamp, since, now)
  {
    ElapsedModulo(now, since);
  }

  /** The sequencer is where the show is. */
  ghost predicate Shows(o: Orchestrator, gap: nat, switches: seq<nat>, since: nat, now: nat)
    requires o.config.presets != []
    reads o, o.bus
  {
    && o.Valid() && o.Showing() && |o.visited| == |switches|
    && OnTime(o.config, gap, switches, o.fadeInProgress, if o.fadeInProgress then o.fadeStartMs else o.lastSwitchMs,
              since, now)
  }

  /** One pass keeps the show on time. */
  method Pass(o: Orchestrator, gap: nat, before: seq<nat>, ghost fadingSince: nat, ghost last: nat, now: nat)
    returns (switches: seq<nat>, ghost since: nat)
    requires Timed(o.config, gap) && o.bus.Reliable() && last < now <= last + gap
    requires Shows(o, gap, before, fadingSince, last)
    modifies o, o.bus
    ensures before <= switches && Shows(o, gap, switches, since, now)
  {
    hide OnTime, Sub32, Clock, InStep, Turned, StagedAs, Screen.After, Screen.Sound, Screen.Toward, Screen.Stuck;
    switches, since := before, fadingSince;
    NextOnTheRing(|before| - 1, |o.config.presets|);
    assert o.activePreset == (|before| - 1) % |o.config.presets|;
    assert o.fadeInProgress ==> o.pendingPreset == |before| % |o.config.presets|;
    if o.FadeDue(Clock(now)) {
      FadeEndsInTime(o.config, gap, before, o.fadeStartMs, since, last, now);
      switches, since := before + [now], now;
    } else if o.DwellOver(Clock(now)) {
      DwellEndsInTime(o.config, gap, before, o.lastSwitchMs, since, last, now);
      since := now;
    } else {
      NothingIsDue(o.config, gap, before, o.fadeInProgress, if o.fadeInProgress then o.fadeStartMs else o.lastSwitchMs,
                   since, last, now);
    }
    var ok := o.HandleVisuals(Clock(now));
  }

  /**
   While everything that is published arrives, and passes come at least every `gap`:
   the presets become active in cyclic order, each after the one before was shown
   and the fade to it took its time, within two passes; and none is overdue.
   */
  method SlideShow(config: Config, bus: Bus, start: nat, times: seq<nat>, gap: nat)
    returns (o: Orchestrator, switches: seq<nat>)
    requires config.publishOnStartup && Timed(config, gap) && InTime(start, times, gap)
    requires bus.Reliable() && bus.display.screen.Sound()
    modifies bus
    ensures fresh(o) && o.Valid() && o.config == config && switches != [] && switches[0] == start
    ensures |o.visited| == |switches| && forall k :: 0 <= k < |switches| ==> o.visited[k] == k % |config.presets|
    ensures forall k :: 0 <= k < |switches| - 1 ==> FollowsInTime(config, gap, switches, k)
    ensures Before(start, times, |times|) <= switches[|switches| - 1] + TurnOf(config, |switches| - 1) + gap
  {
    hide OnTime, Sub32, InStep, Turned, StagedAs, Screen.After, Screen.Sound, Screen.Toward, Screen.Stuck;
    o := new Orchestrator(config, bus);
    var started := o.HandleVisuals(Clock(start));
    switches := [start];
    ghost var since := start;
    assert OnTime(config, gap, switches, false, Clock(start), start, start) by { ShowBegins(config, gap, start); }
    for i := 0 to |times|
      invariant fresh(o) && o.config == config && o.bus == bus
      invariant switches != [] && switches[0] == start
      invariant Shows(o, gap, switches, since, Before(start, times, i))
    {
      switches, since := Pass(o, gap, switches, since, Before(start, times, i), times[i]);
    }
    ShowIsOnTime(config, gap, switches, o.fadeInProgress, if o.fadeInProgress then o.fadeStartMs else o.lastSwitchMs,
                 since, Before(start, times, |times|));
  }

  lemma ShowBegins(config: Config, gap: nat, start: nat)
    requires config.presets != []
    ensures OnTime(config, gap, [start], false, Clock(start), start, start)
  {
  }

  lemma ShowIsOnTime(config: Config, gap: nat, switches: seq<nat>, fading: bool, stamp: Word32, since: nat, now: nat)
    requires config.presets != [] && OnTime(config, gap, switches, fading, stamp, since, now)
    ensures forall k :: 0 <= k < |switches| - 1 ==> FollowsInTime(config, gap, switches, k)
    ensures now <= switches[|switches| - 1] + TurnOf(config, |switches| - 1) + gap
  {
  }
}
