/**
 The two visual layers of a display, as its animation engine keeps them: how each
 is mixed in, what runs on it, and the fade between them that may be under way.
 Frames are rendered at any times; a command to a layer cancels a fade.
 */
module LayerScreens {
  import opened Common

  const WORD_16: int := 0x1_0000
  type Word16 = w: int | 0 <= w < WORD_16

  const FULL: Byte := 255

  datatype Layer = Fft | FftAlt

  function Other(layer: Layer): Layer {
    if layer == Fft then FftAlt else Fft
  }

  /** The preset last played on a layer, under which request, whether it still runs there, and how it is mixed in. */
  datatype LayerState = LayerState(played: Option<nat>, request: Word16, running: bool, opacity: Byte, enabled: bool)

  /** A fade towards `to`, away from the other layer. */
  datatype Fade = Fade(to: Layer, startMs: Word32, durationMs: Word16)

  /** The opacity that a fade has given its new layer, rounded to the nearest; the old one keeps the rest. */
  function FadeIn(elapsedMs: nat, durationMs: nat): (r: Byte)
    requires elapsedMs < durationMs
  {
    FadeInFits(elapsedMs, durationMs);
    (elapsedMs * FULL + durationMs / 2) / durationMs
  }

  lemma FadeInFits(elapsedMs: nat, durationMs: nat)
    requires elapsedMs < durationMs
    ensures 0 <= (elapsedMs * FULL + durationMs / 2) / durationMs <= FULL
  {
    assert elapsedMs * FULL + durationMs / 2 < (FULL + 1) * durationMs;
  }

  datatype Screen = Screen(fft: LayerState, fftAlt: LayerState, fade: Option<Fade>) {
    function On(layer: Layer): LayerState {
      if layer == Fft then fft else fftAlt
    }

    function Put(layer: Layer, state: LayerState): Screen {
      if layer == Fft then this.(fft := state) else this.(fftAlt := state)
    }

    // ------------------------------------------------------------ commands

    function Activated(layer: Layer, active: bool): Screen {
      Put(layer, On(layer).(enabled := active)).(fade := None)
    }

    function Dimmed(layer: Layer, opacity: Byte): Screen {
      Put(layer, On(layer).(opacity := opacity)).(fade := None)
    }

    /** Playing under the request of what runs on the other layer takes that away from there. */
    function Playing(layer: Layer, preset: nat, request: Word16): Screen {
      var other := On(Other(layer));
      var taken := request != 0 && other.request == request;
      Put(layer, On(layer).(played := Some(preset), request := request, running := true))
      .Put(Other(layer), other.(running := other.running && !taken))
    }

    /** The layer that a swap fades out, if the display can tell. */
    function Source(first: Layer, second: Layer): Option<Layer> {
      var a, b := On(first), On(second);
      if a.opacity == FULL && b.opacity == 0 then Some(first)
      else if a.opacity == 0 && b.opacity == FULL then Some(second)
      else if a.enabled != b.enabled then Some(if a.enabled then first else second)
      else None
    }

    /** Starts a fade from that layer in full; a swap is refused during a fade, and when it cannot be done. */
    function Swapping(first: Layer, second: Layer, durationMs: Word16, nowMs: Word32): Screen {
      var source := Source(first, second);
      if first == second || durationMs == 0 || fade.Some? || source.None? then this
      else
        var from := source.value;
        Put(from, On(from).(opacity := FULL, enabled := true))
        .Put(Other(from), On(Other(from)).(opacity := 0, enabled := true))
        .(fade := Some(Fade(Other(from), nowMs, durationMs)))
    }

    // -------------------------------------------------------------- frames

    /** The fade is over: its old layer is disabled, and what ran there is stopped. */
    function Completed(): Screen
      requires fade.Some?
    {
      var to := fade.value.to;
      Put(to, On(to).(opacity := FULL, enabled := true))
      .Put(Other(to), On(Other(to)).(opacity := 0, enabled := false, running := false))
      .(fade := None)
    }

    function Rendered(nowMs: Word32): Screen {
      if fade.None? then this
      else
        var f := fade.value;
        var elapsed := Sub32(nowMs, f.startMs);
        if elapsed >= f.durationMs then Completed()
        else
          var fadeIn := FadeIn(elapsed, f.durationMs);
          Put(f.to, On(f.to).(opacity := fadeIn))
          .Put(Other(f.to), On(Other(f.to)).(opacity := FULL - fadeIn))
    }

    /** After frames at these times. */
    function After(frames: seq<Word32>): Screen {
      if frames == [] then this else After(frames[..|frames| - 1]).Rendered(frames[|frames| - 1])
    }

    // -------------------------------------------------------- what is shown

    /** The layer is shown in full and the other one not at all. */
    predicate InFront(layer: Layer) {
      fade.None? && On(layer).opacity == FULL && On(layer).enabled && On(Other(layer)).opacity == 0
    }

    /** The layer that is shown alone, once a fade under way is over. */
    function Toward(): Option<Layer> {
      if fade.Some? then Some(fade.value.to)
      else if InFront(Fft) then Some(Fft)
      else if InFront(FftAlt) then Some(FftAlt)
      else None
    }

    /** Only this layer is shown, or will be, and this preset runs on it. */
    predicate HeadsFor(layer: Layer, preset: nat, request: Word16) {
      Toward() == Some(layer) && On(layer).running && On(layer).played == Some(preset) && On(layer).request == request
    }

    /** No fade is under way and no swap can start one: both layers are enabled and neither is shown in full. */
    predicate Stuck() {
      fade.None? && fft.enabled && fftAlt.enabled && fft.opacity != FULL && fftAlt.opacity != FULL
    }

    /** While a fade is under way both layers are enabled and share the full opacity. */
    predicate Sound() {
      fade.Some? ==> fade.value.durationMs > 0 && fft.enabled && fftAlt.enabled && fft.opacity + fftAlt.opacity == FULL
    }
  }

  /** The display as it starts. */
  const STARTED := Screen(LayerState(None, 0, false, FULL, true), LayerState(None, 0, false, FULL, false), None)

  // ------------------------------------------------------ a fade under way

  lemma RenderedKeeps(s: Screen, nowMs: Word32)
    requires s.Sound()
    ensures s.Rendered(nowMs).Sound() && s.Rendered(nowMs).Toward() == s.Toward()
    ensures s.fade.None? ==> s.Rendered(nowMs) == s
    ensures forall l :: s.Rendered(nowMs).On(l).played == s.On(l).played
    ensures forall l :: s.Toward() == Some(l) ==> s.Rendered(nowMs).On(l).running == s.On(l).running
    ensures forall l :: s.Rendered(nowMs).On(l).request == s.On(l).request
  {
    hide FadeIn;
  }

  /** Frames move a fade on, but never to another layer, and without a fade they change nothing. */
  lemma {:induction false} FramesKeep(s: Screen, frames: seq<Word32>)
    requires s.Sound()
    ensures s.After(frames).Sound() && s.After(frames).Toward() == s.Toward()
    ensures s.fade.None? ==> s.After(frames) == s
    ensures s.Stuck() ==> s.After(frames).Stuck()
    ensures forall l :: s.After(frames).On(l).played == s.On(l).played
    ensures forall l :: s.Toward() == Some(l) ==> s.After(frames).On(l).running == s.On(l).running
    ensures forall l :: s.After(frames).On(l).request == s.On(l).request
  {
    if frames == [] {
    } else {
      hide Screen.Rendered, Screen.Toward, Screen.Sound;
      FramesKeep(s, frames[..|frames| - 1]);
      RenderedKeeps(s.After(frames[..|frames| - 1]), frames[|frames| - 1]);
    }
  }

  lemma OneFrame(s: Screen, nowMs: Word32)
    ensures s.After([nowMs]) == s.Rendered(nowMs)
  {
    assert [nowMs][..0] == [];
  }

  /** A frame at or after its end finishes a fade: its layer is then shown alone, and the other one is off. */
  lemma FadeEnds(s: Screen, nowMs: Word32)
    requires s.fade.Some? && Sub32(nowMs, s.fade.value.startMs) >= s.fade.value.durationMs
    ensures var t, to := s.Rendered(nowMs), s.fade.value.to;
      && t.InFront(to) && !t.On(Other(to)).enabled && !t.On(Other(to)).running
      && t.On(to).running == s.On(to).running
  {
  }

  /** Before that, the new layer has the part of the full opacity that has passed, rounded to the nearest. */
  lemma FadeGoesOn(s: Screen, nowMs: Word32)
    requires s.fade.Some? && Sub32(nowMs, s.fade.value.startMs) < s.fade.value.durationMs
    ensures var t, f := s.Rendered(nowMs), s.fade.value;
      var elapsed, part := Sub32(nowMs, f.startMs), t.On(f.to).opacity;
      && t.fade == s.fade && part + t.On(Other(f.to)).opacity == 255
      && 2 * part * f.durationMs <= 2 * elapsed * 255 + f.durationMs
      && 2 * elapsed * 255 < 2 * part * f.durationMs + f.durationMs + 2
  {
    var f := s.fade.value;
    var elapsed := Sub32(nowMs, f.startMs);
    var sum, part := elapsed * 255 + f.durationMs / 2, FadeIn(elapsed, f.durationMs);
    assert sum == part * f.durationMs + sum % f.durationMs;
  }

  // ----------------------------------------------------------------- swaps

  /**
   A swap fades from the one of its layers that is shown, whichever is named first: the
   one that is in full while the other is out, or else the only one that is enabled.
   */
  lemma SwapFadesFromShown(s: Screen, first: Layer, second: Layer, durationMs: Word16, nowMs: Word32)
    requires first != second
    ensures var t := s.Swapping(first, second, durationMs, nowMs);
      var a, b := s.On(first), s.On(second);
      var fromFirst := (a.opacity == 255 && b.opacity == 0)
                       || (!(a.opacity == 0 && b.opacity == 255) && a.enabled && !b.enabled);
      var fromSecond := (a.opacity == 0 && b.opacity == 255)
                        || (!(a.opacity == 255 && b.opacity == 0) && b.enabled && !a.enabled);
      if durationMs == 0 || s.fade.Some? || (!fromFirst && !fromSecond) then t == s
      else
        && t.fade == Some(Fade(if fromFirst then second else first, nowMs, durationMs))
        && t.On(first) == a.(opacity := if fromFirst then 255 else 0, enabled := true)
        && t.On(second) == b.(opacity := if fromFirst then 0 else 255, enabled := true)
  {
  }

  // -------------------------------------------------------------- stagings

  /** The display after all four commands of a staging, the last of them at `nowMs`. */
  function Staged(was: Screen, active: Layer, next: nat, request: Word16, fadeMs: Word16, nowMs: Word32): Screen {
    was.Activated(Other(active), true).Dimmed(Other(active), 0).Playing(Other(active), next, request)
       .Swapping(active, Other(active), fadeMs, nowMs)
  }

  /** Where a staging leaves the display, told from the opacity and the enable of the active layer at its first
      command. */
  function Ends(was: Screen, active: Layer, fadeMs: Word16): Option<Layer> {
    var a := was.On(active);
    if fadeMs == 0 then (if a.opacity == FULL && a.enabled then Some(active) else None)
    else if a.opacity == FULL then Some(Other(active))
    else if !a.enabled then Some(active)
    else None
  }

  /**
   Whatever the display shows when the first command of a staging arrives, a fade
   under way included: it goes to the hidden layer exactly if the active one is
   shown in full just then, back to the active one exactly if that is disabled
   and not in full, and is stuck otherwise.
   */
  lemma StagingEnds(was: Screen, active: Layer, next: nat, request: Word16, fadeMs: Word16, nowMs: Word32)
    ensures var s := Staged(was, active, next, request, fadeMs, nowMs);
      && s.Toward() == Ends(was, active, fadeMs) && s.Sound()
      && (fadeMs > 0 ==> (s.Toward() == Some(Other(active)) <==> was.On(active).opacity == FULL))
      && (fadeMs > 0 ==> (s.Toward() == Some(active) <==> was.On(active).opacity != FULL && !was.On(active).enabled))
      && (fadeMs > 0 ==> (s.Stuck() <==> was.On(active).opacity != FULL && was.On(active).enabled))
      && s.On(active).played == was.On(active).played && s.On(Other(active)).played == Some(next)
  {
  }

  /** A fade to the hidden layer starts with that layer out; a display that gets stuck has it out, and the active one
      as it was. */
  lemma StagingStarts(was: Screen, active: Layer, next: nat, request: Word16, fadeMs: Word16, nowMs: Word32)
    requires fadeMs > 0
    ensures var s := Staged(was, active, next, request, fadeMs, nowMs);
      && (s.Toward() == Some(Other(active)) ==>
            s.fade == Some(Fade(Other(active), nowMs, fadeMs)) && s.On(Other(active)).opacity == 0)
      && (s.Stuck() ==> s.On(Other(active)).opacity == 0 && s.On(active).opacity == was.On(active).opacity)
  {
  }

  /**
   A staging that meets a fade to its own hidden layer, as one does that is
   repeated because its swap was delivered but reported as failed: it goes on to
   that layer if no frame has moved the fade yet, and gets stuck if one has.
   */
  lemma RepeatedStagingEnds(was: Screen, active: Layer, next: nat, request: Word16, fadeMs: Word16, nowMs: Word32)
    requires was.Sound() && was.fade.Some? && was.fade.value.to == Other(active) && fadeMs > 0
    ensures var s := Staged(was, active, next, request, fadeMs, nowMs);
      && (s.Toward() == Some(Other(active)) <==> was.On(Other(active)).opacity == 0)
      && (s.Stuck() <==> was.On(Other(active)).opacity > 0)
  {
    StagingEnds(was, active, next, request, fadeMs, nowMs);
    hide Staged, Ends, Screen.Toward;
  }

  /** A staging under way whose swap has not arrived: nothing has, or the hidden layer is being made ready. */
  predicate Readying(was: Screen, s: Screen, active: Layer, request: Word16) {
    var before, after := was.On(Other(active)), s.On(Other(active));
    s == was ||
    (&& s.fade.None? && after.enabled && (after.opacity == before.opacity || after.opacity == 0)
     && s.On(active) == was.On(active).(running := s.On(active).running)
     && (request == 0 || request != was.On(active).request ==> s.On(active).running == was.On(active).running))
  }

  /** It cancels a fade, so the active layer is left in front exactly if it was in full and enabled and the other one
      is out. */
  lemma ReadyingEnds(was: Screen, s: Screen, active: Layer, request: Word16)
    requires Readying(was, s, active, request) && s != was
    ensures s.Toward() == Some(active)
       <==> was.On(active).opacity == FULL && was.On(active).enabled && s.On(Other(active)).opacity == 0
    ensures was.Stuck() ==> s.Stuck()
  {
  }

  /** Enabling or disabling both layers cancels a fade, so a layer is left in front exactly if it was in full, alone,
      and is enabled. */
  lemma EnablingEnds(was: Screen, fftActive: bool, fftAltActive: bool, layer: Layer)
    ensures was.Activated(Fft, fftActive).Activated(FftAlt, fftAltActive).Toward() == Some(layer)
       <==> was.On(layer).opacity == FULL && was.On(Other(layer)).opacity == 0
            && (if layer == Fft then fftActive else fftAltActive)
  {
  }

  // ----------------------------------------------------- stuck for good

  /** No frames and no command of a later staging, nor playing again, gets a stuck display going. */
  lemma StuckForGood(s: Screen, layer: Layer, other: Layer, preset: nat, request: Word16, durationMs: Word16,
                     nowMs: Word32, frames: seq<Word32>)
    requires s.Stuck()
    ensures s.After(frames) == s
    ensures s.Activated(layer, true).Stuck() && s.Dimmed(layer, 0).Stuck() && s.Playing(layer, preset, request).Stuck()
    ensures s.Swapping(layer, other, durationMs, nowMs) == s
  {
    FramesKeep(s, frames);
  }
}
