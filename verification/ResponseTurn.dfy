/**
 The server's answer to one committed command: the events of a turn, whether they
 form a proper response, and how each processed turn is counted.
 */
module ResponseTurns {

  const NORMAL_CLOSURE: nat := 1000
  const POLICY_VIOLATION: nat := 1008

  datatype Format = Format(sampleWidth: nat, channels: nat, sampleRate: nat)

  /** The size of a decoded delta, which is never empty. */
  type DeltaSize = n: nat | n > 0 witness 1

  datatype Event =
    | NoEvent
    | Unknown
    | Error
    | AudioStarted(format: Format)
    | AudioDelta(size: DeltaSize)
    | AudioDone
    | ResponseDone
    | Closed(code: nat)

  /** One pass of the receive loop: a transport failure, or an event and whether playback took it. */
  datatype Incoming = ReceiveFailed | Got(event: Event, played: bool)

  datatype AbortReason = NoReason | Transport | Protocol | Playback | ResponseTimeout | BeforeResponse

  datatype Outcome = Completed | EmptySample | Aborted(reason: AbortReason)

  datatype Progress = Progress(audioStarted: bool, audioDone: bool, responseDone: bool, responseBytes: nat)

  const NOTHING_YET := Progress(false, false, false, 0)

  datatype Verdict = GoOn(p: Progress) | Over(outcome: Outcome)

  function Step(format: Format, p: Progress, i: Incoming): Verdict
  {
    match i
    case ReceiveFailed => Over(Aborted(Transport))
    case Got(event, played) =>
      match event
      case NoEvent => GoOn(p)
      case Unknown => GoOn(p)
      case Error => Over(Aborted(Protocol))
      case AudioStarted(f) =>
        if p.audioStarted || f != format then Over(Aborted(Protocol))
        else if !played then Over(Aborted(Playback))
        else GoOn(p.(audioStarted := true))
      case AudioDelta(size) =>
        if !p.audioStarted || p.audioDone then Over(Aborted(Protocol))
        else if !played then Over(Aborted(Playback))
        else GoOn(p.(responseBytes := p.responseBytes + size))
      case AudioDone =>
        if !p.audioStarted || p.audioDone then Over(Aborted(Protocol))
        else if p.responseBytes == 0 || !played then Over(Aborted(Playback))
        else GoOn(p.(audioDone := true))
      case ResponseDone => GoOn(p.(responseDone := true))
      case Closed(code) =>
        if code == POLICY_VIOLATION then Over(EmptySample)
        else if code != NORMAL_CLOSURE || !p.audioStarted || !p.audioDone || !p.responseDone
          then Over(Aborted(Protocol))
        else Over(Completed)
  }

  /** The outcome of the events from `k` on, when the response times out after the last of them. */
  function Receive(format: Format, p: Progress, incoming: seq<Incoming>, k: nat): Outcome
    requires k <= |incoming|
    decreases |incoming| - k
  {
    if k == |incoming| then Aborted(ResponseTimeout)
    else
      match Step(format, p, incoming[k])
      case Over(outcome) => outcome
      case GoOn(q) => Receive(format, q, incoming, k + 1)
  }

  // ------------------------------------------ what a proper response looks like

  predicate IsStart(i: Incoming) {
    i.Got? && i.event.AudioStarted?
  }

  predicate IsDelta(i: Incoming) {
    i.Got? && i.event.AudioDelta?
  }

  predicate IsDone(i: Incoming) {
    i.Got? && i.event.AudioDone?
  }

  predicate IsAudio(i: Incoming) {
    IsStart(i) || IsDelta(i) || IsDone(i)
  }

  /** The audio events of a sequence, in order. */
  function AudioOnly(incoming: seq<Incoming>): seq<Incoming> {
    if incoming == [] then []
    else
      var before := AudioOnly(incoming[..|incoming| - 1]);
      var last := incoming[|incoming| - 1];
      if IsAudio(last) then before + [last] else before
  }

  /** A start comes first and only there; a done comes last, after at least one delta. */
  predicate InOrder(audio: seq<Incoming>) {
    forall i :: 0 <= i < |audio| ==>
      (IsStart(audio[i]) <==> i == 0) && (IsDone(audio[i]) ==> i == |audio| - 1 && i >= 2)
  }

  /** An event that stops no turn by itself. */
  predicate Harmless(format: Format, i: Incoming) {
    && i.Got? && !i.event.Error? && !i.event.Closed?
    && (IsAudio(i) ==> i.played)
    && (i.event.AudioStarted? ==> i.event.format == format)
  }

  /** The audio stream so far is an orderly prefix of start, deltas, done. */
  predicate Clean(format: Format, incoming: seq<Incoming>) {
    (forall i :: 0 <= i < |incoming| ==> Harmless(format, incoming[i])) && InOrder(AudioOnly(incoming))
  }

  predicate HasResponseDone(incoming: seq<Incoming>) {
    Got(ResponseDone, true) in incoming || Got(ResponseDone, false) in incoming
  }

  /** An audio event that may follow these; whether playback took it, and whether a done has come too soon, aside. */
  predicate MayFollow(format: Format, audio: seq<Incoming>, i: Incoming)
    requires IsAudio(i)
  {
    if IsStart(i) then audio == [] && i.event.format == format
    else audio != [] && !IsDone(audio[|audio| - 1])
  }

  /** Why an event that ends a turn without completing it does so. */
  function ReasonFor(format: Format, audio: seq<Incoming>, i: Incoming): AbortReason {
    if i.ReceiveFailed? then Transport
    else if IsAudio(i) && MayFollow(format, audio, i) then Playback
    else Protocol
  }

  /** The stream was started, carried at least one delta and was finished. */
  predicate FullStream(audio: seq<Incoming>) {
    |audio| >= 3 && IsDone(audio[|audio| - 1])
  }

  predicate ClosesWith(i: Incoming, code: nat) {
    i.Got? && i.event == Closed(code)
  }

  predicate ProperResponse(format: Format, incoming: seq<Incoming>, n: nat) {
    && n < |incoming| && ClosesWith(incoming[n], 1000)
    && Clean(format, incoming[..n])
    && FullStream(AudioOnly(incoming[..n]))
    && HasResponseDone(incoming[..n])
  }

  predicate EmptyResponse(format: Format, incoming: seq<Incoming>, n: nat) {
    n < |incoming| && ClosesWith(incoming[n], 1008) && Clean(format, incoming[..n])
  }

  /** The flags after an orderly prefix say what its audio stream looks like. */
  ghost predicate Tracks(p: Progress, seen: seq<Incoming>) {
    var audio := AudioOnly(seen);
    && (p.audioStarted <==> audio != [])
    && (p.audioDone <==> audio != [] && IsDone(audio[|audio| - 1]))
    && (p.responseBytes > 0 <==> |audio| >= 2)
    && (p.responseDone <==> HasResponseDone(seen))
  }

  lemma AudioOnlyAppend(seen: seq<Incoming>, i: Incoming)
    ensures AudioOnly(seen + [i]) == AudioOnly(seen) + (if IsAudio(i) then [i] else [])
  {
    assert (seen + [i])[..|seen|] == seen;
  }

  /** An orderly stream stays orderly exactly if the next audio event fits it. */
  lemma InOrderAppend(audio: seq<Incoming>, i: Incoming)
    requires InOrder(audio) && IsAudio(i)
    ensures var finished := audio != [] && IsDone(audio[|audio| - 1]);
      InOrder(audio + [i]) <==> !finished && (IsStart(i) <==> audio == []) && (IsDone(i) ==> |audio| >= 2)
  {
    var longer := audio + [i];
    assert longer[|audio|] == i;
    if audio != [] {
      assert longer[|audio| - 1] == audio[|audio| - 1];
    }
    assert forall k :: 0 <= k < |audio| ==> longer[k] == audio[k];
  }

  /** One more event: the turn goes on exactly if the longer prefix is still orderly. */
  lemma StepTracks(format: Format, p: Progress, seen: seq<Incoming>, i: Incoming)
    requires Clean(format, seen) && Tracks(p, seen)
    ensures Step(format, p, i).GoOn? <==> Clean(format, seen + [i])
    ensures Step(format, p, i).GoOn? ==> Tracks(Step(format, p, i).p, seen + [i])
  {
    AudioOnlyAppend(seen, i);
    var audio := AudioOnly(seen);
    hide AudioOnly;
    assert (seen + [i])[|seen|] == i;
    assert forall k :: 0 <= k < |seen| ==> (seen + [i])[k] == seen[k];
    if IsAudio(i) {
      InOrderAppend(audio, i);
      hide InOrder;
    }
  }

  /** A prefix of an orderly prefix is orderly. */
  lemma {:induction false} CleanPrefix(format: Format, incoming: seq<Incoming>, k: nat, n: nat)
    requires k <= n <= |incoming| && Clean(format, incoming[..n])
    ensures Clean(format, incoming[..k])
    decreases n
  {
    if k == n {
    } else {
      var seen := incoming[..n - 1];
      assert incoming[..n] == seen + [incoming[n - 1]];
      AudioOnlyAppend(seen, incoming[n - 1]);
      var audio := AudioOnly(seen);
      hide AudioOnly;
      assert forall i :: 0 <= i < |audio| ==> AudioOnly(incoming[..n])[i] == audio[i];
      assert forall i :: 0 <= i < |seen| ==> incoming[..n][i] == seen[i];
      CleanPrefix(format, incoming, k, n - 1);
    }
  }

  /** What ends the turn at event `k`, after an orderly prefix. */
  lemma OverTells(format: Format, p: Progress, seen: seq<Incoming>, i: Incoming)
    requires Clean(format, seen) && Tracks(p, seen) && Step(format, p, i).Over?
    ensures Step(format, p, i).outcome == Completed
            <==> ClosesWith(i, 1000) && FullStream(AudioOnly(seen)) && HasResponseDone(seen)
    ensures Step(format, p, i).outcome == EmptySample <==> ClosesWith(i, 1008)
    ensures Step(format, p, i).outcome.Aborted? ==>
      Step(format, p, i).outcome.reason == ReasonFor(format, AudioOnly(seen), i)
  {
    hide AudioOnly, Harmless;
  }

  // ------------------------------------------------------------ main results

  lemma {:induction false} OutcomeFrom(format: Format, p: Progress, incoming: seq<Incoming>, k: nat)
    requires k <= |incoming|
    requires Clean(format, incoming[..k]) && Tracks(p, incoming[..k])
    ensures Receive(format, p, incoming, k) == Completed <==> exists n :: k <= n && ProperResponse(format, incoming, n)
    ensures Receive(format, p, incoming, k) == EmptySample <==> exists n :: k <= n && EmptyResponse(format, incoming, n)
    decreases |incoming| - k
  {
    hide Clean, Tracks, FullStream, HasResponseDone, AudioOnly;
    if k == |incoming| {
    } else {
      var seen, i := incoming[..k], incoming[k];
      assert seen + [i] == incoming[..k + 1];
      StepTracks(format, p, seen, i);
      if Step(format, p, i).GoOn? {
        OutcomeFrom(format, Step(format, p, i).p, incoming, k + 1);
      } else {
        forall n | k < n <= |incoming| && Clean(format, incoming[..n])
          ensures false
        {
          CleanPrefix(format, incoming, k + 1, n);
        }
        OverTells(format, p, seen, i);
        assert k <= k && (ProperResponse(format, incoming, k) <==> Receive(format, p, incoming, k) == Completed);
        assert EmptyResponse(format, incoming, k) <==> Receive(format, p, incoming, k) == EmptySample;
      }
    }
  }

  /**
   A turn completes exactly when its events, up to a normal close, hold one audio
   start, deltas, and one audio done in that order, all taken by playback, and a
   response-done anywhere; it counts as an empty sample exactly when an orderly
   prefix is closed as a policy violation.
   */
  lemma OutcomeIsDecidedByEvents(format: Format, incoming: seq<Incoming>)
    ensures Receive(format, NOTHING_YET, incoming, 0) == Completed <==> exists n :: ProperResponse(format, incoming, n)
    ensures Receive(format, NOTHING_YET, incoming, 0) == EmptySample <==> exists n :: EmptyResponse(format, incoming, n)
  {
    OutcomeFrom(format, NOTHING_YET, incoming, 0);
    assert forall n :: ProperResponse(format, incoming, n) ==> 0 <= n && ProperResponse(format, incoming, n);
    assert forall n :: EmptyResponse(format, incoming, n) ==> 0 <= n && EmptyResponse(format, incoming, n);
  }

  /** Event `n` aborts the turn: the first that does not go on with an orderly stream, nor ends it well. */
  predicate AbortsAt(format: Format, incoming: seq<Incoming>, n: nat, reason: AbortReason) {
    && n < |incoming| && Clean(format, incoming[..n]) && !Clean(format, incoming[..n + 1])
    && !ProperResponse(format, incoming, n) && !EmptyResponse(format, incoming, n)
    && reason == ReasonFor(format, AudioOnly(incoming[..n]), incoming[n])
  }

  lemma {:induction false} AbortFrom(format: Format, p: Progress, incoming: seq<Incoming>, k: nat, reason: AbortReason)
    requires k <= |incoming|
    requires Clean(format, incoming[..k]) && Tracks(p, incoming[..k])
    requires Receive(format, p, incoming, k) == Aborted(reason)
    ensures (reason == ResponseTimeout && Clean(format, incoming))
            || exists n :: k <= n && AbortsAt(format, incoming, n, reason)
    decreases |incoming| - k
  {
    hide Clean, Tracks, FullStream, HasResponseDone, AudioOnly, ReasonFor;
    if k == |incoming| {
      assert incoming[..k] == incoming;
    } else {
      var seen, i := incoming[..k], incoming[k];
      assert seen + [i] == incoming[..k + 1];
      StepTracks(format, p, seen, i);
      if Step(format, p, i).GoOn? {
        AbortFrom(format, Step(format, p, i).p, incoming, k + 1, reason);
      } else {
        OverTells(format, p, seen, i);
        assert AbortsAt(format, incoming, k, reason);
      }
    }
  }

  /**
   A turn is aborted for what its first bad event is: a failed read is a transport
   failure, a fitting audio event that playback did not take, or that ends a stream
   without audio, a playback failure, and anything else breaks the protocol. If all
   is orderly and nothing ends the turn, it has timed out.
   */
  lemma AbortIsDecidedByEvents(format: Format, incoming: seq<Incoming>, reason: AbortReason)
    requires Receive(format, NOTHING_YET, incoming, 0) == Aborted(reason)
    ensures (reason == ResponseTimeout && Clean(format, incoming))
            || exists n :: 0 <= n && AbortsAt(format, incoming, n, reason)
  {
    AbortFrom(format, NOTHING_YET, incoming, 0, reason);
  }

  /** The bytes of all audio deltas. */
  function DeltaBytes(incoming: seq<Incoming>): nat {
    if incoming == [] then 0
    else
      var last := incoming[|incoming| - 1];
      DeltaBytes(incoming[..|incoming| - 1]) + if IsDelta(last) then last.event.size else 0
  }

  // ------------------------------------------------- the session's turn loop

  /** How far a turn got before any response was awaited, and what was received then. */
  datatype Turn = Turn(committed: bool, reason: AbortReason, incoming: seq<Incoming>)

  function TurnOutcome(format: Format, turn: Turn): Outcome {
    if turn.committed then Receive(format, NOTHING_YET, turn.incoming, 0) else Aborted(turn.reason)
  }

  /** How many turns completed, were empty samples, and were aborted. */
  datatype Tally = Tally(completed: nat, empty: nat, aborted: nat)

  function Count(format: Format, turns: seq<Turn>): (t: Tally)
    ensures t.completed + t.empty + t.aborted == |turns|
  {
    if turns == [] then Tally(0, 0, 0)
    else
      var t := Count(format, turns[..|turns| - 1]);
      match TurnOutcome(format, turns[|turns| - 1])
      case Completed => t.(completed := t.completed + 1)
      case EmptySample => t.(empty := t.empty + 1)
      case Aborted(_) => t.(aborted := t.aborted + 1)
  }

  class Session {
    const format: Format
    var turnCompleted: bool
    var turnEmptySample: bool
    var turnAbortReason: AbortReason
    var responseBytes: nat
    var completed: nat
    var emptySample: nat
    var aborted: nat

    constructor (format: Format)
      ensures this.format == format && Counted() == Tally(0, 0, 0)
    {
      this.format := format;
      turnCompleted, turnEmptySample, turnAbortReason, responseBytes := false, false, NoReason, 0;
      completed, emptySample, aborted := 0, 0, 0;
    }

    function Counted(): Tally
      reads this
    {
      Tally(completed, emptySample, aborted)
    }

    /** The flags a turn leaves behind. */
    predicate Shows(outcome: Outcome)
      reads this
    {
      match outcome
      case Completed => turnCompleted && !turnEmptySample && turnAbortReason == NoReason
      case EmptySample => !turnCompleted && turnEmptySample && turnAbortReason == NoReason
      case Aborted(reason) => !turnCompleted && !turnEmptySample && turnAbortReason == reason
    }

    method ReceiveResponse(incoming: seq<Incoming>) returns (ok: bool)
      requires !turnCompleted && !turnEmptySample && turnAbortReason == NoReason && responseBytes == 0
      modifies this`turnCompleted, this`turnEmptySample, this`turnAbortReason, this`responseBytes
      ensures Shows(Receive(format, NOTHING_YET, incoming, 0))
      ensures ok <==> !Receive(format, NOTHING_YET, incoming, 0).Aborted?
      ensures turnCompleted ==>
        exists n :: 0 <= n < |incoming| && ClosesWith(incoming[n], 1000) && responseBytes == DeltaBytes(incoming[..n])
    {
      var audioStarted, audioDone, responseDone := false, false, false;
      var k := 0;
      while k < |incoming|
        invariant k <= |incoming| && !turnCompleted && !turnEmptySample && turnAbortReason == NoReason
        invariant responseBytes == DeltaBytes(incoming[..k])
        invariant Receive(format, Progress(audioStarted, audioDone, responseDone, responseBytes), incoming, k)
               == Receive(format, NOTHING_YET, incoming, 0)
      {
        assert incoming[..k + 1][..k] == incoming[..k];
        if incoming[k].ReceiveFailed? {
          turnAbortReason := Transport;
          return false;
        }
        var event, played := incoming[k].event, incoming[k].played;
        match event {
          case NoEvent =>
          case Unknown =>
          case Error =>
            turnAbortReason := Protocol;
            return false;
          case AudioStarted(f) =>
            if audioStarted || f != format {
              turnAbortReason := Protocol;
              return false;
            }
            if !played {
              turnAbortReason := Playback;
              return false;
            }
            audioStarted := true;
          case AudioDelta(size) =>
            if !audioStarted || audioDone {
              turnAbortReason := Protocol;
              return false;
            }
            responseBytes := responseBytes + size;
            if !played {
              turnAbortReason := Playback;
              return false;
            }
          case AudioDone =>
            if !audioStarted || audioDone {
              turnAbortReason := Protocol;
              return false;
            }
            if responseBytes == 0 || !played {
              turnAbortReason := Playback;
              return false;
            }
            audioDone := true;
          case ResponseDone =>
            responseDone := true;
          case Closed(code) =>
            if code == POLICY_VIOLATION {
              turnEmptySample := true;
              return true;
            }
            if code != NORMAL_CLOSURE || !audioStarted || !audioDone || !responseDone {
              turnAbortReason := Protocol;
              return false;
            }
            turnCompleted := true;
            return true;
        }
        k := k + 1;
      }
      turnAbortReason := ResponseTimeout;
      return false;
    }

    /** A turn from its start to its tally. */
    method ProcessTurn(turn: Turn)
      modifies this
      ensures Shows(TurnOutcome(format, turn))
      ensures Counted() == match TurnOutcome(format, turn)
                           case Completed => old(Counted()).(completed := old(completed) + 1)
                           case EmptySample => old(Counted()).(empty := old(emptySample) + 1)
                           case Aborted(_) => old(Counted()).(aborted := old(aborted) + 1)
    {
      turnCompleted, turnEmptySample, turnAbortReason, responseBytes := false, false, NoReason, 0;
      if turn.committed {
        var _ := ReceiveResponse(turn.incoming);
      } else {
        turnAbortReason := turn.reason;
      }
      if turnCompleted {
        completed := completed + 1;
      } else if turnEmptySample {
        emptySample := emptySample + 1;
      } else {
        aborted := aborted + 1;
      }
    }

    /** Every processed turn is counted once, under its own outcome. */
    method ProcessTurns(turns: seq<Turn>)
      requires Counted() == Tally(0, 0, 0)
      modifies this
      ensures Counted() == Count(format, turns)
      ensures completed + emptySample + aborted == |turns|
    {
      var k := 0;
      while k < |turns|
        invariant k <= |turns| && Counted() == Count(format, turns[..k])
      {
        assert turns[..k + 1][..k] == turns[..k];
        ProcessTurn(turns[k]);
        k := k + 1;
      }
      assert turns[..k] == turns;
    }
  }
}
