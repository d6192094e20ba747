/** What holds of every run of the front end and the network task, and that runs do commit. */
module UploadRuns {
  import opened Common
  import opened ByteRing
  import opened AssistantUpload

  lemma {:induction false} RunIsSound(cfg: Config, actions: seq<Action>)
    requires ValidConfig(cfg)
    ensures Sound(cfg, Run(cfg, actions))
  {
    if actions == [] {
      StartIsSound(cfg);
    } else {
      RunIsSound(cfg, actions[..|actions| - 1]);
      DoKeeps(cfg, Run(cfg, actions[..|actions| - 1]), actions[|actions| - 1]);
    }
  }

  /**
   Whatever the interleaving, a committed turn has uploaded exactly what was
   heard since its wake word: in order, nothing dropped, nothing repeated, in
   payloads of whole samples within the append limit, after speech that ended by
   silence or by the time limit.
   */
  lemma CommitUploadsWhatWasHeard(cfg: Config, actions: seq<Action>, i: nat)
    requires ValidConfig(cfg) && i < |Run(cfg, actions).commits|
    ensures var c := Run(cfg, actions).commits[i];
      && Concat(c.payloads) == c.heard
      && (forall j :: 0 <= j < |c.payloads| ==> 0 < |c.payloads[j]| <= cfg.append && |c.payloads[j]| % 2 == 0)
      && (c.end == VadSilence || c.end == MaximumDuration) && c.speech
  {
    RunIsSound(cfg, actions);
    var c := Run(cfg, actions).commits[i];
    assert GoodCommit(cfg, c);
    assert forall j :: 0 <= j < |c.payloads| ==> GoodPayload(cfg, c.payloads[j]);
  }

  // ------------------------------------------------------- turns that commit

  /** Takes one more step of a run. */
  lemma Then(cfg: Config, actions: seq<Action>, a: Action) returns (longer: seq<Action>)
    ensures Run(cfg, longer) == Do(cfg, Run(cfg, actions), a)
  {
    longer := actions + [a];
    assert longer[..|longer| - 1] == actions;
  }

  lemma RunOfNothing(cfg: Config)
    ensures Run(cfg, []) == Start(cfg)
  {
  }

  /** A turn in which speech is being heard: what was heard, is queued, buffered and sent, and where both sides
      stand. */
  function Listening(cfg: Config, head: nat, heard: seq<Byte>, content: seq<Byte>, upload: seq<Byte>,
                     sent: seq<seq<Byte>>, afe: Afe, net: Net): Sys {
    Sys(Turn(Recording, NotEnded, true, 0, true, Some(Speech)), Ring(cfg.capacity, head, content, 0), upload, sent,
        afe, net, heard, [])
  }

  /** The same turn after its last frame has ended it. */
  function Ended(cfg: Config, head: nat, heard: seq<Byte>, upload: seq<Byte>, sent: seq<seq<Byte>>, end: CaptureEnd,
                 net: Net): Sys {
    Listening(cfg, head, heard, [], upload, sent, AfeIdle, net)
      .(turn := Turn(AwaitingResponse, end, false, 0, true, Some(Speech)))
  }

  /** A wake frame starts the turn and passes the gate. */
  lemma WakeStartsTurn(cfg: Config, f: Frame) returns (actions: seq<Action>)
    requires ValidConfig(cfg) && f.wake
    ensures Run(cfg, actions)
         == Start(cfg).(turn := Turn(Recording, NotEnded, true, 0, false, None), heard := f.samples,
                        afe := Capturing(f))
  {
    hide Run, ValidRing;
    actions := Then(cfg, [], NewFrame(f));
    RunOfNothing(cfg);
    actions := Then(cfg, actions, StepAfe);
    actions := Then(cfg, actions, StepAfe);
    assert Run(cfg, actions) == Start(cfg).(afe := ClearingEnd(f));
    actions := Then(cfg, actions, StepAfe);
    actions := Then(cfg, actions, StepAfe);
    actions := Then(cfg, actions, StepAfe);
    assert Run(cfg, actions) == Start(cfg).(afe := Publishing(f), turn := Start(cfg).turn.(accepting := true));
    actions := Then(cfg, actions, StepAfe);
    actions := Then(cfg, actions, StepAfe);
    assert [] + f.samples == f.samples;
  }

  /** It is speech already, and the network task connects meanwhile. */
  lemma WakeListens(cfg: Config) returns (actions: seq<Action>)
    requires ValidConfig(cfg)
    ensures Run(cfg, actions) == Listening(cfg, 0, [], [], [], [], AfeIdle, AtLoop)
  {
    hide Run, ValidRing;
    var f := Frame([], true, Speech, false, false);
    var go := StepNet(true, NotEnded);
    actions := WakeStartsTurn(cfg, f);
    actions := Then(cfg, actions, StepAfe);
    actions := Then(cfg, actions, StepAfe);
    actions := Then(cfg, actions, StepAfe);
    assert Run(cfg, actions) == Listening(cfg, 0, [], [], [], [], AfeIdle, NetIdle);
    actions := Then(cfg, actions, go);
    actions := Then(cfg, actions, go);
    actions := Then(cfg, actions, go);
  }

  /** A frame of speech passes the gate ... */
  lemma FrameIsHeard(cfg: Config, before: seq<Action>, head: nat, heard: seq<Byte>, upload: seq<Byte>,
                     sent: seq<seq<Byte>>, f: Frame)
    returns (actions: seq<Action>)
    requires Run(cfg, before) == Listening(cfg, head, heard, [], upload, sent, AfeIdle, AtLoop)
    ensures Run(cfg, actions) == Listening(cfg, head, heard + f.samples, [], upload, sent, Capturing(f), AtLoop)
  {
    hide Run, ValidRing;
    actions := Then(cfg, before, NewFrame(f));
    actions := Then(cfg, actions, StepAfe);
    actions := Then(cfg, actions, StepAfe);
  }

  /** ... and is queued on the ring ... */
  lemma FrameIsQueued(cfg: Config, before: seq<Action>, head: nat, heard: seq<Byte>, upload: seq<Byte>,
                      sent: seq<seq<Byte>>, f: Frame)
    returns (actions: seq<Action>)
    requires 0 < |f.samples| <= cfg.capacity
    requires Run(cfg, before) == Listening(cfg, head, heard, [], upload, sent, Capturing(f), AtLoop)
    ensures Run(cfg, actions) == Listening(cfg, head, heard, f.samples, upload, sent, AfterCapture(f), AtLoop)
  {
    hide Run, ValidRing;
    actions := Then(cfg, before, StepAfe);
    actions := Then(cfg, actions, StepAfe);
    actions := Then(cfg, actions, StepAfe);
    assert Run(cfg, actions).afe == Sending(f);
    assert [] + f.samples == f.samples;
    actions := Then(cfg, actions, StepAfe);
    actions := Then(cfg, actions, StepAfe);
  }

  /** ... and the capture goes on. */
  lemma FrameIsJudged(cfg: Config, before: seq<Action>, head: nat, heard: seq<Byte>, content: seq<Byte>,
                      upload: seq<Byte>, sent: seq<seq<Byte>>, f: Frame)
    returns (actions: seq<Action>)
    requires f.vad == Speech && !f.noSpeechElapsed && !f.maximumElapsed
    requires Run(cfg, before) == Listening(cfg, head, heard, content, upload, sent, AfterCapture(f), AtLoop)
    ensures Run(cfg, actions) == Listening(cfg, head, heard, content, upload, sent, AfeIdle, AtLoop)
  {
    hide Run, ValidRing;
    actions := Then(cfg, before, StepAfe);
    actions := Then(cfg, actions, StepAfe);
  }

  /** What is buffered and what has been sent once these bytes are in the buffer and a full buffer has been sent. */
  function Pushed(cfg: Config, bytes: seq<Byte>, sent: seq<seq<Byte>>): (seq<Byte>, seq<seq<Byte>>) {
    if |bytes| == cfg.append then ([], sent + [bytes]) else (bytes, sent)
  }

  /** One round of the upload loop takes a piece off the ring. */
  lemma PieceIsTaken(cfg: Config, before: seq<Action>, head: nat, heard: seq<Byte>, content: seq<Byte>,
                     upload: seq<Byte>, sent: seq<seq<Byte>>)
    returns (actions: seq<Action>, next: nat, n: nat)
    requires head < cfg.capacity && content != [] && |upload| < cfg.append && |upload| + |content| <= cfg.append
    requires Run(cfg, before) == Listening(cfg, head, heard, content, upload, sent, AfeIdle, AtLoop)
    ensures 0 < n <= |content| && next < cfg.capacity
    ensures Run(cfg, actions)
         == Listening(cfg, next, heard, content[n..], upload + content[..n], sent, AfeIdle, Flushing(false))
  {
    hide Run, ValidRing;
    var go := StepNet(true, NotEnded);
    n := Piece(Ring(cfg.capacity, head, content, 0), cfg.append - |upload|);
    next := if head + n == cfg.capacity then 0 else head + n;
    actions := Then(cfg, before, go);
    actions := Then(cfg, actions, go);
    assert Run(cfg, actions) == Listening(cfg, head, heard, content, upload, sent, AfeIdle, Receiving(false));
    actions := Then(cfg, actions, go);
    assert Run(cfg, actions).net == Copying(false, content[..n]);
    actions := Then(cfg, actions, go);
    actions := Then(cfg, actions, go);
  }

  lemma BufferIsFlushed(cfg: Config, before: seq<Action>, head: nat, heard: seq<Byte>, content: seq<Byte>,
                        upload: seq<Byte>, sent: seq<seq<Byte>>)
    returns (actions: seq<Action>)
    requires Run(cfg, before) == Listening(cfg, head, heard, content, upload, sent, AfeIdle, Flushing(false))
    ensures var (up, out) := Pushed(cfg, upload, sent);
      Run(cfg, actions) == Listening(cfg, head, heard, content, up, out, AfeIdle, AtLoop)
  {
    hide Run, ValidRing;
    actions := Then(cfg, before, StepNet(true, NotEnded));
  }

  /** Round after round takes all of it, however the ring cuts it up. */
  lemma {:induction false} AllIsTaken(cfg: Config, before: seq<Action>, head: nat, heard: seq<Byte>, content: seq<Byte>,
                                      upload: seq<Byte>, sent: seq<seq<Byte>>)
    returns (actions: seq<Action>, next: nat)
    requires head < cfg.capacity && content != [] && |upload| < cfg.append && |upload| + |content| <= cfg.append
    requires Run(cfg, before) == Listening(cfg, head, heard, content, upload, sent, AfeIdle, AtLoop)
    ensures next < cfg.capacity
    ensures var (up, out) := Pushed(cfg, upload + content, sent);
      Run(cfg, actions) == Listening(cfg, next, heard, [], up, out, AfeIdle, AtLoop)
    decreases |content|
  {
    hide Run, Listening;
    var n: nat;
    actions, next, n := PieceIsTaken(cfg, before, head, heard, content, upload, sent);
    actions := BufferIsFlushed(cfg, actions, next, heard, content[n..], upload + content[..n], sent);
    if n == |content| {
      assert content[n..] == [] && content[..n] == content;
    } else {
      actions, next := AllIsTaken(cfg, actions, next, heard, content[n..], upload + content[..n], sent);
      assert upload + content[..n] + content[n..] == upload + content;
    }
  }

  /** A frame of speech that fits the upload buffer is uploaded. */
  lemma FrameIsUploaded(cfg: Config, before: seq<Action>, head: nat, heard: seq<Byte>, upload: seq<Byte>,
                        sent: seq<seq<Byte>>, samples: Pcm)
    returns (actions: seq<Action>, next: nat)
    requires ValidConfig(cfg) && head < cfg.capacity && samples != []
    requires |upload| < cfg.append && |upload| + |samples| <= cfg.append
    requires Run(cfg, before) == Listening(cfg, head, heard, [], upload, sent, AfeIdle, AtLoop)
    ensures next < cfg.capacity
    ensures var (up, out) := Pushed(cfg, upload + samples, sent);
      Run(cfg, actions) == Listening(cfg, next, heard + samples, [], up, out, AfeIdle, AtLoop)
  {
    hide Run, Listening;
    var f := Frame(samples, false, Speech, false, false);
    actions := FrameIsHeard(cfg, before, head, heard, upload, sent, f);
    actions := FrameIsQueued(cfg, actions, head, heard + samples, upload, sent, f);
    actions := FrameIsJudged(cfg, actions, head, heard + samples, samples, upload, sent, f);
    actions, next := AllIsTaken(cfg, actions, head, heard + samples, samples, upload, sent);
  }

  /** A command that fills any number of payloads. */
  lemma {:induction false} PayloadsAreSent(cfg: Config, payloads: seq<Pcm>) returns (actions: seq<Action>, head: nat)
    requires ValidConfig(cfg) && forall p :: p in payloads ==> |p| == cfg.append
    ensures head < cfg.capacity
    ensures Run(cfg, actions) == Listening(cfg, head, Concat(payloads), [], [], payloads, AfeIdle, AtLoop)
  {
    hide Run, Listening;
    if payloads == [] {
      actions := WakeListens(cfg);
      head := 0;
    } else {
      var before, last := payloads[..|payloads| - 1], payloads[|payloads| - 1];
      actions, head := PayloadsAreSent(cfg, before);
      actions, head := FrameIsUploaded(cfg, actions, head, Concat(before), [], before, last);
      assert [] + last == last && payloads == before + [last];
    }
  }

  /** A quiet frame after speech ends the capture, and so does one at the time limit. */
  lemma LastFrameEndsCapture(cfg: Config, before: seq<Action>, head: nat, heard: seq<Byte>, upload: seq<Byte>,
                             sent: seq<seq<Byte>>, end: CaptureEnd)
    returns (actions: seq<Action>)
    requires Eligible(end) && Run(cfg, before) == Listening(cfg, head, heard, [], upload, sent, AfeIdle, AtLoop)
    ensures Run(cfg, actions) == Ended(cfg, head, heard, upload, sent, end, AtLoop)
  {
    hide Run, ValidRing;
    var f := Frame([], false, if end == VadSilence then Silence else Speech, false, end == MaximumDuration);
    actions := FrameIsHeard(cfg, before, head, heard, upload, sent, f);
    assert heard + [] == heard;
    actions := Then(cfg, actions, StepAfe);
    actions := Then(cfg, actions, StepAfe);
    assert Run(cfg, actions) == Listening(cfg, head, heard, [], upload, sent, AtEndpoint(f), AtLoop);
    actions := Then(cfg, actions, StepAfe);
  }

  /** The drain finds nothing more, the turn is judged ... */
  lemma EndIsJudged(cfg: Config, before: seq<Action>, head: nat, heard: seq<Byte>, upload: seq<Byte>,
                    sent: seq<seq<Byte>>, end: CaptureEnd)
    returns (actions: seq<Action>)
    requires Eligible(end) && |upload| < cfg.append
    requires Run(cfg, before) == Ended(cfg, head, heard, upload, sent, end, AtLoop)
    ensures Run(cfg, actions) == Ended(cfg, head, heard, upload, sent, end, SendingLast)
  {
    hide Run, ValidRing;
    var go := StepNet(true, NotEnded);
    actions := Then(cfg, before, go);
    actions := Then(cfg, actions, go);
    assert Run(cfg, actions) == Ended(cfg, head, heard, upload, sent, end, Receiving(true));
    actions := Then(cfg, actions, go);
    actions := Then(cfg, actions, go);
    actions := Then(cfg, actions, go);
  }

  /** ... and what is left in the buffer is sent, and the turn committed. */
  lemma RestIsCommitted(cfg: Config, before: seq<Action>, head: nat, heard: seq<Byte>, upload: seq<Byte>,
                        sent: seq<seq<Byte>>, end: CaptureEnd)
    returns (actions: seq<Action>)
    requires Run(cfg, before) == Ended(cfg, head, heard, upload, sent, end, SendingLast)
    ensures Run(cfg, actions).commits
         == [Commit(heard, if upload == [] then sent else sent + [upload], end, true)]
  {
    hide Run, ValidRing;
    var go := StepNet(true, NotEnded);
    actions := Then(cfg, before, go);
    actions := Then(cfg, actions, go);
  }

  /**
   Turns do commit: any command can be captured, uploaded and committed, in as many
   full payloads as it fills and one more for what is left, whether it ends by
   silence or at the time limit.
   */
  lemma AnyCommandCanCommit(cfg: Config, payloads: seq<Pcm>, rest: Pcm, end: CaptureEnd)
    returns (actions: seq<Action>)
    requires ValidConfig(cfg) && (end == VadSilence || end == MaximumDuration)
    requires (forall p :: p in payloads ==> |p| == cfg.append) && |rest| < cfg.append
    ensures Run(cfg, actions).commits
         == [Commit(Concat(payloads) + rest, if rest == [] then payloads else payloads + [rest], end, true)]
  {
    hide Run, Listening, Ended, Concat;
    var head: nat;
    var heard := Concat(payloads);
    actions, head := PayloadsAreSent(cfg, payloads);
    if rest != [] {
      actions, head := FrameIsUploaded(cfg, actions, head, heard, [], payloads, rest);
      assert [] + rest == rest;
    }
    assert rest == [] ==> heard + rest == heard;
    actions := LastFrameEndsCapture(cfg, actions, head, heard + rest, rest, payloads, end);
    actions := EndIsJudged(cfg, actions, head, heard + rest, rest, payloads, end);
    actions := RestIsCommitted(cfg, actions, head, heard + rest, rest, payloads, end);
  }
}
