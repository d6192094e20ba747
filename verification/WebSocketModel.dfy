/**
 Reassembly of WebSocket messages (RFC 6455, sections 5.4 and 5.5): one transport
 read at a time, as the client does it, and one whole frame at a time, as the
 protocol describes it.
 */
module WebSocketModel {
  import opened Common

  const CONTROL_LIMIT: nat := 125
  const NO_STATUS: nat := 1005

  /** What the transport says of the frame being read; no opcode means that no frame has begun. */
  datatype Opcode = NoFrame | Cont | Text | Binary | Close | Ping | Pong

  predicate IsControl(o: Opcode) {
    o == Close || o == Ping || o == Pong
  }

  /** One transport read: a failure, or bytes of the current frame; `replied` is whether an answer could be sent. */
  datatype Read = ReadError | Read(opcode: Opcode, size: int, fin: bool, bytes: seq<Byte>, replied: bool)

  datatype Error = OperationFailed | InvalidData | Overflow

  datatype Event = Nothing | Message(bytes: seq<Byte>) | Closed(code: nat)

  /** The read state kept between calls; `message` is what is gathered so far. */
  datatype Link = Link(
    opcode: Opcode,
    remaining: nat,
    fin: bool,
    started: bool,
    message: seq<Byte>,
    connected: bool)

  const FRESH := Link(NoFrame, 0, false, false, [], true)

  datatype Result = Waiting(link: Link) | Returned(link: Link, event: Event) | Failed(error: Error)

  function BeginFrame(l: Link): Option<Link> {
    if IsControl(l.opcode) then (if l.fin then Some(l) else None)
    else if l.opcode == Text then (if l.started then None else Some(l.(started := true, message := [])))
    else if l.opcode == Cont then (if l.started then Some(l) else None)
    else None
  }

  /** The status code the client reads from the piece of a close frame that it read last. */
  function CloseCode(bytes: seq<Byte>): nat {
    if |bytes| >= 2 then bytes[0] * 256 + bytes[1] else NO_STATUS
  }

  function FinishControl(l: Link, bytes: seq<Byte>, replied: bool): Result {
    if l.opcode == Pong then Waiting(l)
    else if !replied then Failed(OperationFailed)
    else if l.opcode == Ping then Waiting(l)
    else Returned(l.(connected := false), Closed(CloseCode(bytes)))
  }

  /** Bytes of the current frame. */
  function Absorb(max: nat, l: Link, bytes: seq<Byte>, replied: bool): Result {
    if |bytes| > l.remaining then Failed(Overflow)
    else
      var rest := l.(remaining := l.remaining - |bytes|);
      if IsControl(l.opcode) then (if rest.remaining != 0 then Waiting(rest) else FinishControl(rest, bytes, replied))
      else if |l.message| + |bytes| > max then Failed(Overflow)
      else
        var all := l.message + bytes;
        if rest.remaining != 0 || !l.fin then Waiting(rest.(message := all))
        else Returned(rest.(started := false, message := []), Message(all))
  }

  function Step(max: nat, l: Link, r: Read): Result {
    if r.ReadError? then Failed(OperationFailed)
    else if l.remaining != 0 then Absorb(max, l, r.bytes, r.replied)
    else if r.opcode == NoFrame then
      if r.bytes != [] then Failed(InvalidData) else Returned(l.(opcode := NoFrame), Nothing)
    else if r.size < 0 then Failed(InvalidData)
    else if IsControl(r.opcode) && r.size > CONTROL_LIMIT then Failed(InvalidData)
    else if !IsControl(r.opcode) && r.size > max then Failed(Overflow)
    else
      match BeginFrame(l.(opcode := r.opcode, remaining := r.size, fin := r.fin))
      case None => Failed(InvalidData)
      case Some(begun) => Absorb(max, begun, r.bytes, r.replied)
  }

  /** The message buffer never outgrows its limit. */
  predicate Fits(max: nat, l: Link) {
    |l.message| <= max && (l.remaining != 0 ==> l.opcode != NoFrame)
  }

  lemma StepFits(max: nat, l: Link, r: Read)
    requires Fits(max, l)
    ensures Step(max, l, r).Waiting? ==> Fits(max, Step(max, l, r).link)
    ensures Step(max, l, r).Returned? ==> Fits(max, Step(max, l, r).link)
    ensures Step(max, l, r).Returned? && Step(max, l, r).event.Message? ==> |Step(max, l, r).event.bytes| <= max
  {
  }

  // ------------------------------------------------- a whole stream of reads

  datatype End = Running | ClosedBy(code: nat) | Stopped(error: Error)

  datatype Stream = Stream(link: Link, messages: seq<seq<Byte>>, end: End)

  const OPENED := Stream(FRESH, [], Running)

  function FeedOne(max: nat, s: Stream, r: Read): Stream {
    if s.end != Running then s
    else
      match Step(max, s.link, r)
      case Waiting(l) => s.(link := l)
      case Failed(e) => s.(end := Stopped(e))
      case Returned(l, event) =>
        match event
        case Nothing => s.(link := l)
        case Message(bytes) => s.(link := l, messages := s.messages + [bytes])
        case Closed(code) => s.(link := l, end := ClosedBy(code))
  }

  function Feed(max: nat, s: Stream, chunks: seq<Read>): Stream {
    if chunks == [] then s else FeedOne(max, Feed(max, s, chunks[..|chunks| - 1]), chunks[|chunks| - 1])
  }

  lemma FeedSplit(max: nat, s: Stream, a: seq<Read>, b: seq<Read>)
    ensures Feed(max, s, a + b) == Feed(max, Feed(max, s, a), b)
  {
    if b == [] {
      assert a + b == a;
    } else {
      assert (a + b)[..|a + b| - 1] == a + b[..|b| - 1];
      FeedSplit(max, s, a, b[..|b| - 1]);
    }
  }

  lemma FeedNone(max: nat, s: Stream)
    ensures Feed(max, s, []) == s
  {
  }

  lemma FeedSingle(max: nat, s: Stream, r: Read)
    ensures Feed(max, s, [r]) == FeedOne(max, s, r)
  {
    assert [r][..0] == [];
  }

  lemma FeedStopped(max: nat, s: Stream, chunks: seq<Read>)
    requires s.end != Running
    ensures Feed(max, s, chunks) == s
  {
  }

  /** The header of a new frame breaks a rule, whatever its bytes are. */
  predicate BadHeader(max: nat, started: bool, r: Read)
    requires r.Read?
  {
    r.size < 0
    || (match r.opcode
        case NoFrame => true
        case Binary => true
        case Text => started
        case Cont => !started
        case _ => r.size > 125 || !r.fin)
  }

  /**
   What one read is refused for, in the order of the checks: a failed read; a new
   frame with a bad header, or larger than the limit; more bytes than the frame has
   left, or the message may have; and a ping or close that could not be answered.
   */
  lemma ReadRefusedExactly(max: nat, l: Link, r: Read)
    requires r.Read? && !(l.remaining == 0 && r.opcode == NoFrame && r.bytes == [])
    ensures var starts := l.remaining == 0;
      var opcode, left, fin := if starts then r.opcode else l.opcode, if starts then r.size else l.remaining,
        if starts then r.fin else l.fin;
      var control := opcode == Close || opcode == Ping || opcode == Pong;
      var held := if starts && opcode == Text then 0 else |l.message|;
      var large := starts && r.opcode != NoFrame && r.size > max && !control;
      var result := Step(max, l, r);
      if starts && !large && BadHeader(max, l.started, r) then result == Failed(InvalidData)
      else if large || |r.bytes| > left || (!control && held + |r.bytes| > max) then result == Failed(Overflow)
      else if (opcode == Close || opcode == Ping) && |r.bytes| == left && !r.replied
      then result == Failed(OperationFailed)
      else !result.Failed?
  {
  }

  /** A failed read is reported, and a read that found no frame changes nothing but the opcode. */
  lemma NoFrameRead(max: nat, l: Link, r: Read)
    ensures r.ReadError? ==> Step(max, l, r) == Failed(OperationFailed)
    ensures r.Read? && l.remaining == 0 && r.opcode == NoFrame && r.bytes == [] ==>
      Step(max, l, r) == Returned(l.(opcode := NoFrame), Nothing)
  {
  }

  /** A delivered message leaves nothing of it behind. */
  lemma DeliveryLeavesNothing(max: nat, l: Link, r: Read)
    requires Step(max, l, r).Returned? && Step(max, l, r).event.Message?
    ensures var after := Step(max, l, r).link; after.message == [] && !after.started && after.remaining == 0
  {
  }

  /** The client counts as connected until a close was received. */
  lemma {:induction false} ConnectedUntilClosed(max: nat, chunks: seq<Read>)
    ensures Feed(max, OPENED, chunks).link.connected <==> !Feed(max, OPENED, chunks).end.ClosedBy?
  {
    if chunks != [] {
      hide Feed;
      ConnectedUntilClosed(max, chunks[..|chunks| - 1]);
      FeedLast(max, OPENED, chunks);
    } else {
      FeedNone(max, OPENED);
    }
  }

  lemma FeedLast(max: nat, s: Stream, chunks: seq<Read>)
    requires chunks != []
    ensures Feed(max, s, chunks) == FeedOne(max, Feed(max, s, chunks[..|chunks| - 1]), chunks[|chunks| - 1])
  {
  }

  // -------------------------------------------------------- one receive call

  /** A call's result, and how many of the reads it consumed; it times out after the last of them. */
  datatype Received = Received(result: Result, used: nat)

  /** The loop of one call, over the reads that come before it times out. */
  function ReceiveFrom(max: nat, l: Link, chunks: seq<Read>, k: nat): (q: Received)
    requires k <= |chunks|
    ensures k <= q.used <= |chunks|
    decreases |chunks| - k
  {
    if k == |chunks| then Received(Returned(l, Nothing), k)
    else
      match Step(max, l, chunks[k])
      case Waiting(next) => ReceiveFrom(max, next, chunks, k + 1)
      case done => Received(done, k + 1)
  }

  /** What a stream becomes when a call returns. */
  function AfterCall(s: Stream, result: Result): Stream {
    match result
    case Waiting(l) => s.(link := l)
    case Failed(e) => s.(end := Stopped(e))
    case Returned(l, event) =>
      match event
      case Nothing => s.(link := l)
      case Message(bytes) => s.(link := l, messages := s.messages + [bytes])
      case Closed(code) => s.(link := l, end := ClosedBy(code))
  }

  /** Wherever calls start, return or time out, the stream only sees the reads one after the other. */
  lemma {:induction false} CallsAreTheirReads(max: nat, s: Stream, chunks: seq<Read>, k: nat)
    requires k <= |chunks| && s.end == Running
    ensures var q := ReceiveFrom(max, s.link, chunks, k);
      Feed(max, s, chunks[k..q.used]).messages == AfterCall(s, q.result).messages
      && Feed(max, s, chunks[k..q.used]).end == AfterCall(s, q.result).end
      && (!q.result.Failed? ==> Feed(max, s, chunks[k..q.used]) == AfterCall(s, q.result))
    decreases |chunks| - k
  {
    hide Step, Feed;
    var q := ReceiveFrom(max, s.link, chunks, k);
    FeedNone(max, s);
    if k < |chunks| {
      var one := FeedOne(max, s, chunks[k]);
      FeedSingle(max, s, chunks[k]);
      assert chunks[k..q.used] == [chunks[k]] + chunks[k + 1..q.used];
      FeedSplit(max, s, [chunks[k]], chunks[k + 1..q.used]);
      if Step(max, s.link, chunks[k]).Waiting? {
        CallsAreTheirReads(max, one, chunks, k + 1);
      } else {
        assert chunks[k + 1..q.used] == [];
        FeedNone(max, one);
      }
    } else {
      assert chunks[k..q.used] == [];
    }
  }

  // ---------------------------------------------------- many receive calls

  /** Calls from read `k` on, one after the other while the connection is up; each times out before read `stops[i]`. */
  function Session(max: nat, s: Stream, chunks: seq<Read>, k: nat, stops: seq<nat>): (r: (Stream, nat))
    requires k <= |chunks|
    ensures k <= r.1 <= |chunks|
    decreases |stops|
  {
    if stops == [] || s.end != Running then (s, k)
    else
      var stop := if stops[0] < k then k else if stops[0] > |chunks| then |chunks| else stops[0];
      var q := ReceiveFrom(max, s.link, chunks[..stop], k);
      Session(max, AfterCall(s, q.result), chunks, q.used, stops[1..])
  }

  /** The same as far as anyone can tell: a failed connection's read state does not matter. */
  predicate Agree(a: Stream, b: Stream) {
    a.messages == b.messages && a.end == b.end && (a.end.Stopped? || a.link == b.link)
  }

  /**
   However many calls there are, wherever each begins, returns or times out, the
   stream is the one of all the reads they took, none left out and none twice.
   */
  lemma {:induction false} SessionIsItsReads(max: nat, s: Stream, chunks: seq<Read>, k: nat, stops: seq<nat>)
    requires k <= |chunks|
    ensures var (end, used) := Session(max, s, chunks, k, stops);
      Agree(end, Feed(max, s, chunks[k..used]))
    decreases |stops|
  {
    hide Step, Feed, ReceiveFrom;
    var (end, used) := Session(max, s, chunks, k, stops);
    if stops == [] || s.end != Running {
      assert chunks[k..used] == [];
      FeedNone(max, s);
    } else {
      var stop := if stops[0] < k then k else if stops[0] > |chunks| then |chunks| else stops[0];
      var q := ReceiveFrom(max, s.link, chunks[..stop], k);
      var next := AfterCall(s, q.result);
      CallsAreTheirReads(max, s, chunks[..stop], k);
      assert chunks[..stop][k..q.used] == chunks[k..q.used];
      SessionIsItsReads(max, next, chunks, q.used, stops[1..]);
      assert chunks[k..used] == chunks[k..q.used] + chunks[q.used..used];
      FeedSplit(max, s, chunks[k..q.used], chunks[q.used..used]);
      if q.result.Failed? {
        FeedStopped(max, next, chunks[q.used..used]);
        FeedStopped(max, Feed(max, s, chunks[k..q.used]), chunks[q.used..used]);
      }
    }
  }

  // ---------------------------------------------------- whole frames at once

  datatype Frame = Frame(opcode: Opcode, fin: bool, payload: seq<Byte>)

  const NO_FRAMES := Frames(None, [], Going)

  datatype FrameEnd = Going | Shut | Rejected(error: Error)

  /** The open message, if any, and the messages completed so far. */
  datatype Frames = Frames(open: Option<seq<Byte>>, messages: seq<seq<Byte>>, end: FrameEnd)

  function TakeFrame(max: nat, s: Frames, f: Frame): Frames {
    if s.end != Going then s
    else if IsControl(f.opcode) then
      if |f.payload| > CONTROL_LIMIT || !f.fin then s.(end := Rejected(InvalidData))
      else if f.opcode == Close then s.(end := Shut)
      else s
    else if |f.payload| > max then s.(end := Rejected(Overflow))
    else if f.opcode != Text && f.opcode != Cont then s.(end := Rejected(InvalidData))
    else if (f.opcode == Cont) != s.open.Some? then s.(end := Rejected(InvalidData))
    else
      var all := (if f.opcode == Cont then s.open.value else []) + f.payload;
      if |all| > max then s.(end := Rejected(Overflow))
      else if f.fin then s.(open := None, messages := s.messages + [all])
      else s.(open := Some(all))
  }

  function TakeFrames(max: nat, s: Frames, frames: seq<Frame>): Frames {
    if frames == [] then s else TakeFrame(max, TakeFrames(max, s, frames[..|frames| - 1]), frames[|frames| - 1])
  }

  // --------------------------------------- any split of a frame into reads

  predicate IsIdle(r: Read) {
    r.Read? && r.opcode == NoFrame && r.bytes == []
  }

  /** A read that belongs to frame `f`, whose answers, if any, could be sent. */
  predicate ReadOf(r: Read, f: Frame) {
    r.Read? && r.opcode == f.opcode && r.size == |f.payload| && r.fin == f.fin && r.replied
  }

  function Joined(chunks: seq<Read>): seq<Byte> {
    if chunks == [] then []
    else Joined(chunks[..|chunks| - 1]) + (if chunks[|chunks| - 1].Read? then chunks[|chunks| - 1].bytes else [])
  }

  /** Reads that deliver `f` piece by piece, empty reads included, and stop once its last byte is there. */
  predicate Delivers(chunks: seq<Read>, f: Frame) {
    && f.opcode != NoFrame && chunks != []
    && (forall i :: 0 <= i < |chunks| ==> ReadOf(chunks[i], f))
    && Joined(chunks) == f.payload
    && (forall i :: 0 < i < |chunks| ==> |Joined(chunks[..i])| < |f.payload|)
  }

  /** Why a frame is refused from its header alone. */
  function HeaderFault(max: nat, started: bool, f: Frame): Option<Error> {
    if IsControl(f.opcode) then (if |f.payload| > CONTROL_LIMIT || !f.fin then Some(InvalidData) else None)
    else if |f.payload| > max then Some(Overflow)
    else if f.opcode != Text && f.opcode != Cont then Some(InvalidData)
    else if (f.opcode == Cont) != started then Some(InvalidData)
    else None
  }

  /** What the message buffer holds once `got` bytes of the frame are in. */
  function Gathered(l: Link, f: Frame, got: seq<Byte>): seq<Byte> {
    if IsControl(f.opcode) then l.message else if f.opcode == Cont then l.message + got else got
  }

  /** `t` is stream `s` with the first bytes `got` of frame `f` read, and more to come. */
  predicate Partway(max: nat, s: Stream, f: Frame, got: seq<Byte>, t: Stream) {
    && t.messages == s.messages
    && (match HeaderFault(max, s.link.started, f)
        case Some(e) => t.end == Stopped(e)
        case None =>
          if |Gathered(s.link, f, got)| > max && !IsControl(f.opcode) then t.end == Stopped(Overflow)
          else
            && t.end == Running
            && |got| <= |f.payload|
            && t.link == s.link.(opcode := f.opcode, remaining := |f.payload| - |got|, fin := f.fin,
                                 started := s.link.started || f.opcode == Text,
                                 message := Gathered(s.link, f, got)))
  }

  /** Between frames, the reading side stands where the frame side does. */
  predicate InStep(s: Stream, t: Frames) {
    && s.messages == t.messages
    && (match t.end
        case Going => s.end == Running && s.link.remaining == 0 && s.link.started == t.open.Some?
                      && (t.open.Some? ==> s.link.message == t.open.value)
        case Shut => s.end.ClosedBy?
        case Rejected(e) => s.end == Stopped(e))
  }

  lemma FirstRead(max: nat, s: Stream, f: Frame, r: Read)
    requires s.end == Running && s.link.remaining == 0 && Fits(max, s.link)
    requires f.opcode != NoFrame && ReadOf(r, f) && |r.bytes| < |f.payload|
    ensures Partway(max, s, f, r.bytes, FeedOne(max, s, r))
  {
  }

  lemma NextRead(max: nat, s: Stream, f: Frame, got: seq<Byte>, t: Stream, r: Read)
    requires Partway(max, s, f, got, t) && |got| < |f.payload|
    requires f.opcode != NoFrame && ReadOf(r, f) && |got + r.bytes| < |f.payload|
    ensures Partway(max, s, f, got + r.bytes, FeedOne(max, t, r))
  {
  }

  lemma {:induction false} PrefixRead(max: nat, s: Stream, f: Frame, chunks: seq<Read>, i: nat)
    requires s.end == Running && s.link.remaining == 0 && Fits(max, s.link)
    requires Delivers(chunks, f) && 0 < i < |chunks|
    ensures Partway(max, s, f, Joined(chunks[..i]), Feed(max, s, chunks[..i]))
  {
    assert chunks[..i][..i - 1] == chunks[..i - 1];
    assert ReadOf(chunks[i - 1], f);
    if i == 1 {
      FirstRead(max, s, f, chunks[0]);
    } else {
      PrefixRead(max, s, f, chunks, i - 1);
      NextRead(max, s, f, Joined(chunks[..i - 1]), Feed(max, s, chunks[..i - 1]), chunks[i - 1]);
    }
  }

  lemma OnlyRead(max: nat, s: Stream, t: Frames, f: Frame, r: Read)
    requires t.end == Going && InStep(s, t) && Fits(max, s.link)
    requires f.opcode != NoFrame && ReadOf(r, f) && r.bytes == f.payload
    ensures InStep(FeedOne(max, s, r), TakeFrame(max, t, f))
  {
  }

  lemma LastRead(max: nat, s: Stream, t: Frames, f: Frame, got: seq<Byte>, u: Stream, r: Read)
    requires t.end == Going && InStep(s, t) && Fits(max, s.link)
    requires Partway(max, s, f, got, u) && |got| < |f.payload|
    requires f.opcode != NoFrame && ReadOf(r, f) && got + r.bytes == f.payload
    ensures InStep(FeedOne(max, u, r), TakeFrame(max, t, f))
  {
    assert (s.link.message + got) + r.bytes == s.link.message + f.payload;
    assert [] + f.payload == f.payload;
  }

  /** However a frame is split into reads, the client ends up where the frame takes it. */
  lemma FrameDelivered(max: nat, s: Stream, t: Frames, f: Frame, chunks: seq<Read>)
    requires InStep(s, t) && Fits(max, s.link) && Delivers(chunks, f)
    ensures InStep(Feed(max, s, chunks), TakeFrame(max, t, f))
  {
    if t.end != Going {
      FeedStopped(max, s, chunks);
    } else {
      var n := |chunks| - 1;
      assert ReadOf(chunks[n], f);
      if n == 0 {
        OnlyRead(max, s, t, f, chunks[0]);
      } else {
        PrefixRead(max, s, f, chunks, n);
        LastRead(max, s, t, f, Joined(chunks[..n]), Feed(max, s, chunks[..n]), chunks[n]);
      }
    }
  }

  /** The code reported for a close frame is read from its last piece alone. */
  lemma CloseCodeIsFromLastRead(max: nat, s: Stream, f: Frame, chunks: seq<Read>)
    requires s.end == Running && s.link.remaining == 0 && Fits(max, s.link)
    requires f.opcode == Close && f.fin && |f.payload| <= 125 && Delivers(chunks, f)
    ensures Feed(max, s, chunks).end == ClosedBy(CloseCode(chunks[|chunks| - 1].bytes))
  {
    var n := |chunks| - 1;
    assert ReadOf(chunks[n], f);
    if n == 0 {
      assert chunks[..0] == [];
    } else {
      PrefixRead(max, s, f, chunks, n);
    }
  }

  /** So a status other than 1005 is reported right exactly when the last read still holds it. */
  lemma CloseCodeRightExactly(max: nat, s: Stream, f: Frame, chunks: seq<Read>)
    requires s.end == Running && s.link.remaining == 0 && Fits(max, s.link)
    requires f.opcode == Close && f.fin && 2 <= |f.payload| <= 125 && Delivers(chunks, f)
    requires CloseCode(f.payload) != 1005
    ensures var last := chunks[|chunks| - 1].bytes;
      Feed(max, s, chunks).end == ClosedBy(CloseCode(f.payload))
      <==> |last| >= 2 && last[..2] == f.payload[..2]
  {
    CloseCodeIsFromLastRead(max, s, f, chunks);
    var last := chunks[|chunks| - 1].bytes;
    if |last| >= 2 {
      assert last[..2] == [last[0], last[1]] && f.payload[..2] == [f.payload[0], f.payload[1]];
    }
  }

  /** A normal close read in two pieces is reported as having no status. */
  lemma SplitCloseLosesItsStatus(max: nat)
    ensures var whole := Read(Close, 2, true, [3, 232], true);
      var first := Read(Close, 2, true, [3], true);
      var second := Read(Close, 2, true, [232], true);
      && Feed(max, OPENED, [whole]).end == ClosedBy(1000)
      && Feed(max, OPENED, [first, second]).end == ClosedBy(1005)
  {
    var first := Read(Close, 2, true, [3], true);
    var second := Read(Close, 2, true, [232], true);
    FeedSingle(max, OPENED, Read(Close, 2, true, [3, 232], true));
    FeedSingle(max, OPENED, first);
    assert [first, second][..1] == [first];
  }

  // ------------------------------------------------- any frames, any reads

  function Flat(pieces: seq<seq<Read>>): seq<Read> {
    if pieces == [] then [] else Flat(pieces[..|pieces| - 1]) + pieces[|pieces| - 1]
  }

  /** Each piece carries one frame, in any split, or is a read that found no frame. */
  predicate Carries(pieces: seq<seq<Read>>, frames: seq<Frame>) {
    if pieces == [] then frames == []
    else
      var last := pieces[|pieces| - 1];
      var before := pieces[..|pieces| - 1];
      if |last| == 1 && IsIdle(last[0]) then Carries(before, frames)
      else frames != [] && Delivers(last, frames[|frames| - 1]) && Carries(before, frames[..|frames| - 1])
  }

  lemma {:induction false} FeedFits(max: nat, s: Stream, chunks: seq<Read>)
    requires Fits(max, s.link)
    ensures Fits(max, Feed(max, s, chunks).link)
  {
    if chunks == [] {
    } else {
      FeedFits(max, s, chunks[..|chunks| - 1]);
      StepFits(max, Feed(max, s, chunks[..|chunks| - 1]).link, chunks[|chunks| - 1]);
    }
  }

  lemma IdleInStep(max: nat, s: Stream, t: Frames, r: Read)
    requires InStep(s, t) && IsIdle(r)
    ensures InStep(Feed(max, s, [r]), t)
  {
    FeedSingle(max, s, r);
  }

  /**
   However frames are split into reads, and whatever idle reads and control
   frames come in between, the client delivers the messages of the frames and
   stops exactly where, and why, the frames make it stop.
   */
  lemma {:induction false} ReadsReassembleFrames(max: nat, pieces: seq<seq<Read>>, frames: seq<Frame>)
    requires Carries(pieces, frames)
    ensures InStep(Feed(max, OPENED, Flat(pieces)), TakeFrames(max, NO_FRAMES, frames))
  {
    if pieces == [] {
    } else {
      var last, before := pieces[|pieces| - 1], pieces[..|pieces| - 1];
      FeedSplit(max, OPENED, Flat(before), last);
      FeedFits(max, OPENED, Flat(before));
      if |last| == 1 && IsIdle(last[0]) {
        ReadsReassembleFrames(max, before, frames);
        assert last == [last[0]];
        IdleInStep(max, Feed(max, OPENED, Flat(before)), TakeFrames(max, NO_FRAMES, frames), last[0]);
      } else {
        var n := |frames| - 1;
        ReadsReassembleFrames(max, before, frames[..n]);
        FrameDelivered(max, Feed(max, OPENED, Flat(before)), TakeFrames(max, NO_FRAMES, frames[..n]), frames[n], last);
      }
    }
  }

  /**
   So calls that take all the reads, or stop for good, have delivered the messages
   of the frames, whatever the split into reads and into calls.
   */
  lemma CallsReassembleFrames(max: nat, pieces: seq<seq<Read>>, frames: seq<Frame>, stops: seq<nat>)
    requires Carries(pieces, frames)
    ensures var (end, used) := Session(max, OPENED, Flat(pieces), 0, stops);
      used == |Flat(pieces)| || end.end != Running ==> InStep(end, TakeFrames(max, NO_FRAMES, frames))
  {
    hide Session, Feed, Flat, TakeFrames, Carries;
    var chunks := Flat(pieces);
    var (end, used) := Session(max, OPENED, chunks, 0, stops);
    SessionIsItsReads(max, OPENED, chunks, 0, stops);
    ReadsReassembleFrames(max, pieces, frames);
    assert chunks[0..used] + chunks[used..] == chunks;
    FeedSplit(max, OPENED, chunks[0..used], chunks[used..]);
    if end.end != Running {
      FeedStopped(max, Feed(max, OPENED, chunks[0..used]), chunks[used..]);
    } else {
      FeedNone(max, Feed(max, OPENED, chunks[0..used]));
    }
  }

  // --------------------------------------------------- what a message is

  predicate IsData(f: Frame) {
    !IsControl(f.opcode)
  }

  function DataBytes(frames: seq<Frame>): seq<Byte> {
    if frames == [] then []
    else
      var last := frames[|frames| - 1];
      DataBytes(frames[..|frames| - 1]) + (if IsData(last) then last.payload else [])
  }

  /** Frames `i` to `j` start with a text frame, go on with continuations and control frames, unfinished before `j`. */
  predicate Fragments(frames: seq<Frame>, i: nat, j: nat) {
    && i < j <= |frames| && frames[i].opcode == Text
    && (forall k :: i < k < j && IsData(frames[k]) ==> frames[k].opcode == Cont)
    && (forall k :: i <= k < j - 1 && IsData(frames[k]) ==> !frames[k].fin)
  }

  /** `bytes` is one text frame and its continuations up to the final one, which is frame `j - 1`. */
  predicate IsMessage(frames: seq<Frame>, j: nat, bytes: seq<Byte>) {
    && 0 < j <= |frames| && frames[j - 1].fin && IsData(frames[j - 1])
    && exists i :: 0 <= i < j && Fragments(frames, i, j) && bytes == DataBytes(frames[i..j])
  }

  /** A message was begun by frame `i` and is not finished. */
  predicate OpenFrom(frames: seq<Frame>, i: nat) {
    && i < |frames| && frames[i].opcode == Text
    && (forall k :: i < k < |frames| && IsData(frames[k]) ==> frames[k].opcode == Cont)
    && (forall k :: i <= k < |frames| && IsData(frames[k]) ==> !frames[k].fin)
  }

  /** The last data frame, if any, is not final. */
  predicate Unfinished(frames: seq<Frame>) {
    exists i :: 0 <= i < |frames| && IsData(frames[i]) && !frames[i].fin
                && forall k :: i < k < |frames| ==> !IsData(frames[k])
  }

  lemma UnfinishedAppend(frames: seq<Frame>, f: Frame)
    ensures Unfinished(frames + [f]) <==> if IsData(f) then !f.fin else Unfinished(frames)
  {
    var longer := frames + [f];
    assert longer[|frames|] == f && forall k :: 0 <= k < |frames| ==> longer[k] == frames[k];
  }

  lemma DataBytesAppend(frames: seq<Frame>, f: Frame)
    ensures DataBytes(frames + [f]) == DataBytes(frames) + (if IsData(f) then f.payload else [])
  {
    assert (frames + [f])[..|frames|] == frames;
  }

  lemma OpenFromAppend(frames: seq<Frame>, f: Frame, i: nat)
    requires OpenFrom(frames, i) && (IsData(f) ==> f.opcode == Cont && !f.fin)
    ensures OpenFrom(frames + [f], i) && (frames + [f])[i..] == frames[i..] + [f]
    ensures DataBytes((frames + [f])[i..]) == DataBytes(frames[i..]) + (if IsData(f) then f.payload else [])
  {
    hide DataBytes;
    DataBytesAppend(frames[i..], f);
    assert (frames + [f])[i..] == frames[i..] + [f];
  }

  lemma OpenFromStart(frames: seq<Frame>, f: Frame)
    requires f.opcode == Text && !f.fin
    ensures OpenFrom(frames + [f], |frames|) && DataBytes((frames + [f])[|frames|..]) == f.payload
  {
    DataBytesAppend([], f);
    assert (frames + [f])[|frames|..] == [] + [f];
  }

  /** The frame side's open message is the text frame and the continuations since the last finished message. */
  lemma {:induction false} OpenMessage(max: nat, frames: seq<Frame>)
    requires TakeFrames(max, NO_FRAMES, frames).end == Going
    ensures TakeFrames(max, NO_FRAMES, frames).open.Some? <==> Unfinished(frames)
    ensures TakeFrames(max, NO_FRAMES, frames).open.Some? ==>
      exists i: nat ::
        OpenFrom(frames, i) && TakeFrames(max, NO_FRAMES, frames).open.value == DataBytes(frames[i..])
  {
    if frames == [] {
    } else {
      var before, f := frames[..|frames| - 1], frames[|frames| - 1];
      assert frames == before + [f];
      var open := TakeFrames(max, NO_FRAMES, before).open;
      hide OpenFrom, DataBytes, Unfinished;
      OpenMessage(max, before);
      UnfinishedAppend(before, f);
      if open.Some? && (!IsData(f) || !f.fin) {
        var i: nat :| OpenFrom(before, i) && open.value == DataBytes(before[i..]);
        OpenFromAppend(before, f, i);
      } else if IsData(f) && !f.fin {
        OpenFromStart(before, f);
      }
    }
  }

  lemma FragmentsEnd(frames: seq<Frame>, f: Frame, i: nat)
    requires OpenFrom(frames, i) && f.opcode == Cont && f.fin
    ensures IsMessage(frames + [f], |frames| + 1, DataBytes(frames[i..]) + f.payload)
  {
    var all := frames + [f];
    DataBytesAppend(frames[i..], f);
    assert all[i..|all|] == frames[i..] + [f];
    hide DataBytes;
    assert Fragments(all, i, |all|);
  }

  lemma SingleFragment(frames: seq<Frame>, f: Frame)
    requires f.opcode == Text && f.fin
    ensures IsMessage(frames + [f], |frames| + 1, f.payload)
  {
    var all := frames + [f];
    DataBytesAppend([], f);
    assert all[|frames|..|all|] == [] + [f];
    hide DataBytes;
    assert Fragments(all, |frames|, |all|);
  }

  /**
   A frame that is taken delivers a message exactly when it is the final data
   frame, and the message is then one text frame and all its continuations.
   */
  lemma DeliversWholeMessages(max: nat, frames: seq<Frame>, f: Frame)
    requires TakeFrames(max, NO_FRAMES, frames + [f]).end == Going
    ensures var was := TakeFrames(max, NO_FRAMES, frames).messages;
      var now := TakeFrames(max, NO_FRAMES, frames + [f]).messages;
      if IsData(f) && f.fin
      then |now| == |was| + 1 && now[..|was|] == was && IsMessage(frames + [f], |frames| + 1, now[|was|])
        && |now[|was|]| <= max
      else now == was
  {
    assert (frames + [f])[..|frames|] == frames;
    OpenMessage(max, frames);
    var open := TakeFrames(max, NO_FRAMES, frames).open;
    hide OpenFrom, DataBytes, Unfinished, IsMessage;
    if IsData(f) && f.fin {
      if open.Some? {
        var i: nat :| OpenFrom(frames, i) && open.value == DataBytes(frames[i..]);
        FragmentsEnd(frames, f, i);
      } else {
        SingleFragment(frames, f);
        assert [] + f.payload == f.payload;
      }
    }
  }

  /** What the protocol and the size limit allow after `frames`. */
  ghost predicate Allowed(max: nat, frames: seq<Frame>, f: Frame) {
    if f.opcode == Close || f.opcode == Ping || f.opcode == Pong then f.fin && |f.payload| <= 125
    else
      && (f.opcode == Text || f.opcode == Cont)
      && (f.opcode == Cont <==> Unfinished(frames))
      && |f.payload| <= max
      && forall i: nat :: OpenFrom(frames, i) ==> |DataBytes(frames[i..])| + |f.payload| <= max
  }

  /** No two messages are open at once. */
  lemma OpenFromOne(frames: seq<Frame>, i: nat, j: nat)
    requires OpenFrom(frames, i) && OpenFrom(frames, j)
    ensures i == j
  {
  }

  /** An open message has a last data frame, and it is not final. */
  lemma {:induction false} NoneOpen(frames: seq<Frame>, i: nat, j: nat)
    requires OpenFrom(frames, i) && i < j <= |frames| && forall k :: j <= k < |frames| ==> !IsData(frames[k])
    ensures Unfinished(frames)
  {
    if !IsData(frames[j - 1]) {
      NoneOpen(frames, i, j - 1);
    }
  }

  lemma OpenIsUnique(max: nat, frames: seq<Frame>)
    requires TakeFrames(max, NO_FRAMES, frames).end == Going
    ensures var open := TakeFrames(max, NO_FRAMES, frames).open;
      && (open.Some? <==> Unfinished(frames))
      && (open.Some? <==> exists i: nat :: OpenFrom(frames, i))
      && (forall i: nat :: OpenFrom(frames, i) ==> open == Some(DataBytes(frames[i..])))
  {
    hide DataBytes, Unfinished, TakeFrames;
    OpenMessage(max, frames);
    forall j: nat | OpenFrom(frames, j)
      ensures TakeFrames(max, NO_FRAMES, frames).open == Some(DataBytes(frames[j..]))
    {
      NoneOpen(frames, j, |frames|);
      var i: nat :| OpenFrom(frames, i) && TakeFrames(max, NO_FRAMES, frames).open.value == DataBytes(frames[i..]);
      OpenFromOne(frames, i, j);
    }
  }

  /** A data frame that does not go on with what came before. */
  predicate OutOfSequence(frames: seq<Frame>, f: Frame) {
    (f.opcode != Text && f.opcode != Cont) || ((f.opcode == Cont) != Unfinished(frames))
  }

  /**
   A frame is refused exactly when it breaks the fragmentation rules, the control
   frame rules or the size limit: as too large if it alone is, or with its message
   while it goes on with that, and as invalid else. A close that is not refused
   ends the connection.
   */
  lemma RefusedExactly(max: nat, frames: seq<Frame>, f: Frame)
    requires TakeFrames(max, NO_FRAMES, frames).end == Going
    ensures var end := TakeFrames(max, NO_FRAMES, frames + [f]).end;
      && (end.Rejected? <==> !Allowed(max, frames, f))
      && (end.Shut? <==> f.opcode == Close && Allowed(max, frames, f))
      && (end.Rejected? ==>
            end.error == if IsControl(f.opcode) || (|f.payload| <= max && OutOfSequence(frames, f)) then InvalidData
                         else Overflow)
  {
    hide OpenFrom, DataBytes, Unfinished;
    assert (frames + [f])[..|frames|] == frames;
    OpenIsUnique(max, frames);
  }
}
