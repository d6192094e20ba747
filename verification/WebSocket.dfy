/** The client's receive call, working in place on its message buffer and frame counters. */
module WebSockets {
  import opened Common
  import opened WebSocketModel

  datatype Reply = Event(event: WebSocketModel.Event) | Fault(error: Error) | NotConnected

  class AssistantWebSocket {
    const maximumInboundEventBytes: nat
    const message: array<Byte>
    var messageSize: nat
    var frameRemaining: nat
    var frameOpcode: Opcode
    var frameFinal: bool
    var messageStarted: bool
    var connected: bool

    constructor (maximumInboundEventBytes: nat)
      ensures Valid() && fresh(message) && View() == FRESH
      ensures this.maximumInboundEventBytes == maximumInboundEventBytes
    {
      this.maximumInboundEventBytes := maximumInboundEventBytes;
      message := new Byte[maximumInboundEventBytes + 1];
      messageSize, frameRemaining, frameOpcode, frameFinal, messageStarted := 0, 0, NoFrame, false, false;
      connected := true;
    }

    ghost predicate Valid()
      reads this
    {
      && message.Length == maximumInboundEventBytes + 1
      && messageSize <= maximumInboundEventBytes
    }

    ghost function View(): Link
      reads this, message
      requires messageSize <= message.Length
    {
      Link(frameOpcode, frameRemaining, frameFinal, messageStarted, message[..messageSize], connected)
    }

    /** Closing the connection forgets any frame or message under way. */
    method Disconnect()
      requires Valid()
      modifies this
      ensures Valid() && View() == FRESH.(connected := false)
    {
      connected := false;
      frameOpcode, frameRemaining, frameFinal, messageStarted, messageSize := NoFrame, 0, false, false, 0;
    }

    method BeginFrame() returns (ok: bool)
      requires Valid()
      modifies this`messageStarted, this`messageSize
      ensures Valid() && ok == WebSocketModel.BeginFrame(old(View())).Some?
      ensures ok ==> View() == WebSocketModel.BeginFrame(old(View())).value
      ensures !ok ==> View() == old(View())
    {
      if IsControl(frameOpcode) {
        return frameFinal;
      }
      if frameOpcode == Text {
        if messageStarted {
          return false;
        }
        messageStarted, messageSize := true, 0;
        return true;
      }
      if frameOpcode == Cont {
        return messageStarted;
      }
      return false;
    }

    method Append(bytes: seq<Byte>)
      requires Valid() && messageSize + |bytes| <= maximumInboundEventBytes
      modifies this`messageSize, message
      ensures Valid() && View() == old(View()).(message := old(View()).message + bytes)
    {
      ghost var before := message[..messageSize];
      var i := 0;
      while i < |bytes|
        invariant messageSize == old(messageSize) && i <= |bytes| && message[..messageSize + i] == before + bytes[..i]
      {
        message[messageSize + i] := bytes[i];
        i := i + 1;
      }
      messageSize := messageSize + |bytes|;
    }

    /** The header of a new frame: whether the frame may be read. */
    method Begin(r: Read) returns (fault: Option<Error>)
      requires Valid() && r.Read? && r.opcode != NoFrame && frameRemaining == 0
      modifies this`frameOpcode, this`frameRemaining, this`frameFinal, this`messageStarted, this`messageSize
      ensures Valid()
      ensures fault.None? ==>
        Step(maximumInboundEventBytes, old(View()), r)
        == Absorb(maximumInboundEventBytes, View(), r.bytes, r.replied)
      ensures fault.Some? ==> Step(maximumInboundEventBytes, old(View()), r) == Failed(fault.value)
    {
      frameOpcode := r.opcode;
      if r.size < 0 {
        return Some(InvalidData);
      }
      frameRemaining, frameFinal := r.size, r.fin;
      if IsControl(frameOpcode) && frameRemaining > CONTROL_LIMIT {
        return Some(InvalidData);
      }
      if !IsControl(frameOpcode) && frameRemaining > maximumInboundEventBytes {
        return Some(Overflow);
      }
      var ok := BeginFrame();
      return if ok then None else Some(InvalidData);
    }

    /** The bytes of one read: a reply ends the call. */
    method Take(bytes: seq<Byte>, replied: bool) returns (reply: Option<Reply>)
      requires Valid()
      modifies this, message
      ensures Valid()
      ensures match Absorb(maximumInboundEventBytes, old(View()), bytes, replied)
              case Waiting(link) => reply == None && View() == link
              case Returned(link, event) => reply == Some(Event(event)) && View() == link
              case Failed(error) => reply == Some(Fault(error))
    {
      if |bytes| > frameRemaining {
        return Some(Fault(Overflow));
      }
      frameRemaining := frameRemaining - |bytes|;
      if IsControl(frameOpcode) {
        if frameRemaining != 0 || frameOpcode == Pong {
          return None;
        }
        if !replied {
          return Some(Fault(OperationFailed));
        }
        if frameOpcode == Ping {
          return None;
        }
        connected := false;
        return Some(Event(Closed(CloseCode(bytes))));
      }
      if messageSize + |bytes| > maximumInboundEventBytes {
        return Some(Fault(Overflow));
      }
      Append(bytes);
      if frameRemaining != 0 || !frameFinal {
        return None;
      }
      message[messageSize] := 0;
      reply := Some(Event(Message(message[..messageSize])));
      messageStarted, messageSize := false, 0;
    }

    /** One call, over the reads the transport answers before it times out. */
    method Receive(chunks: seq<Read>) returns (reply: Reply, used: nat)
      requires Valid()
      modifies this, message
      ensures Valid() && used <= |chunks|
      ensures !old(connected) ==> reply == NotConnected && used == 0 && View() == old(View())
      ensures old(connected) ==>
        var q := ReceiveFrom(maximumInboundEventBytes, old(View()), chunks, 0);
        && used == q.used
        && (match q.result
            case Waiting(_) => false
            case Returned(link, event) => reply == Event(event) && View() == link
            case Failed(error) => reply == Fault(error))
    {
      hide Absorb, WebSocketModel.BeginFrame;
      if !connected {
        return NotConnected, 0;
      }
      used := 0;
      ghost var all := ReceiveFrom(maximumInboundEventBytes, View(), chunks, 0);
      while used < |chunks|
        invariant Valid() && used <= |chunks|
        invariant ReceiveFrom(maximumInboundEventBytes, View(), chunks, used) == all
      {
        var r := chunks[used];
        used := used + 1;
        if r.ReadError? {
          return Fault(OperationFailed), used;
        }
        if frameRemaining == 0 {
          if r.opcode == NoFrame {
            frameOpcode := NoFrame;
            if r.bytes != [] {
              return Fault(InvalidData), used;
            }
            return Event(Nothing), used;
          }
          var fault := Begin(r);
          if fault.Some? {
            return Fault(fault.value), used;
          }
        }
        var taken := Take(r.bytes, r.replied);
        if taken.Some? {
          return taken.value, used;
        }
      }
      reply := Event(Nothing);
    }
  }
}
