/**
 A FreeRTOS byte ring as its users see it: a circular FIFO of bytes whose
 receive hands out one contiguous piece, which stays allocated until returned.
 The capacity and every size sent are even, so pieces never split a sample.
 */
module ByteRing {
  import opened Common

  /** Whole 16-bit samples, as bytes. */
  type Pcm = s: seq<Byte> | |s| % 2 == 0

  /** `head` is where the unread bytes start; `held` bytes are handed out and not yet returned. */
  datatype Ring = Ring(capacity: nat, head: nat, content: seq<Byte>, held: nat)

  predicate Even(n: nat) {
    n % 2 == 0
  }

  ghost predicate ValidRing(r: Ring) {
    && 0 < r.capacity && r.head < r.capacity && r.held + |r.content| <= r.capacity
    && Even(r.capacity) && Even(r.head) && Even(|r.content|) && Even(r.held)
  }

  /** All or nothing: the bytes are queued only if they fit beside what is unread or handed out. */
  function Send(r: Ring, bytes: seq<Byte>): (q: Option<Ring>)
    ensures ValidRing(r) && Even(|bytes|) && q.Some? ==> ValidRing(q.value)
  {
    if |bytes| <= r.capacity - r.held - |r.content| then Some(r.(content := r.content + bytes)) else None
  }

  function Min(a: nat, b: nat): nat {
    if a < b then a else b
  }

  /** The longest contiguous piece of at most `max` bytes, if any byte is unread. */
  function Piece(r: Ring, max: nat): nat {
    Min(max, Min(|r.content|, if r.head < r.capacity then r.capacity - r.head else 0))
  }

  function ReceiveUpTo(r: Ring, max: nat): (q: Option<(seq<Byte>, Ring)>)
    ensures q.Some? ==> 0 < |q.value.0| <= max && q.value.0 + q.value.1.content == r.content
                        && q.value.1.capacity == r.capacity && q.value.1.held == |q.value.0|
    ensures q.None? && max > 0 && r.head < r.capacity ==> r.content == []
  {
    var n := Piece(r, max);
    if n == 0 then None
    else
      var head := if r.head + n == r.capacity then 0 else r.head + n;
      Some((r.content[..n], r.(head := head, content := r.content[n..], held := n)))
  }

  /** Pieces of a ring whose sizes are even are even, and leave such a ring. */
  lemma ReceiveKeepsRing(r: Ring, max: nat)
    requires ValidRing(r) && Even(max) && r.held == 0 && ReceiveUpTo(r, max).Some?
    ensures var q := ReceiveUpTo(r, max).value; ValidRing(q.1) && Even(|q.0|)
  {
    PieceIsEven(r, max);
    hide Piece;
  }

  lemma PieceIsEven(r: Ring, max: nat)
    requires ValidRing(r) && Even(max)
    ensures Even(Piece(r, max)) && Piece(r, max) <= |r.content| && r.head + Piece(r, max) <= r.capacity
  {
  }

  function ReturnItem(r: Ring): (q: Ring)
    ensures ValidRing(r) ==> ValidRing(q)
  {
    r.(held := 0)
  }

  /** Receiving and returning until nothing is left. */
  function Discard(r: Ring): (q: Ring)
    ensures ValidRing(r) ==> ValidRing(q)
  {
    var head := r.head + |r.content|;
    r.(head := if head < r.capacity then head else if head - r.capacity < r.capacity then head - r.capacity else 0,
       content := [], held := 0)
  }

  /** So it is what receiving and returning pieces of any size comes to, with nothing left and nothing handed out. */
  lemma DiscardIsReceiving(r: Ring, max: nat)
    requires ValidRing(r)
    ensures r.content == [] && r.held == 0 ==> Discard(r) == r
    ensures ReceiveUpTo(r, max).Some? ==> Discard(r) == Discard(ReturnItem(ReceiveUpTo(r, max).value.1))
    ensures Discard(r).content == [] && Discard(r).held == 0
  {
  }

  function Concat(parts: seq<seq<Byte>>): seq<Byte> {
    if parts == [] then [] else Concat(parts[..|parts| - 1]) + parts[|parts| - 1]
  }

  lemma ConcatAppend(parts: seq<seq<Byte>>, last: seq<Byte>)
    ensures Concat(parts + [last]) == Concat(parts) + last
  {
    assert (parts + [last])[..|parts|] == parts;
  }
}
