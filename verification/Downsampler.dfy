/** The downsampling stream, with its raw buffer, held sample and pending byte. */
module Downsamplers {
  import opened Common
  import opened DownsamplerModel

  const RAW_BYTES: nat := 512

  /** The audio source: each read yields at most what it grants, short or empty reads included. */
  class Source {
    var stream: seq<Byte>
    var grants: seq<nat>

    /** The last read asked for bytes and got none. */
    ghost var refused: bool

    constructor (stream: seq<Byte>, grants: seq<nat>)
      ensures this.stream == stream && this.grants == grants
    {
      this.stream, this.grants, refused := stream, grants, false;
    }

    /** It has nothing to give just now. */
    predicate Dry()
      reads this
    {
      grants == [] || grants[0] == 0 || stream == []
    }

    method Read(limit: nat) returns (bytes: seq<Byte>)
      modifies this
      ensures |bytes| <= limit && old(stream) == bytes + stream
      ensures bytes == [] <==> limit == 0 || old(Dry())
      ensures refused == (limit > 0 && old(Dry()))
    {
      refused := limit > 0 && Dry();
      if grants == [] {
        return [];
      }
      var n := grants[0];
      n := if n > limit then limit else n;
      n := if n > |stream| then |stream| else n;
      bytes := stream[..n];
      stream, grants := stream[n..], grants[1..];
    }
  }

  lemma InOrder(given: seq<Byte>, first: seq<Byte>, rest: seq<Byte>, pending: seq<Byte>, sum: seq<Byte>, end: seq<Byte>)
    requires given + first == sum && end == sum + rest + pending
    ensures given + (first + rest) + pending == end
  {
    assert given + (first + rest) == given + first + rest;
  }

  class Pcm16Downsampler {
    const shift: nat
    const source: Source
    const raw: array<Byte>
    var rawOffset: nat
    var rawSize: nat
    var heldSample: int
    var heldSampleValid: bool
    var pendingByte: Byte
    var pendingByteValid: bool

    /** All bytes read from the source, all bytes handed out, source bytes decoded, and pairs averaged. */
    ghost var taken: seq<Byte>
    ghost var given: seq<Byte>
    ghost var decoded: nat
    ghost var pairs: nat

    constructor (source: Source, shift: nat)
      ensures Valid() && fresh(raw) && this.source == source && this.shift == shift && taken == [] && given == []
    {
      this.source, this.shift := source, shift;
      raw := new Byte[RAW_BYTES];
      rawOffset, rawSize, heldSample, heldSampleValid, pendingByte, pendingByteValid := 0, 0, 0, false, 0, false;
      taken, given, decoded, pairs := [], [], 0, 0;
    }

    /** The raw buffer holds what was taken and not yet decoded. */
    ghost predicate ValidRaw()
      reads this, raw
    {
      && raw.Length == RAW_BYTES && rawOffset <= rawSize <= RAW_BYTES
      && |taken| == decoded + (rawSize - rawOffset) && decoded % 4 == 0
      && raw[rawOffset..rawSize] == taken[decoded..]
    }

    /** Every decoded sample is in a finished pair or held. */
    ghost predicate ValidSamples()
      reads this, raw
    {
      && ValidRaw()
      && decoded == 8 * pairs + (if heldSampleValid then 4 else 0)
      && (heldSampleValid ==> heldSample == SampleAt(taken, 2 * pairs))
    }

    ghost function Pending(): seq<Byte>
      reads this
    {
      if pendingByteValid then [pendingByte] else []
    }

    /**
     Nothing is lost between the source and the output: the bytes taken are eight
     for each finished pair, four for a held sample, and what the raw buffer holds;
     the bytes given and the pending one are the output of the finished pairs.
     */
    ghost predicate Valid()
      reads this, raw
    {
      && ValidSamples()
      && given + Pending() == OutputOf(shift, taken, pairs)
    }

    method CompactRawBuffer()
      requires ValidRaw()
      modifies this`rawOffset, this`rawSize, raw
      ensures ValidRaw() && rawOffset == 0 && rawSize == old(rawSize - rawOffset)
    {
      if rawOffset == 0 {
        return;
      }
      ghost var kept := raw[rawOffset..rawSize];
      var remaining := rawSize - rawOffset;
      var i := 0;
      while i < remaining
        modifies raw
        invariant i <= remaining
        invariant raw[..i] == kept[..i]
        invariant raw[rawOffset + i..rawSize] == kept[i..]
      {
        assert raw[rawOffset + i] == kept[i];
        raw[i] := raw[rawOffset + i];
        i := i + 1;
      }
      rawOffset, rawSize := 0, remaining;
      assert raw[0..remaining] == kept;
    }

    /** The source's bytes land behind those in the buffer. */
    method PutRaw(bytes: seq<Byte>)
      requires rawOffset <= rawSize && rawSize + |bytes| <= raw.Length
      modifies raw
      ensures raw[rawOffset..rawSize] == old(raw[rawOffset..rawSize])
      ensures raw[rawSize..rawSize + |bytes|] == bytes
    {
      for i := 0 to |bytes|
        invariant raw[rawOffset..rawSize] == old(raw[rawOffset..rawSize]) && raw[rawSize..rawSize + i] == bytes[..i]
      {
        raw[rawSize + i] := bytes[i];
      }
    }

    method ReadMoreRaw() returns (ok: bool)
      requires ValidRaw()
      modifies this`rawSize, this`taken, raw, source
      ensures ValidRaw() && old(taken) <= taken && old(taken + source.stream) == taken + source.stream
      ensures if ok then rawSize > old(rawSize) else rawSize == old(rawSize) && taken == old(taken)
      ensures !ok && rawSize < RAW_BYTES ==> source.refused
    {
      var freeBytes := raw.Length - rawSize;
      if freeBytes == 0 {
        return false;
      }
      var bytes := source.Read(freeBytes);
      if |bytes| == 0 {
        return false;
      }
      ghost var kept := raw[rawOffset..rawSize];
      PutRaw(bytes);
      assert raw[rawOffset..rawSize + |bytes|] == kept + bytes;
      rawSize := rawSize + |bytes|;
      taken := taken + bytes;
      return true;
    }

    method EnsureRawBytes(required: nat) returns (ok: bool)
      requires ValidRaw() && required <= RAW_BYTES
      modifies this`rawOffset, this`rawSize, this`taken, raw, source
      ensures ValidRaw() && old(taken) <= taken && old(taken + source.stream) == taken + source.stream
      ensures ok <==> rawSize - rawOffset >= required
      ensures !ok ==> source.refused
    {
      while rawSize - rawOffset < required
        invariant ValidRaw() && old(taken) <= taken && old(taken + source.stream) == taken + source.stream
        decreases required - (rawSize - rawOffset)
      {
        CompactRawBuffer();
        var more := ReadMoreRaw();
        if !more {
          return false;
        }
      }
      return true;
    }

    /** The next source sample, or none before the source yields its four bytes. */
    method ReadSourceSample(ghost i: nat) returns (ok: bool, out: int)
      requires ValidRaw() && decoded == SAMPLE_BYTES * i
      modifies this`rawOffset, this`rawSize, this`taken, this`decoded, raw, source
      ensures ValidRaw() && old(taken) <= taken && old(taken + source.stream) == taken + source.stream
      ensures ok ==> decoded == old(decoded) + 4 && out == SampleAt(taken, i)
      ensures !ok ==> decoded == old(decoded) && rawSize - rawOffset < 4 && source.refused
    {
      ok := EnsureRawBytes(SAMPLE_BYTES);
      if !ok {
        return false, 0;
      }
      assert raw[rawOffset..rawSize] == taken[decoded..];
      ghost var four := taken[decoded..];
      assert raw[rawOffset] == four[0] && raw[rawOffset + 1] == four[1];
      assert raw[rawOffset + 2] == four[2] && raw[rawOffset + 3] == four[3];
      out := Sample(raw[rawOffset], raw[rawOffset + 1], raw[rawOffset + 2], raw[rawOffset + 3]);
      rawOffset := rawOffset + SAMPLE_BYTES;
      decoded := decoded + SAMPLE_BYTES;
      if rawOffset == rawSize {
        rawOffset, rawSize := 0, 0;
      }
    }

    /** The next averaged sample; a first half without a second is held for later. */
    method ReadDownsampled() returns (ok: bool, out: int)
      requires ValidSamples()
      modifies this`rawOffset, this`rawSize, this`taken, this`decoded, this`pairs, this`heldSample,
               this`heldSampleValid, raw, source
      ensures ValidSamples() && old(taken) <= taken && old(taken + source.stream) == taken + source.stream
      ensures ok ==> pairs == old(pairs) + 1 && out == PcmAt(shift, taken, old(pairs))
      ensures !ok ==> pairs == old(pairs) && |taken| < 8 * pairs + 8 && source.refused
    {
      hide ToPcm16, Half, Sample;
      var first: int;
      if heldSampleValid {
        first := heldSample;
        heldSampleValid := false;
      } else {
        ok, first := ReadSourceSample(2 * pairs);
        if !ok {
          return false, 0;
        }
      }
      var second: int;
      ok, second := ReadSourceSample(2 * pairs + 1);
      if !ok {
        heldSample, heldSampleValid := first, true;
        return false, 0;
      }
      pairs := pairs + 1;
      out := ToPcm16(Half(first + second), shift);
    }

    /** The output so far: of the finished pairs. */
    ghost function Finished(): seq<Byte>
      reads this, raw
      requires ValidSamples()
    {
      OutputOf(shift, taken, pairs)
    }

    /** The next two output bytes, or none when the source has no more to offer now. */
    method ReadPair() returns (ok: bool, low: Byte, high: Byte)
      requires ValidSamples()
      modifies this`rawOffset, this`rawSize, this`taken, this`decoded, this`pairs, this`heldSample,
               this`heldSampleValid, raw, source
      ensures ValidSamples() && old(taken) <= taken && old(taken + source.stream) == taken + source.stream
      ensures Finished() == old(Finished()) + (if ok then [low, high] else [])
      ensures !ok ==> Finished() == Output(shift, taken) && source.refused
    {
      hide OutputOf, PcmAt, SampleAt;
      ghost var seen, before := taken, pairs;
      var sample: int;
      ok, sample := ReadDownsampled();
      OutputOfGrown(shift, seen, taken, before);
      if ok {
        OutputOfNext(shift, taken, before);
      } else {
        assert |taken| / 8 == pairs;
        OutputIsWhole(shift, taken, pairs);
      }
      return ok, LowByte(sample), HighByte(sample);
    }

    /** The bytes written by a call count as given. */
    ghost method Give(bytes: seq<Byte>)
      requires ValidSamples() && given + bytes + Pending() == Finished()
      modifies this`given
      ensures Valid() && Pending() == old(Pending()) && Finished() == old(Finished()) && given == old(given) + bytes
    {
      given := given + bytes;
    }

    /** A pending byte goes first. */
    method PutPending(data: array<Byte>) returns (written: nat)
      requires Valid() && data.Length > 0 && data != raw
      modifies this`pendingByteValid, data
      ensures ValidSamples() && !pendingByteValid && written <= 1
      ensures given + data[..written] == Finished() == old(Finished())
      ensures forall i :: written <= i < data.Length ==> data[i] == old(data[i])
    {
      hide OutputOf;
      if !pendingByteValid {
        return 0;
      }
      data[0] := pendingByte;
      pendingByteValid := false;
      assert data[..1] == [pendingByte];
      return 1;
    }

    method Postpone(high: Byte)
      requires ValidSamples() && !pendingByteValid
      modifies this`pendingByte, this`pendingByteValid
      ensures ValidSamples() && Pending() == [high] && Finished() == old(Finished())
    {
      pendingByte, pendingByteValid := high, true;
    }

    /** An odd last byte: its sample's other byte is kept for the next call. */
    method ReadHalf(data: array<Byte>, at: nat) returns (ok: bool)
      requires ValidSamples() && !pendingByteValid && data != raw && at < data.Length
      modifies this`rawOffset, this`rawSize, this`taken, this`decoded, this`pairs, this`heldSample,
               this`heldSampleValid, this`pendingByte, this`pendingByteValid, raw, source, data
      ensures ValidSamples() && old(taken) <= taken && old(taken + source.stream) == taken + source.stream
      ensures data[..at] == old(data[..at]) && forall i :: at < i < data.Length ==> data[i] == old(data[i])
      ensures if ok then Finished() == old(Finished()) + [data[at]] + Pending() && pendingByteValid
              else
                && Finished() == old(Finished()) == Output(shift, taken) && !pendingByteValid
                && data[at] == old(data[at]) && source.refused
    {
      hide OutputOf, ValidRaw, ValidSamples;
      var low, high;
      ok, low, high := ReadPair();
      if ok {
        data[at] := low;
        Postpone(high);
      }
    }

    static method PutPair(data: array<Byte>, start: nat, at: nat, low: Byte, high: Byte)
      requires start <= at && at + 1 < data.Length
      modifies data
      ensures data[..start] == old(data[..start]) && data[start..at + 2] == old(data[start..at]) + [low, high]
      ensures forall i :: at + 2 <= i < data.Length ==> data[i] == old(data[i])
    {
      data[at], data[at + 1] := low, high;
    }

    /** Whole samples from `start` on, until fewer than two bytes are wanted or the source has no more to offer now. */
    method FillPairs(data: array<Byte>, start: nat, len: nat) returns (written: nat)
      requires ValidSamples() && data != raw && start <= len <= data.Length
      modifies this`rawOffset, this`rawSize, this`taken, this`decoded, this`pairs, this`heldSample,
               this`heldSampleValid, raw, source, data
      ensures ValidSamples() && old(taken) <= taken && old(taken + source.stream) == taken + source.stream
      ensures start <= written <= len && data[..start] == old(data[..start])
      ensures forall i :: written <= i < data.Length ==> data[i] == old(data[i])
      ensures Finished() == old(Finished()) + data[start..written]
      ensures written + 1 < len ==> Finished() == Output(shift, taken) && source.refused
    {
      hide OutputOf, ValidRaw, ValidSamples;
      ghost var filled := data[..start];
      written := start;
      while written + 1 < len
        invariant start <= written <= len && ValidSamples()
        invariant data[..start] == filled && Finished() == old(Finished()) + data[start..written]
        invariant forall i :: written <= i < data.Length ==> data[i] == old(data[i])
        invariant old(taken) <= taken && old(taken + source.stream) == taken + source.stream
        decreases len - written
      {
        var ok, low, high := ReadPair();
        if !ok {
          return;
        }
        PutPair(data, start, written, low, high);
        written := written + 2;
      }
    }

    /** Whole samples from `start` on and, for an odd last byte, the first half of one more. */
    method FillRest(data: array<Byte>, start: nat, len: nat) returns (written: nat)
      requires ValidSamples() && !pendingByteValid && data != raw && start <= len <= data.Length
      modifies this`rawOffset, this`rawSize, this`taken, this`decoded, this`pairs, this`heldSample,
               this`heldSampleValid, this`pendingByte, this`pendingByteValid, raw, source, data
      ensures ValidSamples() && old(taken) <= taken && old(taken + source.stream) == taken + source.stream
      ensures start <= written <= len && data[..start] == old(data[..start])
      ensures forall i :: written <= i < data.Length ==> data[i] == old(data[i])
      ensures Finished() == old(Finished()) + data[start..written] + Pending()
      ensures written < len ==> !pendingByteValid && Finished() == Output(shift, taken) && source.refused
    {
      hide OutputOf, ValidRaw, ValidSamples;
      written := FillPairs(data, start, len);
      ghost var filled := data[start..written];
      if written + 1 == len {
        var ok := ReadHalf(data, written);
        assert data[start..written] == filled;
        if ok {
          assert data[start..written + 1] == filled + [data[written]];
          written := written + 1;
        }
      }
    }

    /** Fills `data` with the next output bytes; fewer than asked means that the source has no more to offer now. */
    method ReadBytes(data: array<Byte>, len: nat) returns (written: nat)
      requires Valid() && data != raw && len <= data.Length
      modifies this, raw, source, data
      ensures Valid() && written <= len
      ensures given == old(given) + data[..written]
              && (forall i :: written <= i < data.Length ==> data[i] == old(data[i]))
      ensures old(taken) <= taken && old(taken + source.stream) == taken + source.stream
      ensures written < len ==> !pendingByteValid && given == Output(shift, taken) && source.refused
    {
      hide OutputOf, ValidRaw, ValidSamples;
      if len == 0 {
        return 0;
      }
      written := PutPending(data);
      ghost var first, sum := data[..written], Finished();
      if written < len {
        written := FillRest(data, written, len);
        InOrder(given, first, data[|first|..written], Pending(), sum, Finished());
      }
      assert data[..written] == first + data[|first|..written];
      Give(data[..written]);
    }

    /** What was given is the start of the output of what was taken. */
    lemma GivenIsPrefixOfOutput()
      requires Valid()
      ensures given <= Output(shift, taken)
    {
      OutputOfPrefix(shift, taken, pairs, |taken| / 8);
    }
  }

  /**
   However two streams cut up the same source and whatever lengths they are asked
   for, neither output contradicts the other: the shorter is a prefix of the longer.
   */
  lemma ChunkingDoesNotMatter(a: Pcm16Downsampler, b: Pcm16Downsampler, stream: seq<Byte>)
    requires a.Valid() && b.Valid() && a.shift == b.shift
    requires a.taken <= stream && b.taken <= stream && |a.given| <= |b.given|
    ensures a.given <= b.given <= Output(a.shift, stream)
  {
    hide *;
    a.GivenIsPrefixOfOutput();
    b.GivenIsPrefixOfOutput();
    OutputGrows(a.shift, a.taken, stream[|a.taken|..]);
    OutputGrows(a.shift, b.taken, stream[|b.taken|..]);
    assert a.taken + stream[|a.taken|..] == stream && b.taken + stream[|b.taken|..] == stream;
  }
}
