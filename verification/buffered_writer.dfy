/**
 * `BufferedWriter<use_write_constraint>`: stages bytes in a fixed-size
 * buffer and hands them to an output stream a full buffer at a time,
 * optionally within a byte budget.
 */
module Writing {
  import opened Streams
  import opened Encoding

  class BufferedWriter {
    const stream: OutputStream
    const buffer: array<byte>
    /** The template argument `use_write_constraint`. */
    const constrained: bool

    var curPos: nat
    var bufferRemaining: nat
    var ostreamRemaining: nat

    /** The bytes written but not yet handed to the stream, in order. */
    ghost var Staged: seq<byte>

    /**
     * The object invariant: the buffer is either empty with no room counted
     * (`curPos == 0 && bufferRemaining == 0`), or holds `curPos > 0` staged
     * bytes with `bufferRemaining` the room after them, so that a full
     * buffer is exactly the staged bytes. `buffer[..curPos]` holds `Staged`,
     * and the budget sits at SIZE_MAX without the constraint.
     */
    ghost predicate Valid()
      reads this, buffer
    {
      ((curPos == 0 && bufferRemaining == 0) || (0 < curPos && curPos + bufferRemaining == buffer.Length)) &&
      |Staged| == curPos &&
      (forall i :: 0 <= i < curPos ==> Staged[i] == buffer[i]) &&
      (!constrained ==> ostreamRemaining == SIZE_MAX)
    }

    /**
     * The constraint check of the slow path: the budget cannot cover a full
     * buffer plus the part of the `n` bytes that does not fit the room left.
     */
    predicate OverBudget(n: nat)
      reads this
    {
      constrained && bufferRemaining < n && ostreamRemaining < buffer.Length + n - bufferRemaining
    }

    /**
     * How many bytes the slow path of a write of `n` bytes hands the stream:
     * the full buffer when something is staged, and the remainder when it
     * does not fit the buffer.
     */
    function Emission(n: nat): nat
      reads this
      requires bufferRemaining < n
    {
      (if curPos > 0 then buffer.Length else 0) +
      (if n - bufferRemaining >= buffer.Length then n - bufferRemaining else 0)
    }

    /** The construction that passed the configuration check (see Open). */
    constructor (stream: OutputStream, bufferSize: nat, constrained: bool, budget: nat)
      requires constrained || budget == SIZE_MAX
      ensures Valid() && fresh(buffer)
      ensures this.stream == stream && buffer.Length == bufferSize && this.constrained == constrained
      ensures curPos == 0 && bufferRemaining == 0 && ostreamRemaining == budget
      ensures Staged == []
    {
      this.stream := stream;
      buffer := new byte[bufferSize];
      this.constrained := constrained;
      curPos := 0;
      bufferRemaining := 0;
      ostreamRemaining := budget;
      Staged := [];
    }

    /**
     * The C++ constructor: without the constraint, a budget other than
     * SIZE_MAX is a configuration error.
     */
    static method Open(stream: OutputStream, bufferSize: nat, constrained: bool, budget: nat)
      returns (r: Result<BufferedWriter>)
      ensures r.Failure? <==> !constrained && budget != SIZE_MAX
      ensures r.Failure? ==> r.error == ConfigurationError
      ensures r.Success? ==> fresh(r.value) && fresh(r.value.buffer) && r.value.Valid()
      ensures r.Success? ==> r.value.stream == stream && r.value.buffer.Length == bufferSize
      ensures r.Success? ==> r.value.constrained == constrained && r.value.ostreamRemaining == budget
      ensures r.Success? ==> r.value.Staged == []
    {
      if !constrained && budget != SIZE_MAX {
        return Failure(ConfigurationError);
      }
      var writer := new BufferedWriter(stream, bufferSize, constrained, budget);
      r := Success(writer);
    }

    /**
     * `write(src, |src|)`. On success the stream's bytes followed by the
     * staged bytes grow by exactly `src`, and under the constraint the budget
     * falls by exactly what the stream received. It fails with
     * CapacityExceeded, touching nothing, exactly when the budget cannot
     * cover the slow path, and otherwise fails only when the stream refuses
     * a write.
     */
    method Write(src: seq<byte>) returns (status: Status)
      requires Valid()
      modifies this, buffer, stream
      ensures status == Fail(CapacityExceeded) <==> old(OverBudget(|src|))
      ensures old(OverBudget(|src|)) ==> Valid() && unchanged(this, buffer, stream)
      ensures status.Fail? ==> status.error in {CapacityExceeded, WriteError, PartialWriteError}
      ensures status == Ok <==>
                |src| <= old(bufferRemaining) ||
                (!old(OverBudget(|src|)) && (old(Emission(|src|)) == 0 || old(stream.Accepts(Emission(|src|)))))
      ensures status == Fail(WriteError) <==>
                old(bufferRemaining) < |src| && !old(OverBudget(|src|)) &&
                old(curPos) > 0 && !old(stream.Accepts(buffer.Length))
      ensures status == Ok ==> Valid() && stream.sink + Staged == old(stream.sink + Staged) + src
      ensures status == Ok ==> stream.failed == old(stream.failed)
      // the fast path stages the bytes and leaves the stream and the budget alone
      ensures |src| <= old(bufferRemaining) ==>
                Staged == old(Staged) + src &&
                curPos == old(curPos) + |src| && bufferRemaining == old(bufferRemaining) - |src| &&
                ostreamRemaining == old(ostreamRemaining) && unchanged(stream)
      // a remainder the buffer cannot hold goes straight to the stream and leaves the buffer empty
      ensures status == Ok && old(bufferRemaining) < |src| && |src| - old(bufferRemaining) >= buffer.Length ==>
                curPos == 0 && bufferRemaining == 0 && stream.sink == old(stream.sink + Staged) + src
      // otherwise the remainder is staged at the front of the buffer
      ensures status == Ok && old(bufferRemaining) < |src| && |src| - old(bufferRemaining) < buffer.Length ==>
                curPos == |src| - old(bufferRemaining) && Staged == src[old(bufferRemaining)..]
      ensures status == Ok && constrained ==>
                ostreamRemaining + |stream.sink| == old(ostreamRemaining) + old(|stream.sink|)
    {
      if bufferRemaining >= |src| {
        Stage(src);
        return Ok;
      }
      if OverBudget(|src|) {
        return Fail(CapacityExceeded);
      }
      status := WriteSlow(src);
    }

    /** The fast path of `write`: the room left in the buffer holds `src`. */
    method Stage(src: seq<byte>)
      requires Valid() && |src| <= bufferRemaining
      modifies this, buffer
      ensures Valid() && Staged == old(Staged) + src
      ensures curPos == old(curPos) + |src| && bufferRemaining == old(bufferRemaining) - |src|
      ensures ostreamRemaining == old(ostreamRemaining)
    {
      CopyIn(src, 0, buffer, curPos, |src|);
      curPos, bufferRemaining := curPos + |src|, bufferRemaining - |src|;
      Staged := Staged + src;
    }

    /**
     * The slow path of `write`, past the constraint check: the room left is
     * topped up from `src` and a non-empty buffer is emitted whole; the rest
     * of `src` then goes straight to the stream or to the buffer front.
     */
    method WriteSlow(src: seq<byte>) returns (status: Status)
      requires Valid() && bufferRemaining < |src| && !OverBudget(|src|)
      modifies this, buffer, stream
      ensures status.Fail? ==> status.error in {WriteError, PartialWriteError}
      ensures status == Ok <==> old(Emission(|src|)) == 0 || old(stream.Accepts(Emission(|src|)))
      ensures status == Fail(WriteError) <==> old(curPos) > 0 && !old(stream.Accepts(buffer.Length))
      ensures status == Ok ==> Valid() && stream.sink + Staged == old(stream.sink + Staged) + src
      ensures status == Ok ==> stream.failed == old(stream.failed)
      ensures status == Ok && |src| - old(bufferRemaining) >= buffer.Length ==>
                curPos == 0 && bufferRemaining == 0 && stream.sink == old(stream.sink + Staged) + src
      ensures status == Ok && |src| - old(bufferRemaining) < buffer.Length ==>
                curPos == |src| - old(bufferRemaining) && Staged == src[old(bufferRemaining)..]
      ensures status == Ok && constrained ==>
                ostreamRemaining + |stream.sink| == old(ostreamRemaining) + old(|stream.sink|)
    {
      var alreadyWritten := bufferRemaining;
      status := TopUp(src[..alreadyWritten]);
      if status.Fail? {
        return;
      }
      var toWrite := |src| - alreadyWritten;
      if toWrite >= buffer.Length {
        status := WriteDirect(src[alreadyWritten..]);
      } else {
        Restage(src[alreadyWritten..]);
      }
    }

    /**
     * The first half of the slow path: `head` fills the room left, and a
     * buffer that holds anything is handed to the stream whole and counts
     * against the budget. The buffer is empty afterwards.
     */
    method TopUp(head: seq<byte>) returns (status: Status)
      requires Valid() && |head| == bufferRemaining
      requires constrained && curPos > 0 ==> buffer.Length <= ostreamRemaining
      modifies this, buffer, stream
      ensures status.Fail? ==> status.error == WriteError
      ensures status == Ok <==> old(curPos) == 0 || old(stream.Accepts(buffer.Length))
      ensures status == Ok ==> Valid() && curPos == 0 && bufferRemaining == 0
      ensures status == Ok ==> stream.sink == old(stream.sink + Staged) + head && stream.failed == old(stream.failed)
      ensures status == Ok ==>
                ostreamRemaining == old(ostreamRemaining) - (if constrained && old(curPos) > 0 then buffer.Length else 0)
    {
      if bufferRemaining > 0 {
        CopyIn(head, 0, buffer, curPos, bufferRemaining);
      }
      if curPos > 0 {
        assert buffer[..] == Staged + head;
        stream.Write(buffer[..]);
        if stream.failed {
          return Fail(WriteError);
        }
        if constrained {
          ostreamRemaining := ostreamRemaining - buffer.Length;
        }
      }
      curPos, bufferRemaining := 0, 0;
      Staged := [];
      return Ok;
    }

    /** The direct branch of `write`: a remainder of at least a buffer goes straight to the stream. */
    method WriteDirect(rest: seq<byte>) returns (status: Status)
      requires Valid() && curPos == 0 && buffer.Length <= |rest|
      requires constrained ==> |rest| <= ostreamRemaining
      modifies this, stream
      ensures status.Fail? ==> status.error == PartialWriteError
      ensures status == Ok <==> old(stream.Accepts(|rest|))
      ensures status == Ok ==> Valid() && curPos == 0 && stream.sink == old(stream.sink) + rest
      ensures status == Ok ==> stream.failed == old(stream.failed)
      ensures status == Ok ==> ostreamRemaining == old(ostreamRemaining) - (if constrained then |rest| else 0)
    {
      stream.Write(rest);
      if stream.failed {
        return Fail(PartialWriteError);
      }
      if constrained {
        ostreamRemaining := ostreamRemaining - |rest|;
      }
      return Ok;
    }

    /** The restage branch of `write`: a short non-empty remainder goes to the buffer front. */
    method Restage(rest: seq<byte>)
      requires Valid() && curPos == 0 && 0 < |rest| < buffer.Length
      modifies this, buffer
      ensures Valid() && Staged == rest
      ensures curPos == |rest| && bufferRemaining == buffer.Length - |rest|
      ensures ostreamRemaining == old(ostreamRemaining)
    {
      CopyIn(rest, 0, buffer, 0, |rest|);
      curPos, bufferRemaining := |rest|, buffer.Length - |rest|;
      Staged := rest;
    }

    /**
     * `put<T>(value)`: writes the `width` bytes of the value's image, least
     * significant byte first.
     */
    method Put(value: nat, width: nat) returns (status: Status)
      requires Valid()
      modifies this, buffer, stream
      ensures status == Fail(CapacityExceeded) <==> old(OverBudget(width))
      ensures old(OverBudget(width)) ==> Valid() && unchanged(this, buffer, stream)
      ensures status.Fail? ==> status.error in {CapacityExceeded, WriteError, PartialWriteError}
      ensures status == Fail(WriteError) <==>
                old(bufferRemaining) < width && !old(OverBudget(width)) &&
                old(curPos) > 0 && !old(stream.Accepts(buffer.Length))
      ensures status == Ok <==>
                width <= old(bufferRemaining) ||
                (!old(OverBudget(width)) && (old(Emission(width)) == 0 || old(stream.Accepts(Emission(width)))))
      ensures status == Ok ==>
                Valid() && stream.sink + Staged == old(stream.sink + Staged) + LittleEndian(value, width)
      ensures status == Ok ==> stream.failed == old(stream.failed)
      ensures status == Ok && constrained ==>
                ostreamRemaining + |stream.sink| == old(ostreamRemaining) + old(|stream.sink|)
    {
      status := Write(LittleEndian(value, width));
    }

    /**
     * `flush()` as written: hands the staged bytes to the stream but keeps
     * them staged, so the next flush or full-buffer emission hands them over
     * again. The destructor is this call.
     */
    method Flush() returns (status: Status)
      requires Valid()
      modifies stream
      ensures status.Fail? ==> status.error == WriteError
      ensures status == Ok <==> curPos == 0 || old(stream.Accepts(curPos))
      ensures status == Ok ==> stream.sink == old(stream.sink) + Staged && stream.failed == old(stream.failed)
    {
      if curPos > 0 {
        assert buffer[..curPos] == Staged;
        stream.Write(buffer[..curPos]);
        if stream.failed {
          return Fail(WriteError);
        }
      }
      return Ok;
    }

    /**
     * `flush()` as evidently intended: under the constraint the staged bytes
     * are checked against the budget before they reach the stream, as every
     * other write to the stream is, and charged to it; then the buffer is
     * emptied. So the stream's bytes followed by the staged bytes do not
     * change, a second flush hands over nothing, and the budget plus the
     * stream's byte count stays where `Write` keeps it.
     */
    method FlushAndReset() returns (status: Status)
      requires Valid()
      modifies this, stream
      ensures status == Fail(CapacityExceeded) <==> old(constrained && ostreamRemaining < curPos)
      ensures old(constrained && ostreamRemaining < curPos) ==> Valid() && unchanged(this, stream)
      ensures status.Fail? ==> status.error in {CapacityExceeded, WriteError}
      ensures status == Ok <==>
                !old(constrained && ostreamRemaining < curPos) && (old(curPos) == 0 || old(stream.Accepts(curPos)))
      ensures status == Ok ==> Valid() && Staged == [] && stream.sink == old(stream.sink + Staged)
      ensures status == Ok ==> stream.failed == old(stream.failed)
      ensures status == Ok ==> curPos == 0 && bufferRemaining == 0
      ensures status == Ok && constrained ==>
                ostreamRemaining + |stream.sink| == old(ostreamRemaining) + old(|stream.sink|)
    {
      if constrained && ostreamRemaining < curPos {
        return Fail(CapacityExceeded);
      }
      status := Flush();
      if status.Ok? {
        if constrained {
          ostreamRemaining := ostreamRemaining - curPos;
        }
        curPos, bufferRemaining := 0, 0;
        Staged := [];
      }
    }

    /** `get_num_bytes_remaining()`: the budget, SIZE_MAX without the constraint. */
    function NumBytesRemaining(): (r: nat)
      reads this, buffer
      requires Valid()
      ensures !constrained ==> r == SIZE_MAX
    {
      ostreamRemaining
    }
  }
}
