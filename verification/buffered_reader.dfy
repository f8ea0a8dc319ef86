/**
 * `BufferedReader<use_read_constraint>`: pulls bytes from an input stream
 * through a fixed-size buffer, optionally within a byte budget.
 */
module Reading {
  import opened Streams
  import opened Encoding

  class BufferedReader {
    const stream: InputStream
    const buffer: array<byte>
    /** The template argument `use_read_constraint`. */
    const constrained: bool

    var curPos: nat
    var bufferRemaining: nat
    var istreamRemaining: nat

    /** The bytes the next reads hand out, in order. */
    ghost var Pending: seq<byte>

    /**
     * The object invariant: the buffered bytes `buffer[curPos..curPos +
     * bufferRemaining]` lie inside the buffer and, followed by what the
     * stream still holds, make up `Pending`; the budget sits at SIZE_MAX
     * without the constraint.
     */
    ghost predicate Valid()
      reads this, buffer, stream
    {
      stream.Valid() &&
      curPos + bufferRemaining <= buffer.Length &&
      |Pending| == bufferRemaining + |stream.Available()| &&
      (forall i :: 0 <= i < bufferRemaining ==> Pending[i] == buffer[curPos + i]) &&
      Pending[bufferRemaining..] == stream.Available() &&
      (!constrained ==> istreamRemaining == SIZE_MAX)
    }

    /** The constraint check of the slow path: the budget cannot cover `n`. */
    predicate OverBudget(n: nat)
      reads this
    {
      constrained && bufferRemaining < n && bufferRemaining + istreamRemaining < n
    }

    /** How many bytes a refill asks the stream for. */
    function RefillRequest(): nat
      reads this
    {
      if !constrained || istreamRemaining > buffer.Length then buffer.Length else istreamRemaining
    }

    /** The construction that passed the configuration check (see Open). */
    constructor (stream: InputStream, bufferSize: nat, constrained: bool, budget: nat)
      requires stream.Valid()
      requires constrained || budget == SIZE_MAX
      ensures Valid() && fresh(buffer)
      ensures this.stream == stream && buffer.Length == bufferSize && this.constrained == constrained
      ensures curPos == 0 && bufferRemaining == 0 && istreamRemaining == budget
      ensures Pending == stream.Available()
    {
      this.stream := stream;
      buffer := new byte[bufferSize];
      this.constrained := constrained;
      curPos := 0;
      bufferRemaining := 0;
      istreamRemaining := budget;
      Pending := stream.Available();
    }

    /**
     * The C++ constructor: without the constraint, a budget other than
     * SIZE_MAX is a configuration error.
     */
    static method Open(stream: InputStream, bufferSize: nat, constrained: bool, budget: nat)
      returns (r: Result<BufferedReader>)
      requires stream.Valid()
      ensures r.Failure? <==> !constrained && budget != SIZE_MAX
      ensures r.Failure? ==> r.error == ConfigurationError
      ensures r.Success? ==> fresh(r.value) && fresh(r.value.buffer) && r.value.Valid()
      ensures r.Success? ==> r.value.stream == stream && r.value.buffer.Length == bufferSize
      ensures r.Success? ==> r.value.constrained == constrained && r.value.istreamRemaining == budget
      ensures r.Success? ==> r.value.curPos == 0 && r.value.bufferRemaining == 0
      ensures r.Success? ==> r.value.Pending == stream.Available()
    {
      if !constrained && budget != SIZE_MAX {
        return Failure(ConfigurationError);
      }
      var reader := new BufferedReader(stream, bufferSize, constrained, budget);
      r := Success(reader);
    }

    /**
     * `read(dest, n)`. On success `dest[..n]` holds the next `n` pending bytes
     * and the budget plus the buffered count falls by exactly `n`. It fails
     * with InsufficientData, touching nothing, exactly when the budget cannot
     * cover the request, and otherwise fails only when the bytes run out.
     */
    method Read(dest: array<byte>, n: nat) returns (status: Status)
      requires Valid() && n <= dest.Length && dest != buffer
      modifies this, buffer, stream, dest
      ensures status == Fail(InsufficientData) <==> old(OverBudget(n))
      ensures old(OverBudget(n)) ==> Valid() && unchanged(this, buffer, stream, dest)
      ensures status == Ok <==>
                n <= old(bufferRemaining) || (!old(OverBudget(n)) && n <= old(|Pending|))
      ensures status.Fail? ==> status.error in {InsufficientData, ReadError, PartialReadError}
      ensures status == Ok ==> Valid() && Pending == old(Pending)[n..]
      ensures status == Ok ==> forall i {:trigger dest[i]} :: 0 <= i < n ==> dest[i] == old(Pending)[i]
      ensures status == Ok ==> forall i {:trigger dest[i]} :: n <= i < dest.Length ==> dest[i] == old(dest[i])
      // the fast path serves from the buffer alone
      ensures n <= old(bufferRemaining) ==>
                curPos == old(curPos) + n && bufferRemaining == old(bufferRemaining) - n &&
                istreamRemaining == old(istreamRemaining) && unchanged(stream, buffer)
      // a request the buffer cannot hold bypasses it and leaves it empty
      ensures status == Ok && old(bufferRemaining) < n && n - old(bufferRemaining) >= buffer.Length ==>
                curPos == 0 && bufferRemaining == 0
      // otherwise the buffer is refilled and keeps what the request did not need
      ensures status == Ok && old(bufferRemaining) < n && n - old(bufferRemaining) < buffer.Length ==>
                curPos == n - old(bufferRemaining) &&
                bufferRemaining + curPos == Min(old(RefillRequest()), old(|stream.Available()|))
      ensures status == Ok && constrained ==>
                istreamRemaining + bufferRemaining + n == old(istreamRemaining) + old(bufferRemaining)
    {
      if bufferRemaining >= n {
        Serve(dest, n);
        return Ok;
      }
      if OverBudget(n) {
        return Fail(InsufficientData);
      }
      status := ReadSlow(dest, n);
    }

    /** The fast path of `read`: the buffer alone holds the `n` bytes. */
    method Serve(dest: array<byte>, n: nat)
      requires Valid() && n <= dest.Length && dest != buffer && n <= bufferRemaining
      modifies this, dest
      ensures Valid() && Pending == old(Pending)[n..]
      ensures forall i {:trigger dest[i]} :: 0 <= i < n ==> dest[i] == old(Pending)[i]
      ensures forall i {:trigger dest[i]} :: n <= i < dest.Length ==> dest[i] == old(dest[i])
      ensures curPos == old(curPos) + n && bufferRemaining == old(bufferRemaining) - n
      ensures istreamRemaining == old(istreamRemaining)
    {
      MemCopy(buffer, curPos, dest, 0, n);
      curPos, bufferRemaining := curPos + n, bufferRemaining - n;
      Pending := Pending[n..];
    }

    /**
     * The slow path of `read`, past the constraint check: the leftover
     * buffered bytes go to the front of `dest`, then the rest comes either
     * straight from the stream or through a refilled buffer.
     */
    method ReadSlow(dest: array<byte>, n: nat) returns (status: Status)
      requires Valid() && n <= dest.Length && dest != buffer
      requires bufferRemaining < n && !OverBudget(n)
      modifies this, buffer, stream, dest
      ensures status == Ok <==> n <= old(|Pending|)
      ensures status.Fail? ==> status.error in {ReadError, PartialReadError}
      ensures status == Ok ==> Valid() && Pending == old(Pending)[n..]
      ensures status == Ok ==> forall i {:trigger dest[i]} :: 0 <= i < n ==> dest[i] == old(Pending)[i]
      ensures status == Ok ==> forall i {:trigger dest[i]} :: n <= i < dest.Length ==> dest[i] == old(dest[i])
      ensures status == Ok && n - old(bufferRemaining) >= buffer.Length ==> curPos == 0 && bufferRemaining == 0
      ensures status == Ok && n - old(bufferRemaining) < buffer.Length ==>
                curPos == n - old(bufferRemaining) &&
                bufferRemaining + curPos == Min(old(RefillRequest()), old(|stream.Available()|))
      ensures status == Ok && constrained ==>
                istreamRemaining + bufferRemaining + n == old(istreamRemaining) + old(bufferRemaining)
    {
      var alreadyRead := bufferRemaining;
      if alreadyRead > 0 {
        MemCopy(buffer, curPos, dest, 0, alreadyRead);
      }
      var toRead := n - alreadyRead;
      if toRead >= buffer.Length {
        status := ReadDirect(dest, alreadyRead, toRead);
      } else {
        status := Refill(dest, alreadyRead, toRead);
      }
    }

    /**
     * The bypass branch of `read`: `dest[..off]` already holds the buffered
     * bytes, and the remaining `k` bytes come straight from the stream.
     */
    method ReadDirect(dest: array<byte>, off: nat, k: nat) returns (status: Status)
      requires Valid() && dest != buffer && off + k <= dest.Length
      requires off == bufferRemaining && forall i {:trigger dest[i]} :: 0 <= i < off ==> dest[i] == Pending[i]
      requires buffer.Length <= k && 0 < k && (constrained ==> k <= istreamRemaining)
      modifies this, stream, dest
      ensures status == Ok <==> k <= old(|stream.Available()|)
      ensures status.Fail? ==> status.error == ReadError
      ensures status == Ok ==> Valid() && curPos == 0 && bufferRemaining == 0
      ensures status == Ok ==> Pending == old(Pending)[off + k..]
      ensures status == Ok ==> forall i {:trigger dest[i]} :: 0 <= i < off + k ==> dest[i] == old(Pending)[i]
      ensures status == Ok ==> forall i {:trigger dest[i]} :: off + k <= i < dest.Length ==> dest[i] == old(dest[i])
      ensures status == Ok && constrained ==> istreamRemaining == old(istreamRemaining) - k
    {
      stream.Read(dest, off, k);
      if stream.failed {
        return Fail(ReadError);
      }
      curPos, bufferRemaining := 0, 0;
      if constrained {
        istreamRemaining := istreamRemaining - k;
      }
      Pending := Pending[off + k..];
      return Ok;
    }

    /**
     * The refill branch of `read`: `dest[..off]` already holds the buffered
     * bytes; the buffer is refilled and its first `k` bytes complete `dest`.
     * A short stream read is accepted when it still covers those `k` bytes.
     */
    method Refill(dest: array<byte>, off: nat, k: nat) returns (status: Status)
      requires Valid() && dest != buffer && off + k <= dest.Length
      requires off == bufferRemaining && forall i {:trigger dest[i]} :: 0 <= i < off ==> dest[i] == Pending[i]
      requires 0 < k < buffer.Length && (constrained ==> k <= istreamRemaining)
      modifies this, buffer, stream, dest
      ensures status == Ok <==> k <= old(|stream.Available()|)
      ensures status.Fail? ==> status.error == PartialReadError
      ensures status == Ok ==> Valid() && curPos == k
      ensures status == Ok ==> bufferRemaining + k == Min(old(RefillRequest()), old(|stream.Available()|))
      ensures status == Ok ==> Pending == old(Pending)[off + k..]
      ensures status == Ok ==> forall i {:trigger dest[i]} :: 0 <= i < off + k ==> dest[i] == old(Pending)[i]
      ensures status == Ok ==> forall i {:trigger dest[i]} :: off + k <= i < dest.Length ==> dest[i] == old(dest[i])
      ensures status == Ok && constrained ==>
                istreamRemaining + bufferRemaining == old(istreamRemaining) - k
    {
      var ok, realRead := Fetch(off, k);
      if !ok {
        return Fail(PartialReadError);
      }
      Keep(dest, off, k, realRead);
      return Ok;
    }

    /**
     * The end of the refill branch: `buffer[..realRead]` holds the pending
     * bytes from `off` on; its first `k` bytes complete `dest` and the rest
     * stay buffered.
     */
    method Keep(dest: array<byte>, off: nat, k: nat, realRead: nat)
      requires stream.Valid() && dest != buffer && off + k <= dest.Length
      requires k <= realRead <= buffer.Length && off + realRead <= |Pending|
      requires forall i {:trigger buffer[i]} :: 0 <= i < realRead ==> buffer[i] == Pending[off + i]
      requires stream.Available() == Pending[off + realRead..]
      requires forall i {:trigger dest[i]} :: 0 <= i < off ==> dest[i] == Pending[i]
      requires if constrained then realRead <= istreamRemaining else istreamRemaining == SIZE_MAX
      modifies this, dest
      ensures Valid() && curPos == k && bufferRemaining == realRead - k
      ensures Pending == old(Pending)[off + k..]
      ensures forall i {:trigger dest[i]} :: 0 <= i < off + k ==> dest[i] == old(Pending)[i]
      ensures forall i {:trigger dest[i]} :: off + k <= i < dest.Length ==> dest[i] == old(dest[i])
      ensures istreamRemaining == old(istreamRemaining) - (if constrained then realRead else 0)
    {
      MemCopy(buffer, 0, dest, off, k);
      curPos, bufferRemaining := k, realRead - k;
      if constrained {
        istreamRemaining := istreamRemaining - realRead;
      }
      Pending := Pending[off + k..];
      assert Pending[bufferRemaining..] == old(Pending)[off + realRead..];
    }

    /**
     * The stream read of the refill branch: asks for RefillRequest() bytes
     * at the front of the buffer and accepts a short read that still
     * delivers the `k` bytes the request needs now. The stream's bytes are
     * the pending bytes from `off` on.
     */
    method Fetch(off: nat, k: nat) returns (ok: bool, realRead: nat)
      requires stream.Valid() && k <= RefillRequest() <= buffer.Length
      requires off <= |Pending| && Pending[off..] == stream.Available()
      modifies buffer, stream
      ensures stream.Valid()
      ensures ok <==> k <= old(|stream.Available()|)
      ensures ok ==> k <= realRead == Min(RefillRequest(), old(|stream.Available()|))
      ensures ok ==> stream.Available() == Pending[off + realRead..]
      ensures ok ==> forall i {:trigger buffer[i]} :: 0 <= i < realRead ==> buffer[i] == Pending[off + i]
    {
      realRead := RefillRequest();
      stream.Read(buffer, 0, realRead);
      if stream.failed {
        if stream.gcount >= k {
          realRead := stream.gcount;
        } else {
          return false, realRead;
        }
      }
      return true, realRead;
    }

    /**
     * `get<T>()`: reads the `width` bytes of a value into a temporary and
     * reinterprets them, least significant byte first.
     */
    method Get(width: nat) returns (r: Result<nat>)
      requires Valid()
      modifies this, buffer, stream
      ensures r == Failure(InsufficientData) <==> old(OverBudget(width))
      ensures old(OverBudget(width)) ==> Valid() && unchanged(this, buffer, stream)
      ensures r.Failure? ==> r.error in {InsufficientData, ReadError, PartialReadError}
      ensures r.Success? <==>
                width <= old(bufferRemaining) || (!old(OverBudget(width)) && width <= old(|Pending|))
      ensures r.Success? ==> Valid() && r.value == FromLittleEndian(old(Pending)[..width])
      ensures r.Success? ==> Pending == old(Pending)[width..]
      ensures r.Success? && constrained ==>
                istreamRemaining + bufferRemaining + width == old(istreamRemaining) + old(bufferRemaining)
    {
      var image := new byte[width];
      var status := Read(image, width);
      if status.Ok? {
        assert image[..] == old(Pending)[..width];
        r := Success(FromLittleEndian(image[..]));
      } else {
        r := Failure(status.error);
      }
    }

    /** `get_num_bytes_remaining()`: the budget, SIZE_MAX without the constraint. */
    function NumBytesRemaining(): (r: nat)
      reads this, buffer, stream
      requires Valid()
      ensures !constrained ==> r == SIZE_MAX
    {
      istreamRemaining
    }

    /** `increase_num_bytes_constraint(k)`: raises the budget, a no-op without the constraint. */
    method IncreaseNumBytesConstraint(k: nat)
      requires Valid()
      modifies this`istreamRemaining
      ensures Valid()
      ensures istreamRemaining == old(istreamRemaining) + (if constrained then k else 0)
    {
      if constrained {
        istreamRemaining := istreamRemaining + k;
      }
    }
  }
}
