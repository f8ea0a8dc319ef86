/**
 * The byte channels the buffered adapters sit on, modelled after the parts of
 * `std::istream` and `std::ostream` that the adapters use, together with the
 * error kinds they raise and the `memcpy` they copy with.
 */
module Streams {

  newtype byte = x: int | 0 <= x < 256

  /** `(std::size_t)-1` on a 64-bit platform: the "no budget given" value. */
  const SIZE_MAX: nat := 0xFFFF_FFFF_FFFF_FFFF

  function Min(a: nat, b: nat): nat
  {
    if a <= b then a else b
  }

  /** One constructor per `std::runtime_error` the adapters throw. */
  datatype Error =
    | ConfigurationError   // a budget was given to an adapter without the constraint
    | InsufficientData     // the reader's budget does not cover the request
    | ReadError            // the stream failed while reading straight into the destination
    | PartialReadError     // a refill delivered fewer bytes than the request needs now
    | CapacityExceeded     // the writer's budget does not cover the write
    | WriteError           // the stream failed while the staged buffer was emitted
    | PartialWriteError    // the stream failed while the remainder was written directly

  /** Outcome of an operation that returns nothing: it completes or throws. */
  datatype Status = Ok | Fail(error: Error)

  /** Outcome of an operation that returns a value. */
  datatype Result<T> = Success(value: T) | Failure(error: Error)

  /**
   * An input stream over a fixed byte sequence. `failed` is the stream's
   * fail bit: once set it stays set, and every later read delivers nothing.
   * `gcount` is the number of bytes the last read delivered.
   */
  class InputStream {
    const data: seq<byte>
    var pos: nat
    var failed: bool
    var gcount: nat

    ghost predicate Valid()
      reads this
    {
      pos <= |data|
    }

    /** The bytes a reader can still obtain from this stream. */
    ghost function Available(): seq<byte>
      reads this
      requires Valid()
    {
      if failed then [] else data[pos..]
    }

    constructor (data: seq<byte>)
      ensures Valid() && this.data == data
      ensures pos == 0 && !failed && gcount == 0
      ensures Available() == data
    {
      this.data := data;
      pos := 0;
      failed := false;
      gcount := 0;
    }

    /**
     * `istream::read(dst + off, k)`: delivers the next `min(k, available)`
     * bytes and sets the fail bit when that is fewer than `k`.
     */
    method Read(dst: array<byte>, off: nat, k: nat)
      requires Valid() && off + k <= dst.Length
      modifies this, dst
      ensures Valid()
      ensures gcount == Min(k, |old(Available())|)
      ensures failed <==> old(failed) || gcount < k
      ensures forall i {:trigger dst[i]} :: off <= i < off + gcount ==> dst[i] == old(Available())[i - off]
      ensures forall i {:trigger dst[i]} :: 0 <= i < dst.Length && !(off <= i < off + gcount) ==>
                dst[i] == old(dst[i])
      ensures Available() == old(Available())[gcount..]
    {
      if failed {
        gcount := 0;
      } else {
        gcount := Min(k, |data| - pos);
        forall i | 0 <= i < gcount {
          dst[off + i] := data[pos + i];
        }
        pos := pos + gcount;
        failed := gcount < k;
      }
    }
  }

  /**
   * An output stream onto a device that holds at most `limit` bytes. A write
   * that does not fit, or any write once the fail bit is set, is refused
   * whole and sets the fail bit.
   */
  class OutputStream {
    const limit: nat
    var sink: seq<byte>
    var failed: bool

    /** Whether a write of `k` bytes would succeed now. */
    predicate Accepts(k: nat)
      reads this
    {
      !failed && |sink| + k <= limit
    }

    constructor (limit: nat)
      ensures this.limit == limit && sink == [] && !failed
    {
      this.limit := limit;
      sink := [];
      failed := false;
    }

    /** `ostream::write(bytes, |bytes|)`. */
    method Write(bytes: seq<byte>)
      modifies this
      ensures old(Accepts(|bytes|)) ==> !failed && sink == old(sink) + bytes
      ensures !old(Accepts(|bytes|)) ==> failed && sink == old(sink)
    {
      if Accepts(|bytes|) {
        sink := sink + bytes;
      } else {
        failed := true;
      }
    }
  }

  /** `memcpy(dst + dstOff, src + srcOff, k)` between two distinct arrays. */
  method MemCopy(src: array<byte>, srcOff: nat, dst: array<byte>, dstOff: nat, k: nat)
    requires src != dst
    requires srcOff + k <= src.Length && dstOff + k <= dst.Length
    modifies dst
    ensures forall i {:trigger dst[i]} :: dstOff <= i < dstOff + k ==> dst[i] == src[srcOff + (i - dstOff)]
    ensures forall i {:trigger dst[i]} :: 0 <= i < dst.Length && !(dstOff <= i < dstOff + k) ==>
              dst[i] == old(dst[i])
  {
    forall i | 0 <= i < k {
      dst[dstOff + i] := src[srcOff + i];
    }
  }

  /** `memcpy(dst + dstOff, src + srcOff, k)` from bytes the copy does not change. */
  method CopyIn(src: seq<byte>, srcOff: nat, dst: array<byte>, dstOff: nat, k: nat)
    requires srcOff + k <= |src| && dstOff + k <= dst.Length
    modifies dst
    ensures forall i {:trigger dst[i]} :: dstOff <= i < dstOff + k ==> dst[i] == src[srcOff + (i - dstOff)]
    ensures forall i {:trigger dst[i]} :: 0 <= i < dst.Length && !(dstOff <= i < dstOff + k) ==>
              dst[i] == old(dst[i])
  {
    forall i | 0 <= i < k {
      dst[dstOff + i] := src[srcOff + i];
    }
  }
}
