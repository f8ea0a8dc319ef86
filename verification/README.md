# buffered_stream in Dafny

A model of the two class templates of the buffered_stream library and of a
session that uses them:

- `BufferedReader<use_read_constraint>` pulls bytes from a `std::istream`
  through a fixed-size buffer. `read(dest, n)` serves from the buffer when it
  holds `n` bytes. Otherwise it drains what the buffer holds and then either
  reads the rest straight into `dest` (when the rest does not fit the buffer)
  or refills the buffer and copies the rest from it. With the constraint on,
  the reader keeps a budget of bytes it may still take from the stream, which
  the caller raises with `increase_num_bytes_constraint`; a read the budget
  cannot cover is refused.
- `BufferedWriter<use_write_constraint>` stages bytes in a fixed-size buffer.
  `write(src, n)` copies into the buffer when it has room. Otherwise it tops
  the buffer up, hands the full buffer to the `std::ostream`, and then either
  writes the rest straight to the stream or stages it at the front of the
  buffer. `flush()` hands the staged bytes over. With the constraint on,
  the writer refuses a slow-path write unless its budget covers a whole
  buffer plus the part of the write that does not fit the room left, and the
  budget falls only when the buffer or a direct write reaches the stream.

Both classes become Dafny classes with the fields of the C++ objects
(`curPos`, `bufferRemaining`, `istreamRemaining`/`ostreamRemaining`, the
buffer as an `array<byte>`). Each class carries one ghost field that says
what its state means:

- the reader's `Pending` is the bytes the next reads will hand out, in order;
- the writer's `Staged` is the bytes written but not yet handed to the stream.

`Valid()` ties each ghost field to the buffer and the stream. Every operation
is proved against it:

- a successful read of `n` bytes delivers `Pending[..n]` and leaves
  `Pending[n..]`;
- a successful write of `src` makes the stream's bytes followed by `Staged`
  grow by exactly `src`.

Under the constraint, reads and `get` lower the reader's budget plus its
buffered count by exactly the bytes read, and writes and `put` keep the
writer's budget plus the stream's byte count constant. The program's
`flush()` does not keep the writer's account: it hands the staged bytes to
the stream without checking or charging the budget (see "## Findings").

The streams are classes too:

- `InputStream` is a fixed byte sequence with a read position, a sticky fail
  bit and `gcount`.
- `OutputStream` is a device with a capacity. A write that does not fit, or
  any write after a failure, is refused whole and sets the fail bit.

`memcpy` is `MemCopy`/`CopyIn`. The `std::runtime_error`s become a `Status`
or `Result` carrying an `Error` kind. The throwing constructors become
`Open`, which returns `Failure(ConfigurationError)` where C++ throws.

`put<T>`/`get<T>` reinterpret a value's bytes. They are modelled for unsigned
integers of `width` bytes, least significant byte first, with both round
trips proved in `Encoding`.

`Sessions` follows test.cpp:
- values and a raw string are put through a writer, the writer is flushed,
  and a constrained reader on the same bytes gets them back;
- the caller grants budget before each item;
- the round trip is proved for any items, any buffer sizes and any grants
  that cover every prefix of the items.

## Model

| member | source | states |
|---|---|---|
| Streams.InputStream.Read | BufferedReader.hpp:71-72 | `istream::read` delivers `min(k, available)` bytes at `dst[off..]`, leaves the rest of `dst` alone, consumes exactly those bytes and sets the sticky fail bit exactly when fewer than `k` came; `gcount` is the count delivered |
| Streams.OutputStream.Write | BufferedWriter.hpp:67-68 | `ostream::write` appends all the bytes when the device accepts them and otherwise appends nothing and sets the fail bit |
| Streams.MemCopy | BufferedReader.hpp:49 | `memcpy` from the buffer: `dst[dstOff + i] == src[srcOff + i]` for `i < k`, every other element of `dst` unchanged |
| Streams.CopyIn | BufferedWriter.hpp:49 | `memcpy` into the buffer from the caller's bytes, with the same two facts as MemCopy |
| Encoding.LittleEndian | BufferedWriter.hpp:39-43 | the image `put<T>` writes for a value has exactly `sizeof(T)` (`width`) bytes |
| Encoding.FromLittleEndian | BufferedReader.hpp:37-43 | the value `get<T>` reinterprets from `width` bytes is below `256^width` |
| Encoding.DecodeEncode | BufferedReader.hpp:42 | reinterpreting the image of a value that fits the width gives the value back |
| Encoding.EncodeDecode | BufferedWriter.hpp:42 | every byte image is the image of the value reinterpreted from it |
| Encoding.LittleEndianInjective | BufferedWriter.hpp:42 | two values that fit the width and have the same image are equal |
| Reading.BufferedReader.constructor | BufferedReader.hpp:20-27 | a new reader has an empty buffer of the given size and the given budget, and its pending bytes are what the stream holds |
| Reading.BufferedReader.Open | BufferedReader.hpp:20-31 | construction fails with ConfigurationError exactly when a budget other than SIZE_MAX is given without the constraint; otherwise the reader is as the constructor makes it: cursor 0, nothing buffered, the given budget, and the stream's bytes pending |
| Reading.BufferedReader.Read | BufferedReader.hpp:45-106 | fails with InsufficientData, changing nothing, exactly when the slow path's budget check fails; succeeds exactly when the buffer holds `n` bytes or the budget allows and `n` bytes are pending; on success `dest[..n]` is the next `n` pending bytes, the rest of `dest` is unchanged, `Pending` loses exactly those bytes, and under the constraint budget plus buffered count falls by exactly `n`; the cursor after each of the three paths |
| Reading.BufferedReader.Serve | BufferedReader.hpp:47-53 | the fast path copies `n` buffered bytes, advances the cursor by `n` and keeps the stream and the budget |
| Reading.BufferedReader.ReadSlow | BufferedReader.hpp:54-105 | after the budget check passed: drains the buffer into `dest`, then bypasses or refills; succeeds exactly when `n` bytes are pending, with the same delivery and accounting as Read |
| Reading.BufferedReader.ReadDirect | BufferedReader.hpp:69-82 | reads the rest straight into `dest` after the drained prefix; fails with ReadError exactly when the stream holds fewer bytes; on success the buffer is empty and the budget falls by the bytes read |
| Reading.BufferedReader.Refill | BufferedReader.hpp:83-104 | refills the buffer, then copies the rest into `dest`; fails with PartialReadError exactly when the stream cannot supply the rest; on success the cursor is at the rest's length and the buffer keeps what the refill brought beyond it |
| Reading.BufferedReader.Fetch | BufferedReader.hpp:84-94 | asks the stream for a whole buffer, or the budget when that is smaller; fails exactly when fewer than `to_read` bytes arrive; otherwise counts `min(request, available)` bytes, taking `gcount` when the stream fell short, and the buffer holds the next pending bytes |
| Reading.BufferedReader.Keep | BufferedReader.hpp:96-103 | copies the rest from the refilled buffer into `dest`, sets the cursor to `(to_read, real_read - to_read)` and charges the budget `real_read` |
| Reading.BufferedReader.Get | BufferedReader.hpp:37-43 | `get<T>` succeeds exactly when `read` of `width` bytes does; the value is the one the next `width` pending bytes stand for, and those bytes are consumed; a failure is InsufficientData (exactly when over budget, with nothing changed), ReadError or PartialReadError |
| Reading.BufferedReader.NumBytesRemaining | BufferedReader.hpp:108-111 | the budget, which is SIZE_MAX without the constraint |
| Reading.BufferedReader.IncreaseNumBytesConstraint | BufferedReader.hpp:113-118 | raises the budget by `k` under the constraint and changes nothing without it |
| Writing.BufferedWriter.constructor | BufferedWriter.hpp:21-28 | a new writer has an empty buffer of the given size, nothing staged and the given budget |
| Writing.BufferedWriter.Open | BufferedWriter.hpp:21-32 | construction fails with ConfigurationError exactly when a budget other than SIZE_MAX is given without the constraint |
| Writing.BufferedWriter.Write | BufferedWriter.hpp:45-103 | fails with CapacityExceeded, changing nothing, exactly when the slow path's budget check fails; fails with WriteError exactly when the stream refuses the full buffer; succeeds exactly when the write fits the room left or the stream accepts everything the slow path emits; on success the stream's bytes followed by `Staged` grow by exactly `src`, and under the constraint the budget falls by exactly what reached the stream; the cursor after each of the three paths |
| Writing.BufferedWriter.Stage | BufferedWriter.hpp:47-53 | the fast path appends `src` to `Staged` and moves the cursor by `|src|` |
| Writing.BufferedWriter.WriteSlow | BufferedWriter.hpp:55-102 | after the budget check passed: succeeds exactly when the stream accepts every emission; on success it is the same stream-plus-staged growth as Write |
| Writing.BufferedWriter.TopUp | BufferedWriter.hpp:61-74 | fills the room left with the head of `src` and, when something was staged, hands the full buffer to the stream; fails with WriteError exactly when the stream refuses it; on success the buffer is empty and the budget falls by a whole buffer when one was emitted |
| Writing.BufferedWriter.WriteDirect | BufferedWriter.hpp:80-93 | writes the rest straight to the stream; fails with PartialWriteError exactly when the stream refuses it; on success the buffer stays empty and the budget falls by the rest's length |
| Writing.BufferedWriter.Restage | BufferedWriter.hpp:94-101 | stages the rest at the front of the buffer: `Staged` is the rest and the room left is the buffer size minus its length |
| Writing.BufferedWriter.Put | BufferedWriter.hpp:39-43 | `put<T>` is `write` of the value's `width`-byte image, with Write's outcome and effect: a CapacityExceeded refusal exactly when over budget, leaving the writer valid and buffer and stream untouched; WriteError exactly when the full-buffer emission is refused; on success the image appended to the stream's bytes followed by `Staged`, with the budget account kept |
| Writing.BufferedWriter.Flush | BufferedWriter.hpp:110-119 | as written: succeeds exactly when nothing is staged or the stream accepts the staged bytes, then appends them to the stream and keeps them staged |
| Writing.BufferedWriter.FlushAndReset | BufferedWriter.hpp:110-119 | corrected flush: under the constraint, fails with CapacityExceeded and changes nothing exactly when the budget is below the staged count; otherwise it has Flush's outcome, and on success the buffer is empty, the stream's bytes followed by `Staged` are unchanged, and the budget plus the stream's byte count is unchanged |
| Writing.BufferedWriter.NumBytesRemaining | BufferedWriter.hpp:105-108 | the budget, which is SIZE_MAX without the constraint |
| Sessions.ConcatInjective | test.cpp:44-66 | two item lists of the same shapes with the same concatenated bytes agree item by item on their images |
| Sessions.ImageInjective | test.cpp:45-57 | two items of the same shape with the same image are equal when their values fit their widths |
| Sessions.WriteItem | test.cpp:16-34 | putting one value or raw string on a device with room for it succeeds and appends its image to the stream's bytes followed by the staged bytes |
| Sessions.WriteItems | test.cpp:12-34 | putting all items in order on a device with room for them succeeds, and the stream's bytes followed by the staged bytes grow by the items' images |
| Sessions.ReadItem | test.cpp:45-65 | getting one item of a given shape, when the stream holds it and the budget covers it, returns an item of that shape whose image is the next pending bytes, and charges its width to the budget |
| Sessions.GrantAndRead | test.cpp:47-49 | raising the budget by a grant and then reading one item leaves budget plus buffered count raised by the grant and lowered by the width |
| Sessions.ReadItems | test.cpp:42-66 | reading shape by shape with a grant before each item succeeds when the stream holds the bytes and every prefix is covered by the budget granted so far; the items come back in their shapes with fitting values, their bytes are the first pending bytes, and the budget accounting is exact |
| Sessions.Record | test.cpp:12-37 | the writing half of the session, ending with the program's own flush, leaves exactly the items' bytes on the device, for any buffer size and any device capacity that holds them |
| Sessions.Replay | test.cpp:42-66 | the reading half gets back items of the given shapes whose bytes are the first bytes of the stream, for any buffer size, and leaves at most the granted budget beyond what was read |
| Sessions.RoundTrip | test.cpp:12-66 | the items read back are the items written, for any writer and reader buffer sizes, device capacity that holds the items, initial budget and grants that cover every prefix |
| Sessions.FlushTwiceAsWritten | BufferedWriter.hpp:110-119 | with a 5-byte buffer: write [1, 2], flush, write [3, 4, 5], flush leaves [1, 2, 1, 2, 3, 4, 5] on the device |
| Sessions.FlushTwiceCorrected | BufferedWriter.hpp:110-119 | the same session with the corrected flush leaves [1, 2, 3, 4, 5] |
| Sessions.FlushOverBudgetAsWritten | BufferedWriter.hpp:110-119 | a constrained writer with a 5-byte buffer and a budget of 8: writes of 3, 3 and 4 bytes, then a flush, leave 10 bytes on the device with 3 of the budget reported left |
| Sessions.FlushOverBudgetCorrected | BufferedWriter.hpp:110-119 | the same session with the corrected flush: the flush fails with CapacityExceeded and the device holds 5 bytes |

## Left out

- `reinterpret_cast` of arbitrary `T`: `put<T>`/`get<T>` handle unsigned integers of `width` bytes, least significant byte first. Signed, floating-point and composite types and big-endian layouts are not modelled.
- `std::size_t` arithmetic is unbounded here, and the model does not wrap it:
  - In C++ the reader's sum `s_buffer_remaining + s_istream_remaining` (BufferedReader.hpp:56) and its increment at BufferedReader.hpp:116 can wrap when the budget is near SIZE_MAX.
  - The writer's `s_buffer_size + num_bytes - s_buffer_remaining` (BufferedWriter.hpp:57) holds no budget. It wraps only for a write of more than `SIZE_MAX - s_buffer_size + s_buffer_remaining` bytes.
- The `(int) to_read` cast at BufferedReader.hpp:89 is modelled as a plain comparison. `to_read` is smaller than the buffer size there.
- `p_ostream->flush()` at BufferedWriter.hpp:118 is not modelled. The device has no separate flushed state.
- Destructors are not modelled. The reader's only frees its buffer. The writer's calls `flush()` (BufferedWriter.hpp:34-37); here that is a Flush call the owner makes. The second flush that test.cpp's writer performs at the end of `test()` comes after the reading and is not part of Sessions.
- Reading.BufferedReader.Read: after ReadError or PartialReadError, the contract states only the error kind. The partial copies into `dest`, the bytes the stream consumed and the fields are left unstated.
- Writing.BufferedWriter.Write: after WriteError or PartialWriteError, the contract states only the error kind. The bytes staged by the top-up and the fields are left unstated.
- Stream failures other than running out of bytes (input) or of capacity (output) are represented only by the fail bit. I/O errors of a real device are not modelled.
- Allocation of the buffers (`new char[buffer_size]`) cannot fail here.
- The writer's `src` is a value (`seq<byte>`), so a `src` that aliases the writer's own buffer is not modelled. The reader's `dest` must not be its own buffer, which callers cannot reach anyway.
- Sessions.WriteItems: covers the unconstrained writer that test.cpp uses (`BufferedWriter<false>`). Constrained writers are covered by Write's own contract only.
- Sessions.Replay: states the budget left as at most the granted budget beyond what was read. The exact statement is that the budget plus the bytes the reader has buffered ahead equals it, which ReadItems states.
- Sessions.RoundTrip: proved for any items, buffer sizes and grants. The concrete values of test.cpp (a `size_t` 10, ten `int`s, a `size_t` 10, ten `char`s, "hello world" with its terminator, buffers of 5 and 3 bytes, an initial budget of 16 and grants of 40, 10 and 12) are an instance of it. That instance is not spelled out as a separate member.

## Findings

| source | as written | input that shows it | evidently intended | confidence | as-written member | corrected member |
|---|---|---|---|---|---|---|
| BufferedWriter.hpp:110-119 | `flush()` hands `p_buffer[0..s_cur_pos)` to the stream but leaves `s_cur_pos` and `s_buffer_remaining` as they were, so the flushed bytes stay staged and the next flush or full-buffer emission hands them over again | a writer with a 5-byte buffer: write [1, 2], flush, write [3, 4, 5], flush; the device receives 1, 2, 1, 2, 3, 4, 5 | each byte reaches the stream once: the flush empties the buffer, and the device receives 1, 2, 3, 4, 5 | not executed | Sessions.FlushTwiceAsWritten | Writing.BufferedWriter.FlushAndReset |
| BufferedWriter.hpp:110-119 | `flush()` hands the `s_cur_pos` staged bytes to the stream without checking them against `s_ostream_remaining` and without charging them. The check at line 57 reserves only the emitted buffer plus the staged remainder, and later fast-path writes fill the buffer unchecked | a constrained writer with a 5-byte buffer and a budget of 8: write 3 bytes, 3 bytes, 4 bytes, then flush; the device receives 10 bytes and `get_num_bytes_remaining()` reports 3 | every write to the stream is checked against the budget and charged to it, so the device never receives more than the budget: the flush fails with a capacity error and the device holds 5 bytes | not executed | Sessions.FlushOverBudgetAsWritten | Writing.BufferedWriter.FlushAndReset |
