/**
 * A session as the repository's test runs one: values and raw strings are
 * put through a BufferedWriter onto a stream, the writer is flushed, and a
 * constrained BufferedReader on the same bytes gets them back, its budget
 * raised by the caller as it goes.
 */
module Sessions {
  import opened Streams
  import opened Encoding
  import opened Reading
  import opened Writing

  /** One thing put into the stream: a value of `width` bytes (`put<T>`) or raw bytes (`write`). */
  datatype Item = Value(value: nat, width: nat) | Raw(bytes: seq<byte>)

  function Width(item: Item): nat
  {
    match item
    case Value(_, width) => width
    case Raw(bytes) => |bytes|
  }

  /** The bytes an item puts into the stream. */
  function Image(item: Item): (r: seq<byte>)
    ensures |r| == Width(item)
  {
    match item
    case Value(value, width) => LittleEndian(value, width)
    case Raw(bytes) => bytes
  }

  /** The number of bytes the items take, one after another. */
  function Total(items: seq<Item>): nat
  {
    if items == [] then 0 else Total(items[..|items| - 1]) + Width(items[|items| - 1])
  }

  /** The bytes of the items, one after another. */
  function Concat(items: seq<Item>): (r: seq<byte>)
    ensures |r| == Total(items)
  {
    if items == [] then [] else Concat(items[..|items| - 1]) + Image(items[|items| - 1])
  }

  function Sum(xs: seq<nat>): nat
  {
    if xs == [] then 0 else Sum(xs[..|xs| - 1]) + xs[|xs| - 1]
  }

  /** Every value fits the width it is put with, so that its image stands for it alone. */
  predicate Fits(items: seq<Item>)
  {
    forall i :: 0 <= i < |items| && items[i].Value? ==> items[i].value < Pow256(items[i].width)
  }

  /** What a reader knows of an item before reading it: its kind and its width. */
  predicate SameShape(a: Item, b: Item)
  {
    a.Value? == b.Value? && Width(a) == Width(b)
  }

  /** Appending an item appends its image, keeps the values fitting and the earlier items in place. */
  lemma Extend(items: seq<Item>, item: Item)
    ensures Concat(items + [item]) == Concat(items) + Image(item)
    ensures Fits(items) && Fits([item]) ==> Fits(items + [item])
    ensures forall j :: 0 <= j < |items| ==> (items + [item])[j] == items[j]
  {
    assert (items + [item])[..|items|] == items;
  }

  /** The sums over one prefix more grow by the next element. */
  lemma PrefixStep(shapes: seq<Item>, grants: seq<nat>, i: nat)
    requires i < |shapes| && i < |grants|
    ensures Total(shapes[..i + 1]) == Total(shapes[..i]) + Width(shapes[i])
    ensures Sum(grants[..i + 1]) == Sum(grants[..i]) + grants[i]
  {
    assert shapes[..i + 1][..i] == shapes[..i];
    assert grants[..i + 1][..i] == grants[..i];
  }

  /** The first `t + w` bytes are the first `t` followed by the `w` after them. */
  lemma SliceStep(bytes: seq<byte>, t: nat, w: nat)
    requires t + w <= |bytes|
    ensures bytes[..t + w] == bytes[..t] + bytes[t..][..w]
    ensures bytes[t..][w..] == bytes[t + w..]
  {
  }

  /** The items before position `k` take no more bytes than all of them. */
  lemma {:induction false} TotalPrefix(items: seq<Item>, k: nat)
    requires k <= |items|
    ensures Total(items[..k]) <= Total(items)
    decreases |items|
  {
    if k < |items| {
      var last := |items| - 1;
      assert items[..last][..k] == items[..k];
      TotalPrefix(items[..last], k);
    } else {
      assert items[..k] == items;
    }
  }

  /** Two concatenations with heads of the same length have the same heads and tails. */
  lemma SplitEqual(head1: seq<byte>, tail1: seq<byte>, head2: seq<byte>, tail2: seq<byte>)
    requires |head1| == |head2| && head1 + tail1 == head2 + tail2
    ensures head1 == head2 && tail1 == tail2
  {
    assert head1 == (head1 + tail1)[..|head1|];
    assert head2 == (head2 + tail2)[..|head2|];
    assert tail1 == (head1 + tail1)[|head1|..];
    assert tail2 == (head2 + tail2)[|head2|..];
  }

  /** Same bytes and a last item of the same shape: the last images and the bytes before them agree. */
  lemma LastEqual(a: seq<Item>, b: seq<Item>)
    requires |a| == |b| > 0 && Width(a[|a| - 1]) == Width(b[|b| - 1]) && Concat(a) == Concat(b)
    ensures Concat(a[..|a| - 1]) == Concat(b[..|b| - 1]) && Image(a[|a| - 1]) == Image(b[|b| - 1])
  {
    SplitEqual(Concat(a[..|a| - 1]), Image(a[|a| - 1]), Concat(b[..|b| - 1]), Image(b[|b| - 1]));
  }

  /** Dropping the last item of two lists keeps their shapes paired. */
  lemma ShapesPrefix(a: seq<Item>, b: seq<Item>, k: nat)
    requires k <= |a| == |b| && forall i :: 0 <= i < |a| ==> SameShape(a[i], b[i])
    ensures forall i :: 0 <= i < k ==> SameShape(a[..k][i], b[..k][i])
  {
  }

  /** Agreement on the images before `k` and at `k` is agreement up to `k + 1`. */
  lemma ImagesExtend(a: seq<Item>, b: seq<Item>, k: nat)
    requires k < |a| == |b| && Image(a[k]) == Image(b[k])
    requires forall i :: 0 <= i < k ==> Image(a[..k][i]) == Image(b[..k][i])
    ensures forall i :: 0 <= i <= k ==> Image(a[i]) == Image(b[i])
  {
    forall i | 0 <= i <= k
      ensures Image(a[i]) == Image(b[i])
    {
      if i < k {
        assert a[..k][i] == a[i] && b[..k][i] == b[i];
      }
    }
  }

  /**
   * Item lists of the same shapes with the same bytes have the same images,
   * item by item: the stream alone, read shape by shape, gives each item back.
   */
  lemma {:induction false} ConcatInjective(a: seq<Item>, b: seq<Item>)
    requires |a| == |b| && forall i :: 0 <= i < |a| ==> SameShape(a[i], b[i])
    requires Concat(a) == Concat(b)
    ensures forall i :: 0 <= i < |a| ==> Image(a[i]) == Image(b[i])
  {
    if a != [] {
      var last := |a| - 1;
      LastEqual(a, b);
      ShapesPrefix(a, b, last);
      ConcatInjective(a[..last], b[..last]);
      ImagesExtend(a, b, last);
    }
  }

  /** Items of the same shape whose values fit are equal when their images are. */
  lemma ImageInjective(a: Item, b: Item)
    requires SameShape(a, b) && Image(a) == Image(b)
    requires a.Value? ==> a.value < Pow256(a.width) && b.value < Pow256(b.width)
    ensures a == b
  {
    if a.Value? {
      LittleEndianInjective(a.value, b.value, a.width);
    }
  }

  /** Puts one item: `put<T>` for a value, `write` for raw bytes. */
  method WriteItem(writer: BufferedWriter, item: Item)
    requires writer.Valid() && !writer.constrained && !writer.stream.failed
    requires |writer.stream.sink| + |writer.Staged| + Width(item) <= writer.stream.limit
    modifies writer, writer.buffer, writer.stream
    ensures writer.Valid() && !writer.stream.failed
    ensures writer.stream.sink + writer.Staged == old(writer.stream.sink + writer.Staged) + Image(item)
  {
    var n := Width(item);
    if writer.bufferRemaining < n {
      assert writer.Emission(n) <= |writer.Staged| + n;
    }
    var status;
    match item
    case Value(value, width) =>
      status := writer.Put(value, width);
    case Raw(bytes) =>
      status := writer.Write(bytes);
    assert status == Ok;
  }

  /**
   * Puts every item through an unconstrained writer (test.cpp:12-34). A
   * device with room for everything already written, staged and still to
   * come accepts every write, and the device's bytes followed by the staged
   * bytes grow by the items' images.
   */
  method WriteItems(writer: BufferedWriter, items: seq<Item>)
    requires writer.Valid() && !writer.constrained && !writer.stream.failed
    requires |writer.stream.sink| + |writer.Staged| + Total(items) <= writer.stream.limit
    modifies writer, writer.buffer, writer.stream
    ensures writer.Valid() && !writer.stream.failed
    ensures writer.stream.sink + writer.Staged == old(writer.stream.sink + writer.Staged) + Concat(items)
  {
    ghost var before := writer.stream.sink + writer.Staged;
    for i := 0 to |items|
      invariant writer.Valid() && !writer.stream.failed
      invariant writer.stream.sink + writer.Staged == before + Concat(items[..i])
    {
      assert items[..i + 1][..i] == items[..i];
      TotalPrefix(items, i + 1);
      WriteItem(writer, items[i]);
    }
    assert items[..|items|] == items;
  }

  /**
   * Gets back one item of the given shape: `get<T>` for a value, `read`
   * into an array of the raw bytes' length for raw bytes.
   */
  method ReadItem(reader: BufferedReader, shape: Item) returns (item: Item)
    requires reader.Valid() && Width(shape) <= |reader.Pending|
    requires reader.constrained ==> Width(shape) <= reader.istreamRemaining + reader.bufferRemaining
    modifies reader, reader.buffer, reader.stream
    ensures reader.Valid() && SameShape(item, shape) && Fits([item])
    ensures Image(item) == old(reader.Pending)[..Width(shape)]
    ensures reader.Pending == old(reader.Pending)[Width(shape)..]
    ensures reader.constrained ==>
              reader.istreamRemaining + reader.bufferRemaining + Width(shape) ==
              old(reader.istreamRemaining) + old(reader.bufferRemaining)
  {
    match shape
    case Value(_, width) =>
      var r := reader.Get(width);
      assert r.Success?;
      item := Value(r.value, width);
      EncodeDecode(old(reader.Pending)[..width]);
    case Raw(bytes) =>
      var dest := new byte[|bytes|];
      var status := reader.Read(dest, |bytes|);
      assert status == Ok;
      assert dest[..] == old(reader.Pending)[..|bytes|];
      item := Raw(dest[..]);
  }

  /**
   * Raises the budget by `grant`, then gets back one item of the given
   * shape, as the `consumed`th byte onward of `pending`. The reader's budget
   * plus its buffered count stays `budget + granted` minus what was consumed.
   */
  method GrantAndRead(reader: BufferedReader, shape: Item, grant: nat,
                      ghost pending: seq<byte>, ghost budget: nat, ghost consumed: nat, ghost granted: nat)
    returns (item: Item)
    requires reader.Valid() && consumed + Width(shape) <= |pending| && reader.Pending == pending[consumed..]
    requires reader.constrained ==>
               reader.istreamRemaining + reader.bufferRemaining + consumed == budget + granted &&
               consumed + Width(shape) <= budget + granted + grant
    modifies reader, reader.buffer, reader.stream
    ensures reader.Valid() && reader.Pending == pending[consumed + Width(shape)..]
    ensures reader.constrained ==>
              reader.istreamRemaining + reader.bufferRemaining + consumed + Width(shape) == budget + granted + grant
    ensures SameShape(item, shape) && Fits([item]) && Image(item) == pending[consumed..][..Width(shape)]
  {
    reader.IncreaseNumBytesConstraint(grant);
    item := ReadItem(reader, shape);
    assert pending[consumed..][Width(shape)..] == pending[consumed + Width(shape)..];
  }

  /**
   * The items read back so far, `back`, answer the first `i` shapes and are
   * the first `consumed` bytes of `pending`, and `granted` is the budget
   * granted for them.
   */
  ghost predicate ReadSoFar(back: seq<Item>, shapes: seq<Item>, grants: seq<nat>, pending: seq<byte>,
                            i: nat, consumed: nat, granted: nat)
  {
    |back| == i <= |shapes| && i <= |grants| && Fits(back) &&
    (forall j :: 0 <= j < i ==> SameShape(back[j], shapes[j])) &&
    consumed == Total(shapes[..i]) && granted == Sum(grants[..i]) &&
    consumed <= |pending| && Concat(back) == pending[..consumed]
  }

  /** Reading the next item in its shape extends what was read so far by one. */
  lemma ReadStep(back: seq<Item>, shapes: seq<Item>, grants: seq<nat>, pending: seq<byte>,
                 i: nat, consumed: nat, granted: nat, item: Item)
    requires ReadSoFar(back, shapes, grants, pending, i, consumed, granted) && i < |shapes| && i < |grants|
    requires consumed + Width(shapes[i]) <= |pending|
    requires SameShape(item, shapes[i]) && Fits([item])
    requires Image(item) == pending[consumed..][..Width(shapes[i])]
    ensures ReadSoFar(back + [item], shapes, grants, pending, i + 1, consumed + Width(shapes[i]), granted + grants[i])
  {
    var w, next := Width(shapes[i]), back + [item];
    PrefixStep(shapes, grants, i);
    SliceStep(pending, consumed, w);
    Extend(back, item);
    assert Concat(next) == pending[..consumed + w];
    forall j | 0 <= j < i + 1
      ensures SameShape(next[j], shapes[j])
    {
      if j < i {
        assert next[j] == back[j];
      }
    }
  }

  /** Having read every shape, the items answer all the shapes and the counters are the totals. */
  lemma ReadDone(back: seq<Item>, shapes: seq<Item>, grants: seq<nat>, pending: seq<byte>, consumed: nat, granted: nat)
    requires ReadSoFar(back, shapes, grants, pending, |shapes|, consumed, granted) && |grants| == |shapes|
    ensures Fits(back) && |back| == |shapes| && forall i :: 0 <= i < |shapes| ==> SameShape(back[i], shapes[i])
    ensures consumed == Total(shapes) && granted == Sum(grants)
    ensures consumed <= |pending| && Concat(back) == pending[..consumed]
  {
    assert shapes[..|shapes|] == shapes;
    assert grants[..|grants|] == grants;
  }

  /**
   * Gets back one item per shape from a reader (test.cpp:42-66), raising the
   * budget by `grants[i]` before the `i`th item. When the stream holds the
   * bytes and, for a constrained reader, every prefix of the shapes is
   * covered by the budget granted so far, every read succeeds: the items come
   * back in their shapes, their bytes are the next bytes of the stream, and
   * the budget falls by exactly what was read.
   */
  method ReadItems(reader: BufferedReader, shapes: seq<Item>, grants: seq<nat>) returns (back: seq<Item>)
    requires reader.Valid() && |grants| == |shapes| && Total(shapes) <= |reader.Pending|
    requires reader.constrained ==> forall k :: 0 < k <= |shapes| ==>
               Total(shapes[..k]) <= reader.istreamRemaining + reader.bufferRemaining + Sum(grants[..k])
    modifies reader, reader.buffer, reader.stream
    ensures reader.Valid() && Fits(back)
    ensures |back| == |shapes| && forall i :: 0 <= i < |shapes| ==> SameShape(back[i], shapes[i])
    ensures Concat(back) == old(reader.Pending)[..Total(shapes)]
    ensures reader.Pending == old(reader.Pending)[Total(shapes)..]
    ensures reader.constrained ==>
              reader.istreamRemaining + reader.bufferRemaining + Total(shapes) ==
              old(reader.istreamRemaining) + old(reader.bufferRemaining) + Sum(grants)
  {
    ghost var pending := reader.Pending;
    ghost var budget := reader.istreamRemaining + reader.bufferRemaining;
    ghost var consumed: nat, granted: nat := 0, 0;
    back := [];
    for i := 0 to |shapes|
      invariant ReadSoFar(back, shapes, grants, pending, i, consumed, granted)
      invariant reader.Valid() && reader.Pending == pending[consumed..]
      invariant reader.constrained ==> reader.istreamRemaining + reader.bufferRemaining + consumed == budget + granted
    {
      PrefixStep(shapes, grants, i);
      TotalPrefix(shapes, i + 1);
      var item := GrantAndRead(reader, shapes[i], grants[i], pending, budget, consumed, granted);
      ReadStep(back, shapes, grants, pending, i, consumed, granted, item);
      back := back + [item];
      consumed, granted := consumed + Width(shapes[i]), granted + grants[i];
    }
    ReadDone(back, shapes, grants, pending, consumed, granted);
  }

  /**
   * The writing half of the repository's test (test.cpp:12-37): the items
   * are put through an unconstrained writer with a buffer of any size onto
   * a device of any capacity that has room for their bytes (the test's
   * growing string stream has room for any bytes). One `flush()` as the
   * program has it (test.cpp:37) then hands the staged bytes over, which
   * leaves exactly the items' images on the device, in order.
   */
  method Record(items: seq<Item>, bufferSize: nat, capacity: nat) returns (bytes: seq<byte>)
    requires Total(items) <= capacity
    ensures bytes == Concat(items)
  {
    var device := new OutputStream(capacity);
    var writer := new BufferedWriter(device, bufferSize, false, SIZE_MAX);
    WriteItems(writer, items);
    var status := writer.Flush();
    assert status == Ok;
    bytes := device.sink;
  }

  /**
   * The reading half of the repository's test (test.cpp:42-66): a reader
   * with a buffer of any size and an initial budget, raised by `grants[i]`
   * before the `i`th item, gets back items of the given shapes that are the
   * first bytes of the stream, as long as the stream holds them and every
   * prefix of the shapes is covered by the budget granted so far; the budget
   * left is at most what was granted beyond what was read.
   */
  method Replay(bytes: seq<byte>, shapes: seq<Item>, bufferSize: nat, budget: nat, grants: seq<nat>)
    returns (back: seq<Item>, remaining: nat)
    requires Total(shapes) <= |bytes| && |grants| == |shapes|
    requires forall k :: 0 < k <= |shapes| ==> Total(shapes[..k]) <= budget + Sum(grants[..k])
    ensures |back| == |shapes| && forall i :: 0 <= i < |shapes| ==> SameShape(back[i], shapes[i])
    ensures Fits(back) && Concat(back) == bytes[..Total(shapes)]
    ensures remaining <= budget + Sum(grants) - Total(shapes)
  {
    var source := new InputStream(bytes);
    var reader := new BufferedReader(source, bufferSize, true, budget);
    back := ReadItems(reader, shapes, grants);
    remaining := reader.NumBytesRemaining();
  }

  /**
   * The round trip of the repository's test (test.cpp:12-66): items are
   * written through a writer with a buffer of any size onto a device with
   * room for them, flushed, and read back in the same shapes through a
   * constrained reader with a buffer of any size. The items read back are
   * the items that were written, and the budget left is at most what was
   * granted beyond what was read.
   */
  method RoundTrip(items: seq<Item>, writerBufferSize: nat, capacity: nat, readerBufferSize: nat, budget: nat,
                   grants: seq<nat>)
    returns (back: seq<Item>, remaining: nat)
    requires Fits(items) && |grants| == |items| && Total(items) <= capacity
    requires forall k :: 0 < k <= |items| ==> Total(items[..k]) <= budget + Sum(grants[..k])
    ensures back == items
    ensures remaining <= budget + Sum(grants) - Total(items)
  {
    var bytes := Record(items, writerBufferSize, capacity);
    back, remaining := Replay(bytes, items, readerBufferSize, budget, grants);
    assert bytes[..Total(items)] == bytes;
    ConcatInjective(back, items);
    forall i | 0 <= i < |items|
      ensures back[i] == items[i]
    {
      ImageInjective(back[i], items[i]);
    }
  }

  /**
   * `flush()` as written keeps the flushed bytes staged: write [1, 2], flush,
   * write [3, 4, 5], flush leaves [1, 2] on the device twice.
   */
  method FlushTwiceAsWritten() returns (device: seq<byte>)
    ensures device == [1, 2, 1, 2, 3, 4, 5]
  {
    var stream := new OutputStream(SIZE_MAX);
    var writer := new BufferedWriter(stream, 5, false, SIZE_MAX);
    var status := writer.Write([1, 2]);
    assert status == Ok && writer.Staged == [1, 2] && stream.sink == [];
    status := writer.Flush();
    assert status == Ok && stream.sink == [1, 2];
    status := writer.Write([3, 4, 5]);
    assert writer.Staged == [1, 2, 3, 4, 5];
    status := writer.Flush();
    device := stream.sink;
  }

  /** With the buffer emptied on flush, the same session leaves each byte once. */
  method FlushTwiceCorrected() returns (device: seq<byte>)
    ensures device == [1, 2, 3, 4, 5]
  {
    var stream := new OutputStream(SIZE_MAX);
    var writer := new BufferedWriter(stream, 5, false, SIZE_MAX);
    var status := writer.Write([1, 2]);
    assert status == Ok && writer.Staged == [1, 2] && stream.sink == [];
    status := writer.FlushAndReset();
    assert status == Ok && stream.sink == [1, 2] && writer.Staged == [];
    status := writer.Write([3, 4, 5]);
    assert status == Ok && stream.sink + writer.Staged == [1, 2, 3, 4, 5];
    status := writer.FlushAndReset();
    device := stream.sink;
  }

  /**
   * A constrained writer with a 5-byte buffer and a budget of 8: writes of
   * 3, 3 and 4 bytes pass the budget check, and the program's flush then
   * hands the 5 staged bytes over unchecked, so the device receives 10 bytes
   * while the budget still reports 3 left.
   */
  method FlushOverBudgetAsWritten() returns (device: seq<byte>, remaining: nat)
    ensures |device| == 10 && remaining == 3
  {
    var stream := new OutputStream(SIZE_MAX);
    var writer := new BufferedWriter(stream, 5, true, 8);
    var status := writer.Write([1, 2, 3]);
    assert status == Ok && writer.curPos == 3 && writer.ostreamRemaining == 8 && stream.sink == [];
    status := writer.Write([4, 5, 6]);
    assert status == Ok && writer.curPos == 1 && writer.ostreamRemaining == 3 && |stream.sink| == 5;
    status := writer.Write([7, 8, 9, 10]);
    assert writer.curPos == 5;
    status := writer.Flush();
    device := stream.sink;
    remaining := writer.NumBytesRemaining();
  }

  /**
   * The same session with the corrected flush: the flush is refused with
   * CapacityExceeded and the device holds no more than the budget.
   */
  method FlushOverBudgetCorrected() returns (device: seq<byte>, status: Status)
    ensures status == Fail(CapacityExceeded) && |device| == 5
  {
    var stream := new OutputStream(SIZE_MAX);
    var writer := new BufferedWriter(stream, 5, true, 8);
    status := writer.Write([1, 2, 3]);
    assert status == Ok && writer.curPos == 3 && writer.ostreamRemaining == 8 && stream.sink == [];
    status := writer.Write([4, 5, 6]);
    assert status == Ok && writer.curPos == 1 && writer.ostreamRemaining == 3 && |stream.sink| == 5;
    status := writer.Write([7, 8, 9, 10]);
    assert writer.curPos == 5;
    status := writer.FlushAndReset();
    device := stream.sink;
  }
}
