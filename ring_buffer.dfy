/**
 * The single-producer/single-consumer byte ring buffer of shared/src/core/ring-buffer.c.
 * Storage is a power-of-two array; `mask` is its size minus one and both indices are
 * advanced with `(index + 1) & mask`. One slot is always left unused so that a full
 * buffer (next write index == read index) is told apart from an empty one (read index
 * == write index).
 *
 * `ring_buffer_t` is addressed through a pointer by every operation, so it is a class;
 * `RingFields` is the value of its four fields, needed because the UART controller holds
 * the struct by value and copies it.
 */
module RingBuffers {
  import opened Hardware

  /** n is 2^k for some k. */
  predicate IsPowerOfTwo(n: nat)
    decreases n
  {
    n == 1 || (n >= 2 && n % 2 == 0 && IsPowerOfTwo(n / 2))
  }

  /** Bitwise AND of two non-negative integers, bit by bit from the least significant. */
  function BitAnd(a: nat, b: nat): nat
    decreases a
  {
    if a == 0 || b == 0 then 0
    else 2 * BitAnd(a / 2, b / 2) + (if a % 2 == 1 && b % 2 == 1 then 1 else 0)
  }

  /** One step forward modulo mask + 1: what `(i + 1) & mask` computes for an index i <= mask. */
  function Advance(i: nat, mask: nat): nat
  {
    if i < mask then i + 1 else 0
  }

  /** For a power-of-two size, masking the successor of an in-range index wraps it round. */
  lemma {:induction false} MaskAdvances(i: nat, mask: nat)
    requires IsPowerOfTwo(mask + 1) && i <= mask
    ensures BitAnd(i + 1, mask) == Advance(i, mask)
    decreases mask
  {
    if i < mask {
      MaskKeeps(i + 1, mask);
    } else {
      MaskClearsSize(mask);
    }
  }

  lemma {:induction false} MaskKeeps(x: nat, mask: nat)
    requires IsPowerOfTwo(mask + 1) && x <= mask
    ensures BitAnd(x, mask) == x
    decreases mask
  {
    if x > 0 {
      var n := (mask + 1) / 2;
      assert mask / 2 == n - 1 && mask % 2 == 1;
      MaskKeeps(x / 2, n - 1);
    }
  }

  lemma {:induction false} MaskClearsSize(mask: nat)
    requires IsPowerOfTwo(mask + 1)
    ensures BitAnd(mask + 1, mask) == 0
    decreases mask
  {
    if mask > 0 {
      var n := (mask + 1) / 2;
      assert mask / 2 == n - 1 && (mask + 1) / 2 == n && (mask + 1) % 2 == 0;
      MaskClearsSize(n - 1);
    }
  }

  /** The four fields of a `ring_buffer_t`, as a value. */
  datatype RingFields = RingFields(buffer: array<byte>, mask: u32, readIndex: u32, writeIndex: u32)
  {
    /** The state every operation relies on: a power-of-two storage of mask + 1
        bytes and both indices inside it. */
    predicate Valid()
    {
      IsPowerOfTwo(mask as nat + 1) && buffer.Length == mask as nat + 1 &&
      readIndex <= mask && writeIndex <= mask
    }

    /** The bytes waiting to be read, oldest first. */
    ghost function Contents(): seq<byte>
      reads buffer
      requires Valid()
    {
      Window(buffer[..], readIndex, writeIndex)
    }
  }

  /** The bytes of `data` from index r up to (not including) index w, wrapping around the end. */
  function Window(data: seq<byte>, r: nat, w: nat): seq<byte>
    requires r <= |data| && w <= |data|
  {
    if r <= w then data[r..w] else data[r..] + data[..w]
  }

  /** Index arithmetic of the buffer: how many bytes are queued, and when it is full. */
  lemma ContentsLength(f: RingFields)
    requires f.Valid()
    ensures |f.Contents()| == if f.readIndex <= f.writeIndex then f.writeIndex - f.readIndex
                              else f.mask as int + 1 - f.readIndex + f.writeIndex
    ensures |f.Contents()| <= f.mask
    ensures f.Contents() == [] <==> f.readIndex == f.writeIndex
    ensures Advance(f.writeIndex, f.mask) == f.readIndex <==> |f.Contents()| == f.mask
  {
  }

  class RingBuffer {
    var buffer: array<byte>
    var mask: u32
    var readIndex: u32
    var writeIndex: u32

    function Fields(): RingFields
      reads this
    {
      RingFields(buffer, mask, readIndex, writeIndex)
    }

    ghost predicate Valid()
      reads this
    {
      Fields().Valid()
    }

    ghost function Contents(): seq<byte>
      reads this, buffer
      requires Valid()
    {
      Fields().Contents()
    }

    /** A zero-initialised struct (`= {0U}`), before any setup: no storage. */
    constructor Zero()
      ensures buffer.Length == 0 && mask == 0 && readIndex == 0 && writeIndex == 0
      ensures !Valid()
    {
      buffer := new byte[0];
      mask, readIndex, writeIndex := 0, 0, 0;
    }

    /** A struct initialised by copying the fields of another one. */
    constructor Copy(f: RingFields)
      ensures Fields() == f
    {
      buffer, mask, readIndex, writeIndex := f.buffer, f.mask, f.readIndex, f.writeIndex;
    }

    /** Struct assignment `*this = f`. */
    method Load(f: RingFields)
      modifies this
      ensures Fields() == f
    {
      buffer, mask, readIndex, writeIndex := f.buffer, f.mask, f.readIndex, f.writeIndex;
    }

    /** coreRingBufferSetup: attach `storage` of `size` bytes (a power of two) and empty the buffer. */
    method Setup(storage: array<byte>, size: u32)
      requires IsPowerOfTwo(size as nat) && storage.Length == size as nat
      modifies this
      ensures Fields() == RingFields(storage, size - 1, 0, 0)
      ensures Valid() && Contents() == []
    {
      buffer := storage;
      readIndex := 0;
      writeIndex := 0;
      mask := size - 1;
    }

    /** coreRingBufferEmpty. */
    function Empty(): (e: bool)
      reads this
      ensures e <==> readIndex == writeIndex
      ensures Valid() ==> (e <==> Contents() == [])
    {
      readIndex == writeIndex
    }

    /** coreRingBufferWrite: append `b` unless that would make the write index catch up with
        the read index, in which case the byte is dropped and nothing changes. */
    method Write(b: byte) returns (ok: bool)
      requires Valid()
      modifies this, buffer
      ensures Valid() && buffer == old(buffer) && mask == old(mask) && readIndex == old(readIndex)
      ensures ok <==> Advance(old(writeIndex), mask) != readIndex
      ensures ok <==> |old(Contents())| < mask
      ensures ok ==> buffer[..] == old(buffer[..])[old(writeIndex) := b]
      ensures ok ==> writeIndex == Advance(old(writeIndex), mask)
      ensures ok ==> Contents() == old(Contents()) + [b]
      ensures !ok ==> writeIndex == old(writeIndex) && buffer[..] == old(buffer[..])
    {
      ContentsLength(Fields());
      var localWriteIndex := writeIndex;
      var localReadIndex := readIndex;
      MaskAdvances(localWriteIndex as nat, mask as nat);
      var nextWriteIndex := BitAnd(localWriteIndex as nat + 1, mask as nat);
      if nextWriteIndex == localReadIndex {
        return false;
      }
      AppendAtWrite(buffer[..], localReadIndex as nat, localWriteIndex as nat, b);
      buffer[localWriteIndex] := b;
      writeIndex := nextWriteIndex;
      ok := true;
    }

    /** coreRingBufferRead: take the oldest byte, or report failure on an empty buffer and
        leave `dest` (the caller's byte) as it was. */
    method Read(dest: byte) returns (ok: bool, b: byte)
      requires Valid()
      modifies this
      ensures Valid() && buffer == old(buffer) && mask == old(mask) && writeIndex == old(writeIndex)
      ensures ok <==> old(Contents()) != []
      ensures ok ==> b == old(buffer[readIndex]) && b == old(Contents())[0]
      ensures ok ==> readIndex == Advance(old(readIndex), mask)
      ensures ok ==> Contents() == old(Contents())[1..]
      ensures !ok ==> b == dest && readIndex == old(readIndex)
    {
      ContentsLength(Fields());
      var localReadIndex := readIndex;
      var localWriteIndex := writeIndex;
      if localReadIndex == localWriteIndex {
        return false, dest;
      }
      b := buffer[localReadIndex];
      MaskAdvances(localReadIndex as nat, mask as nat);
      localReadIndex := BitAnd(localReadIndex as nat + 1, mask as nat);
      readIndex := localReadIndex;
      ok := true;
      DropAtRead(buffer[..], old(readIndex) as nat, writeIndex as nat);
    }
  }

  /** Storing at the write index and advancing it appends exactly that byte. */
  lemma AppendAtWrite(data: seq<byte>, r: nat, w: nat, b: byte)
    requires r < |data| && w < |data| && Advance(w, |data| - 1) != r
    ensures Window(data[w := b], r, Advance(w, |data| - 1)) == Window(data, r, w) + [b]
  {
    var after := data[w := b];
    if r <= w {
      if w + 1 < |data| {
        assert after[r..w + 1] == data[r..w] + [b];
      } else {
        assert after[r..] + after[..0] == data[r..w] + [b];
      }
    } else {
      assert after[r..] + after[..w + 1] == data[r..] + data[..w] + [b];
    }
  }

  /** Advancing the read index drops exactly the oldest byte. */
  lemma DropAtRead(data: seq<byte>, r: nat, w: nat)
    requires r < |data| && w < |data| && r != w
    ensures Window(data, r, w) != [] && Window(data, r, w)[0] == data[r]
    ensures Window(data, Advance(r, |data| - 1), w) == Window(data, r, w)[1..]
  {
  }

  /** Pushes `xs` into a fresh buffer of `size` bytes, then reads it until it reports empty.
      Every push after the first size - 1 finds the buffer full and is dropped without
      disturbing what is queued, and the bytes come out in the order they were pushed. */
  method FillThenDrain(xs: seq<byte>, size: u32) returns (accepted: seq<bool>, ys: seq<byte>)
    requires IsPowerOfTwo(size as nat)
    ensures |accepted| == |xs|
    ensures forall k :: 0 <= k < |xs| ==> (accepted[k] <==> k < size - 1)
    ensures ys == xs[..if |xs| < size - 1 then |xs| else size - 1]
  {
    var storage := new byte[size];
    var rb := new RingBuffer.Zero();
    rb.Setup(storage, size);
    accepted := FillAll(rb, xs);
    ys := DrainAll(rb);
  }

  /** Pushes `xs` into an empty buffer in order: exactly the first mask bytes fit. */
  method FillAll(rb: RingBuffer, xs: seq<byte>) returns (accepted: seq<bool>)
    requires rb.Valid() && rb.Contents() == []
    modifies rb, rb.buffer
    ensures rb.Valid() && rb.buffer == old(rb.buffer) && rb.mask == old(rb.mask)
    ensures |accepted| == |xs|
    ensures forall k :: 0 <= k < |xs| ==> (accepted[k] <==> k < rb.mask as int)
    ensures rb.Contents() == xs[..if |xs| < rb.mask as int then |xs| else rb.mask as int]
  {
    var usable := rb.mask as int;
    accepted := [];
    var i := 0;
    while i < |xs|
      invariant 0 <= i <= |xs| && |accepted| == i
      invariant rb.Valid() && rb.buffer == old(rb.buffer) && rb.mask as int == usable
      invariant forall k :: 0 <= k < i ==> (accepted[k] <==> k < usable)
      invariant rb.Contents() == xs[..if i < usable then i else usable]
    {
      var ok := rb.Write(xs[i]);
      if ok {
        assert xs[..i + 1] == xs[..i] + [xs[i]];
      }
      accepted := accepted + [ok];
      i := i + 1;
    }
  }

  /** Reads `rb` until it reports empty, collecting the bytes in the order they come out. */
  method DrainAll(rb: RingBuffer) returns (ys: seq<byte>)
    requires rb.Valid()
    modifies rb
    ensures rb.Valid() && rb.buffer == old(rb.buffer) && rb.Contents() == []
    ensures ys == old(rb.Contents())
  {
    ys := [];
    var more := true;
    while more
      invariant rb.Valid() && rb.buffer == old(rb.buffer)
      invariant old(rb.Contents()) == ys + rb.Contents()
      invariant !more ==> rb.Contents() == []
      decreases |rb.Contents()|, more
    {
      var ok, b := rb.Read(0);
      if ok {
        ys := ys + [b];
      } else {
        more := false;
      }
    }
  }

  /** The bounded read loop of the UART drivers: read into consecutive slots until `len`
      bytes have come out or a read finds the buffer empty; the count is how many were read. */
  method ReadUpTo(rb: RingBuffer, len: u32) returns (n: u32, data: seq<byte>)
    requires rb.Valid()
    modifies rb
    ensures rb.Valid() && rb.buffer == old(rb.buffer)
    ensures n as int == if len as int <= |old(rb.Contents())| then len as int else |old(rb.Contents())|
    ensures data == old(rb.Contents())[..n]
    ensures rb.Contents() == old(rb.Contents())[n..]
  {
    ghost var queued := rb.Contents();
    data := [];
    var numBytes: u32 := 0;
    var more := true;
    while more && numBytes < len
      invariant numBytes <= len && rb.Valid() && rb.buffer == old(rb.buffer)
      invariant queued == data + rb.Contents() && |data| == numBytes as int
      invariant !more ==> rb.Contents() == []
    {
      var ok, b := rb.Read(0);
      if ok {
        data := data + [b];
        numBytes := numBytes + 1;
      } else {
        more := false;
      }
    }
    n := numBytes;
    assert queued[..n] == data && queued[n..] == rb.Contents();
  }
}
