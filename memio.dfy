/**
 * Kumu's memory cursors (KM_memio.h is not part of this model). A
 * MemIOWriter appends into a buffer of fixed capacity; a MemIOReader walks a
 * buffer from the front. Each fixed-size write or read either fits entirely,
 * advances the cursor and returns true, or does not fit and returns false
 * leaving the cursor and the buffer as they were.
 */
module MemIO {
  import opened Common
  import BigEndian

  class MemIOWriter {
    const capacity: nat
    /** The bytes written so far; its length is the writer's m_size. */
    var data: Bytes

    ghost predicate Valid()
      reads this
    {
      |data| <= capacity
    }

    constructor (capacity: nat)
      ensures Valid() && this.capacity == capacity && data == []
    {
      this.capacity := capacity;
      data := [];
    }

    function Remaining(): nat
      reads this
      requires Valid()
    {
      capacity - |data|
    }

    /** Appends b if it fits in the remaining capacity (WriteRaw). */
    method WriteRaw(b: Bytes) returns (ok: bool)
      requires Valid()
      modifies this
      ensures Valid()
      ensures ok == (|b| <= old(Remaining()))
      ensures data == if ok then old(data) + b else old(data)
    {
      ok := |data| + |b| <= capacity;
      if ok {
        data := data + b;
      }
    }

    method WriteUi8(x: uint8) returns (ok: bool)
      requires Valid()
      modifies this
      ensures Valid()
      ensures ok == (1 <= old(Remaining()))
      ensures data == if ok then old(data) + [x] else old(data)
    {
      ok := WriteRaw([x]);
    }

    method WriteUi32BE(x: uint32) returns (ok: bool)
      requires Valid()
      modifies this
      ensures Valid()
      ensures ok == (4 <= old(Remaining()))
      ensures data == if ok then old(data) + BigEndian.U32Bytes(x) else old(data)
    {
      ok := WriteRaw(BigEndian.U32Bytes(x));
    }

    method WriteUi64BE(x: uint64) returns (ok: bool)
      requires Valid()
      modifies this
      ensures Valid()
      ensures ok == (8 <= old(Remaining()))
      ensures data == if ok then old(data) + BigEndian.U64Bytes(x) else old(data)
    {
      ok := WriteRaw(BigEndian.U64Bytes(x));
    }
  }

  class MemIOReader {
    /** The whole buffer the reader was opened on (its capacity is |buf|). */
    const buf: Bytes
    /** How many bytes have been consumed (the reader's m_size). */
    var pos: nat

    ghost predicate Valid()
      reads this
    {
      pos <= |buf|
    }

    constructor (buf: Bytes)
      ensures Valid() && this.buf == buf && pos == 0
    {
      this.buf := buf;
      pos := 0;
    }

    function Remaining(): nat
      reads this
      requires Valid()
    {
      |buf| - pos
    }

    /** Takes the next n bytes if that many remain (ReadRaw). */
    method ReadRaw(n: nat) returns (ok: bool, b: Bytes)
      requires Valid()
      modifies this
      ensures Valid()
      ensures ok == (n <= old(Remaining()))
      ensures ok ==> b == buf[old(pos)..old(pos) + n] && pos == old(pos) + n
      ensures !ok ==> pos == old(pos)
    {
      ok := pos + n <= |buf|;
      if ok {
        b := buf[pos..pos + n];
        pos := pos + n;
      } else {
        b := [];
      }
    }

    method ReadUi8() returns (ok: bool, x: uint8)
      requires Valid()
      modifies this
      ensures Valid()
      ensures ok == (1 <= old(Remaining()))
      ensures ok ==> x == buf[old(pos)] && pos == old(pos) + 1
      ensures !ok ==> pos == old(pos)
    {
      var b;
      ok, b := ReadRaw(1);
      x := if ok then b[0] else 0;
    }

    method ReadUi32BE() returns (ok: bool, x: uint32)
      requires Valid()
      modifies this
      ensures Valid()
      ensures ok == (4 <= old(Remaining()))
      ensures ok ==> BigEndian.U32Bytes(x) == buf[old(pos)..old(pos) + 4] && pos == old(pos) + 4
      ensures !ok ==> pos == old(pos)
    {
      var b;
      ok, b := ReadRaw(4);
      x := if ok then BigEndian.U32Of(b) else 0;
    }

    method ReadUi64BE() returns (ok: bool, x: uint64)
      requires Valid()
      modifies this
      ensures Valid()
      ensures ok == (8 <= old(Remaining()))
      ensures ok ==> BigEndian.U64Bytes(x) == buf[old(pos)..old(pos) + 8] && pos == old(pos) + 8
      ensures !ok ==> pos == old(pos)
    {
      var b;
      ok, b := ReadRaw(8);
      x := if ok then BigEndian.U64Of(b) else 0;
    }
  }
}
