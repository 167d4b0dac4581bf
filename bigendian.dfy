/**
 * Big-endian (network order) encoding of unsigned integers into bytes, as
 * Kumu's MemIOWriter::WriteUi32BE / WriteUi64BE and MemIOReader::ReadUi32BE /
 * ReadUi64BE store and load them: most significant byte first.
 */
module BigEndian {
  import opened Common

  /** 256 to the power n: the number of distinct values of n bytes. */
  function Pow256(n: nat): (p: nat)
    ensures p >= 1
  {
    if n == 0 then 1 else 256 * Pow256(n - 1)
  }

  /** The n-byte big-endian encoding of x (only the low n bytes of x survive). */
  function Encode(x: nat, n: nat): (r: Bytes)
    ensures |r| == n
  {
    if n == 0 then [] else Encode(x / 256, n - 1) + [x % 256]
  }

  /** The value of a big-endian byte string. */
  function Decode(b: Bytes): (v: nat)
    ensures v < Pow256(|b|)
  {
    if b == [] then 0 else Decode(b[..|b| - 1]) * 256 + b[|b| - 1]
  }

  /** Splitting off the last byte of an n-byte value. */
  lemma SplitLastByte(x: nat, n: nat)
    requires 0 < n && x < Pow256(n)
    ensures x / 256 < Pow256(n - 1) && (x / 256) * 256 + x % 256 == x
  {
  }

  /** Appending a byte shifts the value up by one byte. */
  lemma DecodeSnoc(b: Bytes, last: uint8)
    ensures Decode(b + [last]) == Decode(b) * 256 + last
  {
    assert (b + [last])[..|b|] == b;
  }

  lemma {:induction false} DecodeEncode(x: nat, n: nat)
    requires x < Pow256(n)
    ensures Decode(Encode(x, n)) == x
  {
    if n > 0 {
      var q, r := x / 256, x % 256;
      SplitLastByte(x, n);
      var init := Encode(q, n - 1);
      assert Encode(x, n) == init + [r];
      DecodeEncode(q, n - 1);
      DecodeSnoc(init, r);
    }
  }

  lemma {:induction false} EncodeDecode(b: Bytes)
    ensures Encode(Decode(b), |b|) == b
  {
    if b != [] {
      var init := b[..|b| - 1];
      var v := Decode(b);
      assert v / 256 == Decode(init) && v % 256 == b[|b| - 1];
      EncodeDecode(init);
      assert b == init + [b[|b| - 1]];
    }
  }

  /** The four bytes WriteUi32BE stores. */
  function U32Bytes(x: uint32): (r: Bytes)
    ensures |r| == 4 && Decode(r) == x
  {
    DecodeEncode(x, 4);
    Encode(x, 4)
  }

  /** The eight bytes WriteUi64BE stores. */
  function U64Bytes(x: uint64): (r: Bytes)
    ensures |r| == 8 && Decode(r) == x
  {
    DecodeEncode(x, 8);
    Encode(x, 8)
  }

  /** The value ReadUi32BE loads from four bytes. */
  function U32Of(b: Bytes): (x: uint32)
    requires |b| == 4
    ensures U32Bytes(x) == b
  {
    EncodeDecode(b);
    Decode(b)
  }

  /** The value ReadUi64BE loads from eight bytes. */
  function U64Of(b: Bytes): (x: uint64)
    requires |b| == 8
    ensures U64Bytes(x) == b
  {
    EncodeDecode(b);
    Decode(b)
  }
}
