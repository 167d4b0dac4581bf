/**
 * Fixed-width integers, result codes and identifiers shared by the whole model.
 *
 * The C++ sources use ui8_t ... ui64_t and i8_t; they are modelled as subset
 * types of int so that every wrap-around has to be written out explicitly.
 */
module Common {

  type uint8 = x: int | 0 <= x < 0x100
  type int8 = x: int | -0x80 <= x < 0x80
  type uint16 = x: int | 0 <= x < 0x1_0000
  type int32 = x: int | -0x8000_0000 <= x < 0x8000_0000
  type uint32 = x: int | 0 <= x < 0x1_0000_0000
  type uint64 = x: int | 0 <= x < 0x1_0000_0000_0000_0000

  const UINT32_MODULUS: int := 0x1_0000_0000
  const UINT64_MODULUS: int := 0x1_0000_0000_0000_0000

  /** Unsigned 32-bit addition and multiplication, as C++ computes them on ui32_t. */
  function AddU32(x: uint32, y: uint32): (r: uint32)
    ensures x + y < UINT32_MODULUS ==> r == x + y
    ensures x + y >= UINT32_MODULUS ==> r == x + y - UINT32_MODULUS
  {
    (x + y) % UINT32_MODULUS
  }

  function MulU32(x: uint32, y: uint32): (r: uint32)
    ensures x * y < UINT32_MODULUS ==> r == x * y
  {
    if x * y < UINT32_MODULUS then x * y else (x * y) % UINT32_MODULUS
  }

  /** Unsigned 32-bit subtraction: 0 - 1 is 0xFFFFFFFF. */
  function SubU32(x: uint32, y: uint32): (r: uint32)
    ensures y <= x ==> r == x - y
    ensures y > x ==> r == x - y + UINT32_MODULUS
  {
    (x - y) % UINT32_MODULUS
  }

  function AddU64(x: uint64, y: uint64): (r: uint64)
    ensures x + y < UINT64_MODULUS ==> r == x + y
    ensures x + y >= UINT64_MODULUS ==> r == x + y - UINT64_MODULUS
  {
    (x + y) % UINT64_MODULUS
  }

  /** Length of a SMPTE Universal Label, of a UUID, and of the fixed BER length field. */
  const SMPTE_UL_LENGTH: nat := 16
  const UUID_LENGTH: nat := 16
  const MXF_BER_LENGTH: nat := 4

  type Bytes = seq<uint8>
  /** A SMPTE Universal Label: sixteen bytes. */
  type UL = s: Bytes | |s| == SMPTE_UL_LENGTH witness seq(16, i => 0)
  /** A UUID (InstanceUID, AtmosID): sixteen bytes. */
  type UUID = s: Bytes | |s| == UUID_LENGTH witness seq(16, i => 0)

  function ZeroUL(): (u: UL)
    ensures forall i :: 0 <= i < |u| ==> u[i] == 0
  {
    seq(16, i => 0)
  }

  /**
   * The result codes the core returns (Kumu::Result_t). A result is a
   * success when its numeric value is not negative: RESULT_OK and
   * RESULT_FALSE; every other code here is a failure.
   */
  datatype Result =
    | Ok         // RESULT_OK
    | False      // RESULT_FALSE
    | Fail       // RESULT_FAIL
    | Ptr        // RESULT_PTR: a required object pointer is null
    | Init       // RESULT_INIT: the object is not opened
    | State      // RESULT_STATE: operation not valid in the current state
    | Format     // RESULT_FORMAT
    | RawFormat  // RESULT_RAW_FORMAT
    | EndOfFile  // RESULT_ENDOFFILE
    | SmallBuf   // RESULT_SMALLBUF
    | FileOpen   // RESULT_FILEOPEN
    | ReadFail   // RESULT_READFAIL
    | WriteFail  // RESULT_WRITEFAIL
  {
    predicate Success() {
      Ok? || False?
    }
  }

  datatype Option<T> = None | Some(value: T)

  /** ASDCP::Rational; two rationals are equal only when both fields are equal. */
  datatype Rational = Rational(Numerator: int32, Denominator: int32)
}
