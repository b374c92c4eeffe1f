/** Values shared by the daemon's components: results, errors and the published state. */
module Domain {

  datatype Option<+T> = None | Some(value: T)

  datatype Result<+T> = Ok(value: T) | Err(error: DeviceError)
  {
    predicate IsFailure() {
      Err?
    }

    function PropagateFailure<U>(): Result<U>
      requires Err?
    {
      Err(error)
    }

    function Extract(): T
      requires Ok?
    {
      value
    }
  }

  /**
   The daemon's error values. Message texts are dropped; an error that reports another error
   carries it, and the two errors whose text reaches the published state keep that text.
   */
  datatype DeviceError =
    | NotConnected
    | ConnectionLost
    | ConnectionLostBeforeMutation
    | OperationOutcomeUnknown
    | OperationCancelled
    | AmbiguousDevice
    | Unsupported(reason: string)
    | InvalidArgument
    | DeviceBusy
    | ProtocolUnverified(reason: string)
    | Transport
    | FailedAndRolledBack(operation: DeviceError)
    | RollbackFailed(operation: DeviceError, rollback: DeviceError)
    | RevisionConflict
    | VerificationFailed
    | ManagerStopped

  /** Whether it went well, without the value. */
  function Acknowledged<T>(result: Result<T>): Result<()> {
    if result.Ok? then Ok(()) else Err(result.error)
  }

  /** Milliseconds on the daemon's monotonic clock. */
  type Instant = nat

  const U32_MAX := 0xffff_ffff
  const U64_MAX := 0xffff_ffff_ffff_ffff

  function Min(a: int, b: int): int {
    if a < b then a else b
  }

  function Max(a: int, b: int): int {
    if a < b then b else a
  }
}

/** Bytes as integers, with the one bit operation that flash programming needs. */
module Bytes {

  type byte = x: int | 0 <= x < 256

  type u16 = x: int | 0 <= x < 0x1_0000
  type u32 = x: int | 0 <= x < 0x1_0000_0000

  const ERASED: byte := 255

  /** Little-endian integers. */
  function ReadU16(bytes: seq<byte>, offset: nat): (r: u16)
    requires offset + 2 <= |bytes|
  {
    bytes[offset] as int + 0x100 * bytes[offset + 1] as int
  }

  function ReadU32(bytes: seq<byte>, offset: nat): u32
    requires offset + 4 <= |bytes|
  {
    ReadU16(bytes, offset) as int + 0x1_0000 * ReadU16(bytes, offset + 2) as int
  }

  /** Bitwise conjunction, one binary digit at a time. */
  function And(a: nat, b: nat): (r: nat)
    ensures r <= a && r <= b
  {
    if a == 0 || b == 0 then 0 else (a % 2) * (b % 2) + 2 * And(a / 2, b / 2)
  }

  function AndByte(a: byte, b: byte): byte {
    And(a, b)
  }

  function PowerOfTwo(n: nat): (p: nat)
    ensures p >= 1
  {
    if n == 0 then 1 else 2 * PowerOfTwo(n - 1)
  }

  lemma {:induction false} AndWithOnes(n: nat, b: nat)
    requires b < PowerOfTwo(n)
    ensures And(PowerOfTwo(n) - 1, b) == b
  {
    if b != 0 {
      var p := PowerOfTwo(n - 1);
      assert (2 * p - 1) % 2 == 1 && (2 * p - 1) / 2 == p - 1;
      AndWithOnes(n - 1, b / 2);
    }
  }

  /** Programming an erased byte stores exactly the byte that was sent. */
  lemma ProgramErased(b: byte)
    ensures AndByte(ERASED, b) == b
  {
    assert PowerOfTwo(8) == 256;
    AndWithOnes(8, b);
  }
}
