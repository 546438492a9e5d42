/** The types every crate shares: `Option` and `Result`, bounded strings and
    slices, and the identifiers of crates/core/src/types.rs. */
module Types {
  import opened ByteCodec

  datatype Option<+T> = None | Some(value: T)
  datatype Result<+T, +E> = Ok(value: T) | Err(error: E)

  // No slice is longer than `isize::MAX` bytes on a 64-bit target; a string of
  // 2^61 characters, at up to four bytes each, already is.
  const ISIZE_MAX: int := 0x7FFF_FFFF_FFFF_FFFF
  const MAX_CHARS: int := 0x1FFF_FFFF_FFFF_FFFF
  const U32_MAX: int := 0xFFFF_FFFF
  const TWO_64: int := 0x1_0000_0000_0000_0000

  type Bytes = b: seq<byte> | |b| <= ISIZE_MAX witness []
  type Text = s: string | |s| <= MAX_CHARS witness ""
  type U32 = n: int | 0 <= n <= U32_MAX
  type U64 = n: int | 0 <= n < TWO_64
  type I64 = n: int | -0x8000_0000_0000_0000 <= n < 0x8000_0000_0000_0000

  // A UUID as the 128-bit number its sixteen bytes spell, most significant
  // first; comparing numbers is comparing UUIDs.
  type TaskId = n: int | 0 <= n < 0x1_0000_0000_0000_0000_0000_0000_0000_0000
  type ActorId = Text
  type Timestamp = int

  function Utf8Bytes(s: Text): (b: Bytes)
  {
    Utf8Length(s);
    Utf8(s)
  }

  function TaskIdBytes(t: TaskId): (b: Bytes)
    ensures |b| == 16
  {
    BigEndian(t, 16)
  }

  /** Two's complement of a signed 64-bit number, as `to_be_bytes` writes it. */
  function I64Bytes(n: I64): (b: Bytes)
    ensures |b| == 8
  {
    BigEndian(n % TWO_64, 8)
  }

  lemma TaskIdBytesInjective(s: TaskId, t: TaskId)
    requires TaskIdBytes(s) == TaskIdBytes(t)
    ensures s == t
  {
    Pow256Values();
    BigEndianInjective(s, t, 16);
  }

  lemma I64BytesInjective(m: I64, n: I64)
    requires I64Bytes(m) == I64Bytes(n)
    ensures m == n
  {
    Pow256Values();
    BigEndianInjective(m % TWO_64, n % TWO_64, 8);
  }

  /** The eight bytes spell the number, plus 2^64 if it is negative; a task id's sixteen
      spell the id. */
  lemma BytesSpellNumbers(n: I64, t: TaskId)
    ensures FromBigEndian(I64Bytes(n)) == (if n < 0 then n + 0x1_0000_0000_0000_0000 else n)
    ensures FromBigEndian(TaskIdBytes(t)) == t
  {
    Pow256Values();
    BigEndianRoundTrip(n % TWO_64, 8);
    BigEndianRoundTrip(t, 16);
  }
}
