/**
 * Value types shared by the multi-operation codec: Java's fixed-width
 * integers, byte payloads, access-control entries, node metadata (Stat),
 * creation modes and the opcode tags carried in every multi header.
 */
module Types {

  /** Java `int`. */
  newtype int32 = x: int | -0x8000_0000 <= x < 0x8000_0000

  /** Java `long`. */
  newtype int64 = x: int | -0x8000_0000_0000_0000 <= x < 0x8000_0000_0000_0000

  type Bytes = seq<bv8>

  datatype Option<T> = None | Some(value: T)

  /** An identity inside an access-control entry: scheme and id. */
  datatype Id = Id(scheme: string, id: string)

  /** One access-control entry; passed through unchanged by the codec. */
  datatype Acl = Acl(perms: int32, id: Id)

  /** Node metadata returned by setData and check; only mzxid is ever compared. */
  datatype Stat = Stat(
    czxid: int64, mzxid: int64, ctime: int64, mtime: int64,
    version: int32, cversion: int32, aversion: int32,
    ephemeralOwner: int64, dataLength: int32, numChildren: int32, pzxid: int64)

  /** The creation modes a caller may pass instead of raw flags. */
  datatype CreateMode = Persistent | PersistentSequential | Ephemeral | EphemeralSequential

  // Opcode tags (the C client's protocol header lists the same numbers).
  const CreateTag: int32 := 1
  const DeleteTag: int32 := 2
  const SetDataTag: int32 := 5
  const CheckTag: int32 := 13

  /** Tag of the header that closes every multi sequence. */
  const EndTag: int32 := -1

  /**
   * Opcode of an error result. Its value is defined in ZooDefs, which is not
   * part of this model, so it is left unspecified here.
   */
  const ErrorTag: int32

  /** The four opcodes a multi request or response entry may carry. */
  predicate IsOpTag(t: int32) {
    t == CreateTag || t == DeleteTag || t == SetDataTag || t == CheckTag
  }

  /** What the codec needs of the error opcode: it is none of the four op tags. */
  predicate ErrorTagDistinct() {
    !IsOpTag(ErrorTag)
  }

  /**
   * Java `int` arithmetic: the mathematical value reduced to 32 bits,
   * two's complement.
   */
  function Wrap32(x: int): (r: int32)
    ensures (r as int - x) % 0x1_0000_0000 == 0
    ensures -0x8000_0000 <= x < 0x8000_0000 ==> r as int == x
  {
    var m := x % 0x1_0000_0000;
    if m < 0x8000_0000 then m as int32 else (m - 0x1_0000_0000) as int32
  }

  /** Two values that differ by less than 2^32 and not at all wrap to different ints. */
  lemma Wrap32Distinguishes(x: int, y: int)
    requires x != y && -0x1_0000_0000 < x - y < 0x1_0000_0000
    ensures Wrap32(x) != Wrap32(y)
  {
  }
}
