/**
 * The shadow-byte value table of the ASan runtime: one byte describes one
 * 8-byte granule of application memory.  The raw byte is what is stored; the
 * datatype `Marker` is the decoded, tagged view of it, and `Decode`/`Encode`
 * are inverse to each other, so the table is a bijection between bytes and
 * well-formed markers.
 */
module ShadowMarker {

  /** log2 of the number of application bytes per shadow byte. */
  const kShadowRatioLog: nat := 3
  /** The number of application bytes per shadow byte (one granule). */
  const kShadowRatio: nat := 8

  const kHeapAddressableByte: bv8 := 0x00
  const kHeapNonAccessibleByteMask: bv8 := 0xe0
  const kHeapBlockStartByte0: bv8 := 0xe8
  const kHeapBlockStartByte7: bv8 := 0xef
  const kAsanMemoryByte: bv8 := 0xf1
  const kInvalidAddress: bv8 := 0xf2
  const kUserRedzone: bv8 := 0xf3
  const kHeapBlockEndByte: bv8 := 0xf4
  const kHeapLeftRedzone: bv8 := 0xfa
  const kHeapRightRedzone: bv8 := 0xfb
  const kAsanReservedByte: bv8 := 0xfc
  const kHeapFreedByte: bv8 := 0xfd

  /** The decoded meaning of one shadow byte. */
  datatype Marker =
    | Addressable                        // 0x00: every byte of the granule is accessible
    | PartiallyAddressable(count: nat)   // 0x01..0x07: the first `count` bytes are accessible
    | BlockStart(metadata: nat)          // 0xe8..0xef: a block begins here; 3 bits of metadata
    | AsanMemory                         // 0xf1
    | InvalidAddress                     // 0xf2
    | UserRedzone                        // 0xf3
    | BlockEnd                           // 0xf4, part of a right redzone
    | LeftRedzone                        // 0xfa
    | RightRedzone                       // 0xfb
    | Reserved                           // 0xfc
    | Freed                              // 0xfd
    | Unnamed(value: bv8)                // a byte the table gives no name

  /** True iff `m` is one of the values the table names. */
  predicate IsNamed(m: bv8) {
    m <= 0x07 || (0xe8 <= m <= 0xef) || (0xf1 <= m <= 0xf4) || (0xfa <= m <= 0xfd)
  }

  /** The markers that some byte encodes. */
  predicate WellFormed(k: Marker) {
    match k
    case PartiallyAddressable(c) => 1 <= c <= 7
    case BlockStart(bits) => bits < 8
    case Unnamed(v) => !IsNamed(v)
    case _ => true
  }

  function Encode(k: Marker): bv8
    requires WellFormed(k)
  {
    match k
    case Addressable => kHeapAddressableByte
    case PartiallyAddressable(c) => c as bv8
    case BlockStart(bits) => kHeapBlockStartByte0 | (bits as bv8)
    case AsanMemory => kAsanMemoryByte
    case InvalidAddress => kInvalidAddress
    case UserRedzone => kUserRedzone
    case BlockEnd => kHeapBlockEndByte
    case LeftRedzone => kHeapLeftRedzone
    case RightRedzone => kHeapRightRedzone
    case Reserved => kAsanReservedByte
    case Freed => kHeapFreedByte
    case Unnamed(v) => v
  }

  /** Decodes a raw shadow byte; every byte decodes, and encoding gives it back. */
  function Decode(m: bv8): (k: Marker)
    ensures WellFormed(k) && Encode(k) == m
  {
    if m == kHeapAddressableByte then Addressable
    else if m <= 0x07 then PartiallyAddressable(m as nat)
    else if m & 0xf8 == kHeapBlockStartByte0 then BlockStart((m & 0x07) as nat)
    else if m == kAsanMemoryByte then AsanMemory
    else if m == kInvalidAddress then InvalidAddress
    else if m == kUserRedzone then UserRedzone
    else if m == kHeapBlockEndByte then BlockEnd
    else if m == kHeapLeftRedzone then LeftRedzone
    else if m == kHeapRightRedzone then RightRedzone
    else if m == kAsanReservedByte then Reserved
    else if m == kHeapFreedByte then Freed
    else Unnamed(m)
  }

  /** The other half of the bijection: a well-formed marker survives a round trip. */
  lemma DecodeEncode(k: Marker)
    requires WellFormed(k)
    ensures Decode(Encode(k)) == k
  {
    match k
    case BlockStart(bits) =>
      var m := Encode(k);
      assert m & 0xf8 == kHeapBlockStartByte0 && m & 0x07 == bits as bv8;
    case _ =>
  }

  /**
   * Whether the byte at position `offset` of a granule whose shadow byte is
   * `m` is accessible.
   */
  predicate IsAccessibleMarker(m: bv8, offset: nat)
    requires offset < kShadowRatio
    ensures IsAccessibleMarker(m, offset) <==> m == kHeapAddressableByte || (m <= 0x07 && offset < m as nat)
  {
    match Decode(m)
    case Addressable => true
    case PartiallyAddressable(c) => offset < c
    case _ => false
  }

  /** Any byte with the non-accessible mask set makes its whole granule inaccessible. */
  lemma NonAccessibleMaskIsInaccessible(m: bv8, offset: nat)
    requires offset < kShadowRatio
    requires m & kHeapNonAccessibleByteMask == kHeapNonAccessibleByteMask
    ensures !IsAccessibleMarker(m, offset)
  {
  }

  /** A granule is accessible throughout exactly when its shadow byte is 0x00. */
  lemma FullyAccessibleIffAddressable(m: bv8)
    ensures (forall offset: nat :: offset < kShadowRatio ==> IsAccessibleMarker(m, offset))
            <==> m == kHeapAddressableByte
  {
    if m != kHeapAddressableByte {
      assert !IsAccessibleMarker(m, 7);
    }
  }

  /** Whether `m` is one of the eight block-start markers. */
  function IsBlockStartByteMarker(m: bv8): (r: bool)
    ensures r <==> kHeapBlockStartByte0 <= m <= kHeapBlockStartByte7
    ensures r <==> Decode(m).BlockStart?
  {
    m & 0xf8 == kHeapBlockStartByte0
  }

  /** Every block-start marker carries the non-accessible mask, so it is inaccessible. */
  lemma BlockStartIsInaccessible(m: bv8, offset: nat)
    requires offset < kShadowRatio
    requires IsBlockStartByteMarker(m)
    ensures m & kHeapNonAccessibleByteMask == kHeapNonAccessibleByteMask
    ensures !IsAccessibleMarker(m, offset)
  {
    NonAccessibleMaskIsInaccessible(m, offset);
  }

  /** Left redzone, block header included: the left-redzone byte or a block start. */
  function IsLeftRedzoneMarker(m: bv8): (r: bool)
    ensures r <==> Decode(m).LeftRedzone? || Decode(m).BlockStart?
  {
    m == kHeapLeftRedzone || IsBlockStartByteMarker(m)
  }

  /** Right redzone, block trailer included: the right-redzone byte or the block-end byte. */
  function IsRightRedzoneMarker(m: bv8): (r: bool)
    ensures r <==> Decode(m).RightRedzone? || Decode(m).BlockEnd?
  {
    m == kHeapRightRedzone || m == kHeapBlockEndByte
  }

  /** Redzones never overlap and never admit an access. */
  lemma RedzonesAreInaccessible(m: bv8, offset: nat)
    requires offset < kShadowRatio
    requires IsLeftRedzoneMarker(m) || IsRightRedzoneMarker(m)
    ensures !(IsLeftRedzoneMarker(m) && IsRightRedzoneMarker(m))
    ensures !IsAccessibleMarker(m, offset)
  {
  }
}
