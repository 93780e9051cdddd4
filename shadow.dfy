/**
 * The ASan shadow memory: one marker byte per 8-byte granule of the
 * application's address space, updated in place by the poisoning operations
 * and read by the accessibility queries.
 *
 * The source keeps one process-wide static array of `kShadowSize` bytes; the
 * model makes it an object whose array has a parameterised length, so that
 * `bytes.Length` plays the part of `kShadowSize` and `AddressLimit()` that of
 * `kAddressUpperBound`.
 */
module AsanShadow {

  import opened ShadowMarker

  /** 2 to the power n; `x << n` is `x * Pow2(n)` and `x >> n` is `x / Pow2(n)` on unsigned values. */
  function Pow2(n: nat): nat {
    if n == 0 then 1 else 2 * Pow2(n - 1)
  }

  lemma {:induction false} Pow2Add(a: nat, b: nat)
    ensures Pow2(a + b) == Pow2(a) * Pow2(b)
  {
    if a != 0 {
      Pow2Add(a - 1, b);
    }
  }

  /** The first 64 KiB of the address space are never addressable. */
  const kAddressLowerBound: nat := 0x10000
  /** One shadow byte per granule of a 2 GiB address space: `1 << (31 - kShadowRatioLog)`. */
  const kShadowSize: nat := Pow2(31 - kShadowRatioLog)
  /** `kShadowSize << kShadowRatioLog`. */
  const kAddressUpperBound: nat := kShadowSize * Pow2(kShadowRatioLog)

  /** The shadow index of an address: `addr >> kShadowRatioLog`. */
  function ShadowIndex(addr: nat): nat {
    addr / kShadowRatio
  }

  /** The first address of the granule with shadow index `index`. */
  function GranuleAddress(index: nat): nat {
    index * kShadowRatio
  }

  /** The smallest granule boundary at or above `addr`. */
  function AlignUp(addr: nat): (r: nat)
    ensures r % kShadowRatio == 0 && addr <= r < addr + kShadowRatio
  {
    (addr + kShadowRatio - 1) / kShadowRatio * kShadowRatio
  }

  /** The constants describe a 2 GiB space whose every address has a shadow byte. */
  lemma AddressBounds()
    ensures kShadowRatio == Pow2(kShadowRatioLog)
    ensures kAddressUpperBound == Pow2(31)
    ensures kShadowSize == 0x1000_0000 && kAddressUpperBound == 0x8000_0000
    ensures kAddressLowerBound < kAddressUpperBound
    ensures forall addr: nat :: kAddressLowerBound <= addr < kAddressUpperBound ==> ShadowIndex(addr) < kShadowSize
  {
    Pow2Add(31 - kShadowRatioLog, kShadowRatioLog);
    assert Pow2(3) == 8;
    assert Pow2(28) == 0x1000_0000 by {
      Pow2Add(14, 14);
      Pow2Add(7, 7);
      assert Pow2(7) == 128;
    }
  }

  /** The index/address mapping is a bijection between indices and granule starts. */
  lemma GranuleMapping(index: nat, addr: nat)
    ensures ShadowIndex(GranuleAddress(index)) == index
    ensures GranuleAddress(ShadowIndex(addr)) <= addr < GranuleAddress(ShadowIndex(addr)) + kShadowRatio
    ensures ShadowIndex(addr) == index <==> GranuleAddress(index) <= addr < GranuleAddress(index) + kShadowRatio
  {
  }

  /** One past the shadow index of the last granule holding a byte of `[addr, addr + size)`. */
  function TouchedEnd(addr: nat, size: nat): nat {
    if size == 0 then ShadowIndex(addr) else ShadowIndex(AlignUp(addr + size))
  }

  /** The indices from `ShadowIndex(addr)` up to `TouchedEnd` are exactly the granules holding a byte of the range. */
  lemma TouchedGranules(addr: nat, size: nat, i: nat)
    ensures ShadowIndex(addr) <= i < TouchedEnd(addr, size) <==>
      exists a :: addr <= a < addr + size && ShadowIndex(a) == i
  {
    if ShadowIndex(addr) <= i < TouchedEnd(addr, size) {
      var a := if addr < GranuleAddress(i) then GranuleAddress(i) else addr;
      assert addr <= a < addr + size && ShadowIndex(a) == i;
    }
  }

  /** `s` with the indices in `[lo, hi)` set to `v` (what `memset` does to the shadow). */
  function Fill(s: seq<bv8>, lo: nat, hi: nat, v: bv8): (r: seq<bv8>)
    requires lo <= hi <= |s|
    ensures |r| == |s|
  {
    seq(|s|, i requires 0 <= i < |s| => if lo <= i < hi then v else s[i])
  }

  /** `s` with the `n` bytes from index `src` copied over those from index `dst`. */
  function Splice(s: seq<bv8>, src: nat, dst: nat, n: nat): (r: seq<bv8>)
    requires src + n <= |s| && dst + n <= |s|
    ensures |r| == |s|
  {
    seq(|s|, i requires 0 <= i < |s| => if dst <= i < dst + n then s[src + (i - dst)] else s[i])
  }

  /** Whether the `width`-byte element ending at offset `end` of the array at `addr` is all zero bytes. */
  predicate TerminatorEndsAt(mem: seq<bv8>, addr: nat, width: nat, end: nat) {
    0 < width <= end && end % width == 0 && addr + end <= |mem| &&
    forall j :: addr + end - width <= j < addr + end ==> mem[j] == 0
  }

  class Shadow {

    /** The shadow bytes, one per granule (`shadow_`). */
    const bytes: array<bv8>

    /** A zeroed shadow of `size` granules, as set up for a fresh process. */
    constructor (size: nat)
      ensures fresh(bytes) && bytes.Length == size
      ensures forall i :: 0 <= i < size ==> bytes[i] == kHeapAddressableByte
    {
      bytes := new bv8[size](_ => kHeapAddressableByte);
    }

    /** One past the last application address covered by this shadow. */
    function AddressLimit(): nat {
      bytes.Length * kShadowRatio
    }

    /** The raw marker of the granule holding `addr`. */
    function GetShadowMarkerForAddress(addr: nat): (m: bv8)
      requires addr < AddressLimit()
      reads bytes
      ensures forall i :: 0 <= i < bytes.Length && GranuleAddress(i) <= addr < GranuleAddress(i) + kShadowRatio ==>
        m == bytes[i]
    {
      bytes[ShadowIndex(addr)]
    }

    /** Every address of one granule reads the same shadow byte. */
    lemma MarkerIsPerGranule(a: nat, b: nat)
      requires a < AddressLimit() && b < AddressLimit()
      ensures ShadowIndex(a) == ShadowIndex(b) <==> GranuleAddress(ShadowIndex(a)) <= b < GranuleAddress(ShadowIndex(a)) + kShadowRatio
      ensures ShadowIndex(a) == ShadowIndex(b) ==> GetShadowMarkerForAddress(a) == GetShadowMarkerForAddress(b)
    {
    }

    /** Whether the byte at `addr` is not poisoned. */
    predicate IsAccessible(addr: nat)
      requires addr < AddressLimit()
      reads bytes
      ensures IsAccessible(addr) <==>
        var m := GetShadowMarkerForAddress(addr);
        m == kHeapAddressableByte || (m <= 0x07 && (addr % kShadowRatio) < m as nat)
    {
      IsAccessibleMarker(GetShadowMarkerForAddress(addr), addr % kShadowRatio)
    }

    /** Whether `addr` lies in the granule that starts a block. */
    predicate IsBlockStartByte(addr: nat)
      requires addr < AddressLimit()
      reads bytes
      ensures IsBlockStartByte(addr) ==> !IsAccessible(addr)
    {
      var m := GetShadowMarkerForAddress(addr);
      if IsBlockStartByteMarker(m) then BlockStartIsInaccessible(m, addr % kShadowRatio); true else false
    }

    /** Whether `addr` lies in a left redzone of a block, the block header included. */
    predicate IsLeftRedzone(addr: nat)
      requires addr < AddressLimit()
      reads bytes
      ensures IsLeftRedzone(addr) ==> !IsAccessible(addr) && !IsRightRedzone(addr)
    {
      var m := GetShadowMarkerForAddress(addr);
      if IsLeftRedzoneMarker(m) then RedzonesAreInaccessible(m, addr % kShadowRatio); true else false
    }

    /** Whether `addr` lies in a right redzone of a block, the block trailer included. */
    predicate IsRightRedzone(addr: nat)
      requires addr < AddressLimit()
      reads bytes
      ensures IsRightRedzone(addr) ==> !IsAccessible(addr)
    {
      var m := GetShadowMarkerForAddress(addr);
      if IsRightRedzoneMarker(m) then RedzonesAreInaccessible(m, addr % kShadowRatio); true else false
    }

    /** Whether `addr` is inside this shadow and accessible: a byte the scan may read. */
    predicate Certified(addr: nat)
      reads bytes
    {
      addr < AddressLimit() && IsAccessible(addr)
    }

    /**
     * Poisons the `size` bytes at `addr` with `shadow_val`.  Every granule the
     * range covers completely receives the marker; a granule with an
     * unaligned start is not described by this contract.
     */
    method Poison(addr: nat, size: nat, shadow_val: bv8)
      requires (addr + size) % kShadowRatio == 0
      requires addr + size <= AddressLimit()
      modifies bytes
      ensures forall a :: AlignUp(addr) <= a < addr + size ==> GetShadowMarkerForAddress(a) == shadow_val
      ensures shadow_val & kHeapNonAccessibleByteMask == kHeapNonAccessibleByteMask ==>
                forall a :: AlignUp(addr) <= a < addr + size ==> !IsAccessible(a)
      ensures forall i :: 0 <= i < bytes.Length && (addr % kShadowRatio == 0 || i != ShadowIndex(addr)) ==>
                bytes[i] == Fill(old(bytes[..]), ShadowIndex(AlignUp(addr)), ShadowIndex(addr + size), shadow_val)[i]
    {
      var lo, hi := ShadowIndex(AlignUp(addr)), ShadowIndex(addr + size);
      var i := lo;
      while i < hi
        invariant lo <= i <= hi
        invariant forall j :: lo <= j < i ==> bytes[j] == shadow_val
        invariant forall j :: 0 <= j < bytes.Length && !(lo <= j < i) ==> bytes[j] == old(bytes[j])
      {
        bytes[i] := shadow_val;
        i := i + 1;
      }
      forall a | AlignUp(addr) <= a < addr + size && shadow_val & kHeapNonAccessibleByteMask == kHeapNonAccessibleByteMask
        ensures !IsAccessible(a)
      {
        NonAccessibleMaskIsInaccessible(shadow_val, a % kShadowRatio);
      }
    }

    /** Marks the granules of the aligned range `[addr, addr + size)` fully accessible. */
    method Unpoison(addr: nat, size: nat)
      requires addr % kShadowRatio == 0 && size % kShadowRatio == 0
      requires addr + size <= AddressLimit()
      modifies bytes
      ensures bytes[..] == Fill(old(bytes[..]), ShadowIndex(addr), ShadowIndex(addr + size), kHeapAddressableByte)
      ensures forall a :: addr <= a < addr + size ==> IsAccessible(a)
    {
      var lo, hi := ShadowIndex(addr), ShadowIndex(addr + size);
      var i := lo;
      while i < hi
        invariant lo <= i <= hi
        invariant bytes[..] == Fill(old(bytes[..]), lo, i, kHeapAddressableByte)
      {
        bytes[i] := kHeapAddressableByte;
        i := i + 1;
      }
      forall a | addr <= a < addr + size ensures IsAccessible(a) {
        assert bytes[..][ShadowIndex(a)] == kHeapAddressableByte;
      }
    }

    /**
     * Marks every granule that the range `[addr, addr + size)` touches as
     * freed; those are the granules `TouchedGranules` describes, none when
     * `size` is 0.
     */
    method MarkAsFreed(addr: nat, size: nat)
      requires addr + size <= AddressLimit()
      modifies bytes
      ensures bytes[..] == Fill(old(bytes[..]), ShadowIndex(addr), TouchedEnd(addr, size), kHeapFreedByte)
      ensures forall a :: addr <= a < addr + size ==> GetShadowMarkerForAddress(a) == kHeapFreedByte && !IsAccessible(a)
    {
      var lo, hi := ShadowIndex(addr), TouchedEnd(addr, size);
      var i := lo;
      while i < hi
        invariant lo <= i <= hi
        invariant bytes[..] == Fill(old(bytes[..]), lo, i, kHeapFreedByte)
      {
        bytes[i] := kHeapFreedByte;
        i := i + 1;
      }
      forall a | addr <= a < addr + size
        ensures GetShadowMarkerForAddress(a) == kHeapFreedByte && !IsAccessible(a)
      {
        assert bytes[..][ShadowIndex(a)] == kHeapFreedByte;
      }
    }

    /**
     * Copies the markers of the aligned range at `src` onto the range at
     * `dst`.  The source markers are read before any is written, so the
     * result is the old source range even when the two ranges overlap.
     */
    method CloneShadowRange(src: nat, dst: nat, size: nat)
      requires src % kShadowRatio == 0 && dst % kShadowRatio == 0 && size % kShadowRatio == 0
      requires src + size <= AddressLimit() && dst + size <= AddressLimit()
      modifies bytes
      ensures bytes[..] == Splice(old(bytes[..]), ShadowIndex(src), ShadowIndex(dst), ShadowIndex(size))
      ensures forall a :: dst <= a < dst + size ==>
                GetShadowMarkerForAddress(a) == old(GetShadowMarkerForAddress(src + (a - dst)))
    {
      var s, d, n := ShadowIndex(src), ShadowIndex(dst), ShadowIndex(size);
      var markers := bytes[s..s + n];
      var k := 0;
      while k < n
        invariant 0 <= k <= n
        invariant forall i :: d <= i < d + k ==> bytes[i] == markers[i - d]
        invariant forall i :: 0 <= i < bytes.Length && !(d <= i < d + k) ==> bytes[i] == old(bytes[i])
      {
        bytes[d + k] := markers[k];
        k := k + 1;
      }
      assert bytes[..] == Splice(old(bytes[..]), s, d, n);
      forall a | dst <= a < dst + size
        ensures GetShadowMarkerForAddress(a) == old(GetShadowMarkerForAddress(src + (a - dst)))
      {
        assert ShadowIndex(a) - d == ShadowIndex(src + (a - dst)) - s;
      }
    }

    /**
     * Whether the `width`-byte element at `start` is zero.  It may only look
     * at bytes the shadow certifies.
     */
    predicate IsZeroElement(mem: seq<bv8>, start: nat, width: nat)
      requires |mem| == AddressLimit()
      requires forall a :: start <= a < start + width ==> Certified(a)
      reads bytes
    {
      forall a :: start <= a < start + width ==> Certified(a) && mem[a] == 0
    }

    /**
     * Scans the array of `width`-byte elements at `addr` (in the application
     * memory `mem`) for a zero element, consulting the shadow before every
     * byte it reads.  On success `size` is the length of the array, the zero
     * element included; on failure it is the offset of the first byte the
     * shadow does not certify, or `max_size` when that bound (ignored if zero)
     * is reached first.
     */
    method GetNullTerminatedArraySize(mem: seq<bv8>, addr: nat, width: nat, max_size: nat)
      returns (ok: bool, size: nat)
      requires |mem| == AddressLimit()
      requires width > 0
      ensures max_size != 0 ==> size <= max_size
      ensures forall k :: addr <= k < addr + size ==> Certified(k)
      ensures ok ==> TerminatorEndsAt(mem, addr, width, size)
      ensures forall end :: 0 < end < size ==> !TerminatorEndsAt(mem, addr, width, end)
      ensures !ok ==> !TerminatorEndsAt(mem, addr, width, size)
      ensures !ok ==> !Certified(addr + size) || (max_size != 0 && size == max_size)
    {
      size := 0;
      while true
        invariant max_size != 0 ==> size <= max_size
        invariant addr + size <= AddressLimit() || size == 0
        invariant forall k :: addr <= k < addr + size ==> Certified(k)
        invariant forall end :: 0 < end <= size ==> !TerminatorEndsAt(mem, addr, width, end)
        decreases AddressLimit() - size
      {
        if max_size != 0 && size == max_size {
          return false, size;
        }
        if !Certified(addr + size) {
          return false, size;
        }
        size := size + 1;
        if size >= width && size % width == 0 && IsZeroElement(mem, addr + size - width, width) {
          return true, size;
        }
      }
    }
  }
}
