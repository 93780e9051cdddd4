/**
 * A walker over the blocks of a memory region, found from the shadow alone:
 * it lists, in increasing order, the granule addresses in
 * `[lower_bound, upper_bound)` whose shadow byte is a block-start marker.
 */
module AsanShadowWalker {

  import opened ShadowMarker
  import opened AsanShadow

  /**
   * The addresses `a`, `a + 8`, `a + 16`, ... below `upper` whose granule
   * holds a block-start marker in the shadow `s`, in the order they occur.
   */
  function BlockStarts(s: seq<bv8>, a: nat, upper: nat): seq<nat>
    requires upper <= |s| * kShadowRatio
    decreases upper - a
  {
    if a >= upper then []
    else (if IsBlockStartByteMarker(s[a / kShadowRatio]) then [a] else []) + BlockStarts(s, a + kShadowRatio, upper)
  }

  /** Every listed address is a block start of the scanned range, and the list strictly increases. */
  lemma {:induction false} BlockStartsSorted(s: seq<bv8>, a: nat, upper: nat)
    requires upper <= |s| * kShadowRatio
    ensures forall b :: b in BlockStarts(s, a, upper) ==>
      a <= b < upper && (b - a) % kShadowRatio == 0 && IsBlockStartByteMarker(s[b / kShadowRatio])
    ensures forall i, j :: 0 <= i < j < |BlockStarts(s, a, upper)| ==>
      BlockStarts(s, a, upper)[i] < BlockStarts(s, a, upper)[j]
    decreases upper - a
  {
    if a < upper {
      var rest := BlockStarts(s, a + kShadowRatio, upper);
      BlockStartsSorted(s, a + kShadowRatio, upper);
      var head: seq<nat> := if IsBlockStartByteMarker(s[a / kShadowRatio]) then [a] else [];
      var r := BlockStarts(s, a, upper);
      assert r == head + rest;
      forall b | b in r
        ensures a <= b < upper && (b - a) % kShadowRatio == 0 && IsBlockStartByteMarker(s[b / kShadowRatio])
      {
        if b !in head {
          assert b in rest;
          assert b - a == (b - (a + kShadowRatio)) + kShadowRatio;
        }
      }
      forall i, j | 0 <= i < j < |r| ensures r[i] < r[j] {
        if i >= |head| {
          assert r[i] == rest[i - |head|] && r[j] == rest[j - |head|];
        } else {
          assert r[j] == rest[j - 1] && r[j] in rest;
        }
      }
    }
  }

  /** No block start of the scanned range is missed. */
  lemma {:induction false} BlockStartsComplete(s: seq<bv8>, a: nat, upper: nat, b: nat)
    requires upper <= |s| * kShadowRatio
    requires a <= b < upper && (b - a) % kShadowRatio == 0
    requires IsBlockStartByteMarker(s[b / kShadowRatio])
    ensures b in BlockStarts(s, a, upper)
    decreases upper - a
  {
    if b != a {
      BlockStartsComplete(s, a + kShadowRatio, upper, b);
    }
  }

  class ShadowWalker {

    /** The shadow the walker reads; it must not change during a walk. */
    const shadow: Shadow
    const lower_bound: nat
    const upper_bound: nat
    /** The next block to report, or `upper_bound` once there is none. */
    var next_block: nat

    ghost predicate Bounded()
      reads this
    {
      lower_bound <= upper_bound <= shadow.AddressLimit()
    }

    ghost predicate Valid()
      reads this, shadow.bytes
    {
      Bounded() &&
      lower_bound <= next_block <= upper_bound &&
      (next_block < upper_bound ==>
        next_block % kShadowRatio == 0 && IsBlockStartByteMarker(shadow.bytes[next_block / kShadowRatio]))
    }

    /** The blocks the walker has yet to report, in order. */
    ghost function Pending(): seq<nat>
      requires Valid()
      reads this, shadow.bytes
    {
      BlockStarts(shadow.bytes[..], next_block, upper_bound)
    }

    /** The blocks a fresh (or reset) walker reports. */
    ghost function AllBlocks(): seq<nat>
      requires Bounded()
      reads this, shadow.bytes
    {
      BlockStarts(shadow.bytes[..], AlignUp(lower_bound), upper_bound)
    }

    lemma PendingHead()
      requires Valid()
      ensures (Pending() == []) == (next_block == upper_bound)
      ensures Pending() != [] ==> Pending()[0] == next_block
    {
    }

    constructor (shadow: Shadow, lower_bound: nat, upper_bound: nat)
      requires lower_bound <= upper_bound <= shadow.AddressLimit()
      ensures this.shadow == shadow && this.lower_bound == lower_bound && this.upper_bound == upper_bound
      ensures Valid() && Pending() == AllBlocks()
    {
      this.shadow := shadow;
      this.lower_bound := lower_bound;
      this.upper_bound := upper_bound;
      next_block := upper_bound;
      new;
      Reset();
    }

    /** Reports the next block of the region, if there is one. */
    method Next() returns (found: bool, block_begin: nat)
      requires Valid()
      modifies this
      ensures Valid()
      ensures found == (old(Pending()) != [])
      ensures found ==> block_begin == old(Pending())[0] && Pending() == old(Pending())[1..]
      ensures found ==> lower_bound <= block_begin < upper_bound && shadow.IsBlockStartByte(block_begin)
      ensures found ==> block_begin < next_block
      ensures !found ==> block_begin >= upper_bound && Pending() == []
    {
      PendingHead();
      if next_block >= upper_bound {
        return false, next_block;
      }
      found, block_begin := true, next_block;
      Advance();
      PendingHead();
      BlockStartsSorted(shadow.bytes[..], block_begin + kShadowRatio, upper_bound);
      if next_block < upper_bound {
        assert next_block in Pending();
      }
    }

    /** Rewinds the walker to the start of its region. */
    method Reset()
      requires Bounded()
      modifies this
      ensures Valid() && Pending() == AllBlocks()
    {
      Seek(AlignUp(lower_bound));
    }

    /** Moves `next_block` to the following block, or to `upper_bound` if there is none. */
    method Advance()
      requires Valid() && next_block < upper_bound
      modifies this
      ensures Valid() && Pending() == BlockStarts(shadow.bytes[..], old(next_block) + kShadowRatio, upper_bound)
    {
      Seek(next_block + kShadowRatio);
    }

    /** Sets `next_block` to the first block start at or after the granule boundary `from`. */
    method Seek(from: nat)
      requires Bounded() && lower_bound <= from && from % kShadowRatio == 0
      modifies this
      ensures Valid() && Pending() == BlockStarts(shadow.bytes[..], from, upper_bound)
    {
      var a := from;
      while a < upper_bound && !shadow.IsBlockStartByte(a)
        invariant from <= a && a % kShadowRatio == 0
        invariant BlockStarts(shadow.bytes[..], a, upper_bound) == BlockStarts(shadow.bytes[..], from, upper_bound)
        decreases upper_bound - a
      {
        a := a + kShadowRatio;
      }
      next_block := if a < upper_bound then a else upper_bound;
    }
  }
}
