/**
 * The stack capture cache: a deduplicating, reference-counted set of call
 * stacks, whose records are bump-allocated from fixed-size cache pages
 * linked newest first.  Every operation is taken as atomic (the cache's lock is not
 * modelled).
 */
module StackCaptures {

  import opened Optional

  /** The size of one cache page, in bytes. */
  const kCachePageSize: nat := 1024 * 1024
  /** `sizeof(CachePage*)` and `sizeof(size_t)` in the 32-bit process the runtime serves. */
  const kPointerSize: nat := 4
  const kSizeTSize: nat := 4
  /** The bytes of a page left for captures once its link and `bytes_used_` are stored. */
  const kDataSize: nat := kCachePageSize - kPointerSize - kSizeTSize

  /** A page is its header plus its data, it fits, and it is a whole number of 4 KiB pages. */
  lemma PageGeometry()
    ensures kPointerSize + kSizeTSize + kDataSize == kCachePageSize
    ensures kDataSize < kCachePageSize
    ensures kCachePageSize % 4096 == 0
  {
  }

  /** Bytes a capture needs besides its frame array (a stand-in: see README). */
  const kStackCaptureHeaderSize: nat := 8

  /** The bytes a capture able to hold `max_num_frames` frames occupies on a page. */
  function StackCaptureSize(max_num_frames: nat): (n: nat)
    ensures n >= kStackCaptureHeaderSize + max_num_frames && n > 0
  {
    kStackCaptureHeaderSize + max_num_frames * kPointerSize
  }

  /** A return address. */
  type Frame = nat
  type StackId = nat

  /** An initialised capture handed to the cache to be saved. */
  datatype StackCapture = StackCapture(stack_id: StackId, frames: seq<Frame>)

  /** Where a saved capture lives: the page and the offset into its data. */
  datatype Slot = Slot(page: CachePage, offset: nat)

  /** A cached capture: its id, where it lives, the bytes reserved for it and its reference count. */
  datatype Entry = Entry(stack_id: StackId, slot: Slot, size: nat, refs: nat)

  /** A snapshot of the cache's statistics. */
  datatype Statistics = Statistics(
    cached: nat, size: nat, saturated: nat, unreferenced: nat,
    requested: nat, allocated_count: nat, references: nat)

  /** The frames a capture keeps: the first `num_frames`, but never more than `max_num_frames`. */
  function TruncatedFrames(frames: seq<Frame>, num_frames: nat, max_num_frames: nat): (r: seq<Frame>)
    requires num_frames <= |frames|
    ensures |r| <= num_frames && |r| <= max_num_frames
    ensures |r| == num_frames || |r| == max_num_frames
    ensures r == frames[..|r|]
  {
    if num_frames <= max_num_frames then frames[..num_frames] else frames[..max_num_frames]
  }

  /** A saturating reference increment: a count at the maximum stays there. */
  function AddRef(refs: nat, max_ref_count: nat): nat {
    if refs < max_ref_count then refs + 1 else refs
  }

  /** The sum of the reference counts of the entries with the given keys. */
  ghost function RefSumOver(m: map<seq<Frame>, Entry>, keys: set<seq<Frame>>): nat
    requires keys <= m.Keys
    decreases keys
  {
    if keys == {} then 0
    else
      var k :| k in keys;
      m[k].refs + RefSumOver(m, keys - {k})
  }

  /** The total number of references held on the entries of `m`. */
  ghost function RefSum(m: map<seq<Frame>, Entry>): nat {
    RefSumOver(m, m.Keys)
  }

  /** The sum does not depend on which key is taken first. */
  lemma {:induction false} RefSumOverRemove(m: map<seq<Frame>, Entry>, keys: set<seq<Frame>>, k: seq<Frame>)
    requires keys <= m.Keys && k in keys
    ensures RefSumOver(m, keys) == m[k].refs + RefSumOver(m, keys - {k})
    decreases keys
  {
    var j :| j in keys && RefSumOver(m, keys) == m[j].refs + RefSumOver(m, keys - {j});
    if j != k {
      RefSumOverRemove(m, keys - {j}, k);
      RefSumOverRemove(m, keys - {k}, j);
      assert keys - {j} - {k} == keys - {k} - {j};
    }
  }

  /** Two maps whose counts agree on `keys` have the same sum over `keys`. */
  lemma {:induction false} RefSumOverAgree(m1: map<seq<Frame>, Entry>, m2: map<seq<Frame>, Entry>, keys: set<seq<Frame>>)
    requires keys <= m1.Keys && keys <= m2.Keys
    requires forall k :: k in keys ==> m1[k].refs == m2[k].refs
    ensures RefSumOver(m1, keys) == RefSumOver(m2, keys)
    decreases keys
  {
    if keys != {} {
      var k :| k in keys && RefSumOver(m1, keys) == m1[k].refs + RefSumOver(m1, keys - {k});
      RefSumOverRemove(m2, keys, k);
      RefSumOverAgree(m1, m2, keys - {k});
    }
  }

  /** Replacing or adding one entry changes the total by the difference of its counts. */
  lemma RefSumUpdate(m: map<seq<Frame>, Entry>, k: seq<Frame>, e: Entry)
    ensures k in m ==> RefSum(m[k := e]) + m[k].refs == RefSum(m) + e.refs
    ensures k !in m ==> RefSum(m[k := e]) == RefSum(m) + e.refs
  {
    var m' := m[k := e];
    RefSumOverRemove(m', m'.Keys, k);
    assert m'.Keys - {k} == m.Keys - {k};
    RefSumOverAgree(m', m, m.Keys - {k});
    if k in m {
      RefSumOverRemove(m, m.Keys, k);
    } else {
      assert m.Keys - {k} == m.Keys;
    }
  }

  /** Removing one entry takes its count off the total. */
  lemma RefSumRemove(m: map<seq<Frame>, Entry>, k: seq<Frame>)
    requires k in m
    ensures RefSum(m - {k}) + m[k].refs == RefSum(m)
  {
    var m' := m - {k};
    assert m'.Keys == m.Keys - {k};
    RefSumOverAgree(m', m, m.Keys - {k});
    RefSumOverRemove(m, m.Keys, k);
  }

  /** A page of the cache: a bump allocator over `kDataSize` bytes. */
  class CachePage {

    /** The previously current page; pages form a list, newest first. */
    const next_page: CachePage?
    /** The bytes in use, which is also the offset of the next capture to hand out. */
    var bytes_used: nat

    constructor (link: CachePage?)
      ensures next_page == link && bytes_used == 0
    {
      next_page := link;
      bytes_used := 0;
    }

    /** Hands out room for a capture of up to `max_num_frames` frames, or None when the page is full. */
    method GetNextStackCapture(max_num_frames: nat) returns (capture: Option<nat>)
      requires bytes_used <= kDataSize
      modifies this
      ensures bytes_used <= kDataSize
      ensures capture.None? <==> kDataSize - old(bytes_used) < StackCaptureSize(max_num_frames)
      ensures capture.Some? ==>
        capture.value == old(bytes_used) && bytes_used == old(bytes_used) + StackCaptureSize(max_num_frames)
      ensures capture.None? ==> bytes_used == old(bytes_used)
    {
      var size := StackCaptureSize(max_num_frames);
      if kDataSize - bytes_used < size {
        return None;
      }
      capture := Some(bytes_used);
      bytes_used := bytes_used + size;
    }

    /**
     * Gives back the capture of `size` bytes at `offset`, which must be the
     * most recent one; for any other capture nothing changes.
     */
    method ReleaseStackCapture(offset: nat, size: nat)
      modifies this
      ensures old(bytes_used) == offset + size ==> bytes_used == offset
      ensures old(bytes_used) != offset + size ==> bytes_used == old(bytes_used)
    {
      if offset + size == bytes_used {
        bytes_used := offset;
      }
    }
  }

  /** Allocating a capture and releasing it at once leaves the page as it was. */
  method AllocateThenRelease(page: CachePage, max_num_frames: nat) returns (capture: Option<nat>)
    requires page.bytes_used <= kDataSize
    modifies page
    ensures page.bytes_used == old(page.bytes_used)
  {
    capture := page.GetNextStackCapture(max_num_frames);
    if capture.Some? {
      page.ReleaseStackCapture(capture.value, StackCaptureSize(max_num_frames));
    }
  }

  /** Two captures do not share a byte. */
  predicate Disjoint(e1: Entry, e2: Entry) {
    e1.slot.page != e2.slot.page ||
    e1.slot.offset + e1.size <= e2.slot.offset || e2.slot.offset + e2.size <= e1.slot.offset
  }

  /** No two cached captures share a byte. */
  predicate SlotsDisjoint(m: map<seq<Frame>, Entry>) {
    forall k1, k2 {:trigger Disjoint(m[k1], m[k2])} :: k1 in m && k2 in m && k1 != k2 ==> Disjoint(m[k1], m[k2])
  }

  /** Every cached capture has room for its frames and a count within the saturation bound. */
  predicate EntriesSized(m: map<seq<Frame>, Entry>, max_ref_count: nat) {
    forall k :: k in m ==> StackCaptureSize(|k|) <= m[k].size && m[k].refs <= max_ref_count
  }

  /** Distinct stacks never share a record: the pointer a save returns identifies its stack. */
  lemma SlotsIdentifyKeys(m: map<seq<Frame>, Entry>, max_ref_count: nat, k1: seq<Frame>, k2: seq<Frame>)
    requires SlotsDisjoint(m) && EntriesSized(m, max_ref_count)
    requires k1 in m && k2 in m
    ensures m[k1].slot == m[k2].slot <==> k1 == k2
  {
    if k1 != k2 {
      assert StackCaptureSize(|k1|) <= m[k1].size && Disjoint(m[k1], m[k2]);
    }
  }

  /** Adding a sized capture that overlaps no cached one keeps the invariants of the map. */
  lemma InsertKeepsInvariants(m: map<seq<Frame>, Entry>, max_ref_count: nat, key: seq<Frame>, e: Entry)
    requires SlotsDisjoint(m) && EntriesSized(m, max_ref_count) && key !in m
    requires StackCaptureSize(|key|) <= e.size && e.refs <= max_ref_count
    requires forall k :: k in m ==> Disjoint(m[k], e)
    ensures SlotsDisjoint(m[key := e]) && EntriesSized(m[key := e], max_ref_count)
  {
  }

  /** Changing one count, within the bound, keeps the invariants of the map. */
  lemma UpdateKeepsInvariants(m: map<seq<Frame>, Entry>, max_ref_count: nat, key: seq<Frame>, refs: nat)
    requires SlotsDisjoint(m) && EntriesSized(m, max_ref_count) && key in m && refs <= max_ref_count
    ensures SlotsDisjoint(m[key := m[key].(refs := refs)])
    ensures EntriesSized(m[key := m[key].(refs := refs)], max_ref_count)
  {
    var m' := m[key := m[key].(refs := refs)];
    forall k1, k2 | k1 in m' && k2 in m' && k1 != k2 ensures Disjoint(m'[k1], m'[k2]) {
      assert Disjoint(m[k1], m[k2]);
    }
  }

  /** Dropping a capture keeps the invariants of the map. */
  lemma RemoveKeepsInvariants(m: map<seq<Frame>, Entry>, max_ref_count: nat, key: seq<Frame>)
    requires SlotsDisjoint(m) && EntriesSized(m, max_ref_count)
    ensures SlotsDisjoint(m - {key}) && EntriesSized(m - {key}, max_ref_count)
  {
  }

  class StackCaptureCache {

    /** The count at which a capture's references saturate (a property of the capture type). */
    const max_ref_count: nat
    /** The most frames a saved capture keeps. */
    var max_num_frames: nat
    /** The known captures, one entry per distinct frame sequence. */
    var known_stacks: map<seq<Frame>, Entry>
    /** The page new captures come from. */
    var current_page: CachePage
    /** Every page of the cache: the pages of the list `current_page` heads. */
    ghost var pages: set<CachePage>

    // The statistics kept up to date by the operations.
    var size: nat
    var requested: nat
    var allocated_count: nat
    var references: nat

    /** The current page is one of the pages, and no page overflows. */
    ghost predicate PagesValid()
      reads this`current_page, this`pages, this`size, pages
    {
      current_page in pages &&
      (forall p :: p in pages ==> p.bytes_used <= kDataSize) &&
      size == |pages| * kCachePageSize
    }

    /** Every capture lies inside the used bytes of one of the pages. */
    ghost predicate EntriesPlaced()
      reads this`known_stacks, this`pages, pages
    {
      forall k :: k in known_stacks ==>
        known_stacks[k].slot.page in pages &&
        known_stacks[k].slot.offset + known_stacks[k].size <= known_stacks[k].slot.page.bytes_used
    }

    ghost predicate StatisticsValid()
      reads this`known_stacks, this`requested, this`allocated_count, this`references
    {
      allocated_count <= requested && |known_stacks| <= allocated_count && references == RefSum(known_stacks)
    }

    ghost predicate Valid()
      reads this, pages
    {
      max_ref_count >= 1 && PagesValid() && EntriesPlaced() &&
      SlotsDisjoint(known_stacks) && EntriesSized(known_stacks, max_ref_count) && StatisticsValid()
    }

    constructor (max_num_frames: nat, max_ref_count: nat)
      requires max_ref_count >= 1
      ensures Valid() && fresh(current_page) && pages == {current_page} && current_page.bytes_used == 0
      ensures this.max_num_frames == max_num_frames && this.max_ref_count == max_ref_count
      ensures known_stacks == map[] && requested == 0 && allocated_count == 0 && references == 0
    {
      this.max_ref_count := max_ref_count;
      this.max_num_frames := max_num_frames;
      known_stacks := map[];
      var page := new CachePage(null);
      current_page := page;
      pages := {page};
      size, requested, allocated_count, references := kCachePageSize, 0, 0, 0;
    }

    method SetMaxNumFrames(max_num_frames: nat)
      requires Valid()
      modifies this`max_num_frames
      ensures Valid() && this.max_num_frames == max_num_frames
    {
      this.max_num_frames := max_num_frames;
    }

    /**
     * Makes `page`, a new and empty page, the current one and counts its bytes.
     * The caller allocates it linked in front of the old current page.
     */
    method AddPage(page: CachePage)
      requires Valid() && page !in pages && page.bytes_used == 0
      modifies this`current_page, this`pages, this`size
      ensures Valid()
      ensures current_page == page
      ensures pages == old(pages) + {current_page} && size == old(size) + kCachePageSize
    {
      assert |pages + {page}| == |pages| + 1;
      pages, current_page, size := pages + {page}, page, size + kCachePageSize;
    }

    /** Room for a capture of `max_frames` frames on the current page, or None when it is full. */
    method AllocateOnCurrentPage(max_frames: nat) returns (r: Option<nat>)
      requires Valid()
      modifies current_page
      ensures Valid()
      ensures r.None? <==> kDataSize - old(current_page.bytes_used) < StackCaptureSize(max_frames)
      ensures r.Some? ==>
        r.value == old(current_page.bytes_used) &&
        current_page.bytes_used == old(current_page.bytes_used) + StackCaptureSize(max_frames)
      ensures r.None? ==> current_page.bytes_used == old(current_page.bytes_used)
    {
      r := current_page.GetNextStackCapture(max_frames);
      assert forall k :: k in known_stacks ==>
        known_stacks[k].slot.offset + known_stacks[k].size <= old(known_stacks[k].slot.page.bytes_used);
    }

    /**
     * `slot` is room for `n` bytes: the next `n` bytes of the current page, or,
     * when fewer than `n` are left there, the first `n` bytes of a new page
     * linked in front of it, the full page being left as it was.
     */
    twostate predicate TookRoom(new slot: Slot, n: nat)
      reads this, current_page, current_page.next_page
    {
      (current_page == old(current_page) && pages == old(pages) && size == old(size) &&
       slot == Slot(current_page, old(current_page.bytes_used)) &&
       current_page.bytes_used == old(current_page.bytes_used) + n) ||
      (fresh(current_page) && current_page.next_page == old(current_page) &&
       pages == old(pages) + {current_page} && size == old(size) + kCachePageSize &&
       slot == Slot(current_page, 0) && current_page.bytes_used == n &&
       kDataSize - old(current_page.bytes_used) < n &&
       old(current_page).bytes_used == old(current_page.bytes_used))
    }

    /**
     * Room for a capture of `max_frames` frames, from the current page or,
     * when that is full, from a new page linked in front of it; it overlaps no
     * cached capture.
     */
    method GetStackCapture(max_frames: nat) returns (slot: Slot)
      requires Valid()
      requires StackCaptureSize(max_frames) <= kDataSize
      modifies this`current_page, this`pages, this`size, current_page
      ensures Valid()
      ensures TookRoom(slot, StackCaptureSize(max_frames))
      ensures forall k :: k in known_stacks ==>
        Disjoint(known_stacks[k], Entry(0, slot, StackCaptureSize(max_frames), 0))
    {
      ghost var before := current_page.bytes_used;
      var r := AllocateOnCurrentPage(max_frames);
      if r.None? {
        var page := new CachePage(current_page);
        AddPage(page);
        r := AllocateOnCurrentPage(max_frames);
        slot := Slot(current_page, r.value);
      } else {
        slot := Slot(current_page, r.value);
        assert forall k :: k in known_stacks && known_stacks[k].slot.page == current_page ==>
          known_stacks[k].slot.offset + known_stacks[k].size <= before;
      }
    }

    /** Takes one more reference on the cached capture of `key`, saturating at `max_ref_count`. */
    method AddReference(key: seq<Frame>) returns (capture: Slot)
      requires Valid() && key in known_stacks
      modifies this`known_stacks, this`references
      ensures Valid()
      ensures capture == old(known_stacks[key]).slot
      ensures known_stacks == old(known_stacks)[key := old(known_stacks[key]).(refs := AddRef(old(known_stacks[key]).refs, max_ref_count))]
    {
      var e := known_stacks[key];
      var refs := AddRef(e.refs, max_ref_count);
      RefSumUpdate(known_stacks, key, e.(refs := refs));
      UpdateKeepsInvariants(known_stacks, max_ref_count, key, refs);
      known_stacks := known_stacks[key := e.(refs := refs)];
      references := references + (refs - e.refs);
      capture := e.slot;
    }

    /** Allocates and caches a new capture of `key`, holding one reference. */
    method Insert(stack_id: StackId, key: seq<Frame>) returns (capture: Slot)
      requires Valid() && key !in known_stacks && allocated_count < requested
      requires |key| <= max_num_frames && StackCaptureSize(max_num_frames) <= kDataSize
      modifies this`known_stacks, this`references, this`allocated_count, this`current_page, this`pages, this`size, current_page
      ensures Valid() && TookRoom(capture, StackCaptureSize(max_num_frames))
      ensures known_stacks == old(known_stacks)[key := Entry(stack_id, capture, StackCaptureSize(max_num_frames), 1)]
      ensures allocated_count == old(allocated_count) + 1
      ensures forall k :: k in old(known_stacks) ==> old(known_stacks[k]).slot != capture
    {
      capture := GetStackCapture(max_num_frames);
      AddEntry(key, Entry(stack_id, capture, StackCaptureSize(max_num_frames), 1));
    }

    /** Caches `e`, a capture that lies on one of the pages and overlaps no cached one, under `key`. */
    method AddEntry(key: seq<Frame>, e: Entry)
      requires Valid() && key !in known_stacks && allocated_count < requested
      requires e.slot.page in pages && e.slot.offset + e.size <= e.slot.page.bytes_used
      requires StackCaptureSize(|key|) <= e.size && e.refs == 1
      requires forall k :: k in known_stacks ==> Disjoint(known_stacks[k], e)
      modifies this`known_stacks, this`references, this`allocated_count
      ensures Valid()
      ensures known_stacks == old(known_stacks)[key := e] && allocated_count == old(allocated_count) + 1
    {
      RefSumUpdate(known_stacks, key, e);
      InsertKeepsInvariants(known_stacks, max_ref_count, key, e);
      known_stacks := known_stacks[key := e];
      allocated_count := allocated_count + 1;
      references := references + 1;
    }

    /** The outcome of saving `key` under `stack_id`, returning `capture`. */
    twostate predicate SavedAs(key: seq<Frame>, stack_id: StackId, new capture: Slot)
      reads this, current_page, current_page.next_page
    {
      key in known_stacks && known_stacks[key].slot == capture &&
      requested == old(requested) + 1 && max_num_frames == old(max_num_frames) &&
      (key in old(known_stacks) ==>
        capture == old(known_stacks[key]).slot &&
        known_stacks == old(known_stacks)[key := old(known_stacks[key]).(refs := AddRef(old(known_stacks[key]).refs, max_ref_count))] &&
        allocated_count == old(allocated_count) &&
        current_page == old(current_page) && current_page.bytes_used == old(current_page.bytes_used) &&
        pages == old(pages) && size == old(size)) &&
      (key !in old(known_stacks) ==>
        known_stacks == old(known_stacks)[key := Entry(stack_id, capture, StackCaptureSize(old(max_num_frames)), 1)] &&
        allocated_count == old(allocated_count) + 1 &&
        TookRoom(capture, StackCaptureSize(old(max_num_frames))) &&
        (forall k :: k in old(known_stacks) ==> old(known_stacks[k]).slot != capture))
    }

    /**
     * Saves the first `num_frames` of `frames` (at most `max_num_frames` of
     * them), or takes one more reference on the equal capture already cached.
     */
    method SaveStackTrace(stack_id: StackId, frames: seq<Frame>, num_frames: nat) returns (capture: Slot)
      requires Valid()
      requires num_frames <= |frames|
      requires StackCaptureSize(max_num_frames) <= kDataSize
      modifies this, current_page
      ensures Valid() && (current_page == old(current_page) || fresh(current_page))
      ensures SavedAs(TruncatedFrames(frames, num_frames, old(max_num_frames)), stack_id, capture)
    {
      var key := TruncatedFrames(frames, num_frames, max_num_frames);
      if key in known_stacks {
        capture := SaveCached(stack_id, key);
      } else {
        capture := SaveNew(stack_id, key);
      }
    }

    /** A save of `key` when an equal capture is already cached. */
    method SaveCached(stack_id: StackId, key: seq<Frame>) returns (capture: Slot)
      requires Valid() && key in known_stacks
      modifies this`requested, this`known_stacks, this`references
      ensures Valid() && SavedAs(key, stack_id, capture)
    {
      requested := requested + 1;
      capture := AddReference(key);
    }

    /** A save of `key` when no equal capture is cached. */
    method SaveNew(stack_id: StackId, key: seq<Frame>) returns (capture: Slot)
      requires Valid() && key !in known_stacks
      requires |key| <= max_num_frames && StackCaptureSize(max_num_frames) <= kDataSize
      modifies this`requested, this`known_stacks, this`references, this`allocated_count,
        this`current_page, this`pages, this`size, current_page
      ensures Valid() && SavedAs(key, stack_id, capture)
    {
      requested := requested + 1;
      capture := Insert(stack_id, key);
    }

    /** Saves an initialised capture, truncated to `max_num_frames` frames like the other overload. */
    method SaveStackTraceCapture(stack_capture: StackCapture) returns (capture: Slot)
      requires Valid()
      requires StackCaptureSize(max_num_frames) <= kDataSize
      modifies this, current_page
      ensures Valid() && (current_page == old(current_page) || fresh(current_page))
      ensures SavedAs(TruncatedFrames(stack_capture.frames, |stack_capture.frames|, old(max_num_frames)),
                      stack_capture.stack_id, capture)
    {
      capture := SaveStackTrace(stack_capture.stack_id, stack_capture.frames, |stack_capture.frames|);
    }

    /** Whether `e` is the most recent allocation of the current page. */
    ghost predicate IsTail(e: Entry)
      reads this, current_page
    {
      e.slot.page == current_page && e.slot.offset + e.size == current_page.bytes_used
    }

    /** Drops one reference on the cached capture of `key`, which stays cached. */
    method DropReference(key: seq<Frame>)
      requires Valid() && key in known_stacks && 0 < known_stacks[key].refs
      modifies this`known_stacks, this`references
      ensures Valid()
      ensures known_stacks == old(known_stacks)[key := old(known_stacks[key]).(refs := old(known_stacks[key]).refs - 1)]
    {
      var e := known_stacks[key];
      RefSumUpdate(known_stacks, key, e.(refs := e.refs - 1));
      UpdateKeepsInvariants(known_stacks, max_ref_count, key, e.refs - 1);
      known_stacks := known_stacks[key := e.(refs := e.refs - 1)];
      references := references - 1;
    }

    /** Removes the last reference of the most recent capture and gives its bytes back to the page. */
    method Reclaim(key: seq<Frame>)
      requires Valid() && key in known_stacks && known_stacks[key].refs == 1 && IsTail(known_stacks[key])
      modifies this`known_stacks, this`references, current_page
      ensures Valid()
      ensures known_stacks == old(known_stacks) - {key}
      ensures current_page.bytes_used == old(known_stacks[key]).slot.offset
    {
      var e := known_stacks[key];
      RefSumRemove(known_stacks, key);
      RemoveKeepsInvariants(known_stacks, max_ref_count, key);
      current_page.ReleaseStackCapture(e.slot.offset, e.size);
      known_stacks := known_stacks - {key};
      references := references - 1;
      forall k | k in known_stacks
        ensures known_stacks[k].slot.offset + known_stacks[k].size <= known_stacks[k].slot.page.bytes_used
      {
        assert old(known_stacks[k].slot.offset + known_stacks[k].size <= known_stacks[k].slot.page.bytes_used);
        assert Disjoint(known_stacks[k], e);
      }
    }

    /**
     * Drops one reference on a saved capture.  A saturated capture keeps its
     * count.  A capture left with no reference is reclaimed when it is the
     * most recent allocation of the current page and stays cached otherwise.
     */
    method ReleaseStackTrace(capture: Slot)
      requires Valid()
      requires exists k :: k in known_stacks && known_stacks[k].slot == capture && known_stacks[k].refs > 0
      modifies this, current_page
      ensures Valid()
      ensures max_num_frames == old(max_num_frames) && requested == old(requested) && allocated_count == old(allocated_count)
      ensures pages == old(pages) && current_page == old(current_page)
      ensures forall k :: k in old(known_stacks) && old(known_stacks[k]).slot == capture ==>
        var e := old(known_stacks[k]);
        (e.refs == max_ref_count ==>
          known_stacks == old(known_stacks) && current_page.bytes_used == old(current_page.bytes_used)) &&
        (0 < e.refs < max_ref_count && (e.refs > 1 || !old(IsTail(e))) ==>
          known_stacks == old(known_stacks)[k := e.(refs := e.refs - 1)] &&
          current_page.bytes_used == old(current_page.bytes_used)) &&
        (e.refs == 1 < max_ref_count && old(IsTail(e)) ==>
          known_stacks == old(known_stacks) - {k} && current_page.bytes_used == e.slot.offset)
    {
      var key :| key in known_stacks && known_stacks[key].slot == capture && known_stacks[key].refs > 0;
      forall k | k in known_stacks && known_stacks[k].slot == capture ensures k == key {
        SlotsIdentifyKeys(known_stacks, max_ref_count, k, key);
      }
      var e := known_stacks[key];
      if e.refs == max_ref_count {
        return;
      }
      if e.refs == 1 && e.slot.page == current_page && e.slot.offset + e.size == current_page.bytes_used {
        Reclaim(key);
      } else {
        DropReference(key);
      }
    }

    /** A point-in-time snapshot of the cache's statistics. */
    method GetStatisticsUnlocked() returns (statistics: Statistics)
      requires Valid()
      ensures statistics.cached == |known_stacks|
      ensures statistics.saturated == |set k | k in known_stacks && known_stacks[k].refs == max_ref_count|
      ensures statistics.unreferenced == |set k | k in known_stacks && known_stacks[k].refs == 0|
      ensures statistics.size == |pages| * kCachePageSize
      ensures statistics.requested == requested && statistics.allocated_count == allocated_count
      ensures statistics.references == RefSum(known_stacks)
      ensures statistics.cached <= statistics.allocated_count <= statistics.requested
      ensures statistics.saturated + statistics.unreferenced <= statistics.cached
    {
      var saturated := set k | k in known_stacks && known_stacks[k].refs == max_ref_count;
      var unreferenced := set k | k in known_stacks && known_stacks[k].refs == 0;
      SubsetCardinality(saturated + unreferenced, known_stacks.Keys);
      statistics := Statistics(|known_stacks|, size, |saturated|, |unreferenced|, requested, allocated_count, references);
    }
  }

  lemma {:induction false} SubsetCardinality<T>(a: set<T>, b: set<T>)
    requires a <= b
    ensures |a| <= |b|
    decreases b
  {
    if a != {} {
      var x :| x in a;
      SubsetCardinality(a - {x}, b - {x});
    }
  }

  /** Saving an uncached stack twice returns one record holding two references. */
  method SaveSameStackTwice(cache: StackCaptureCache, stack_id: StackId, frames: seq<Frame>)
    returns (first: Slot, second: Slot)
    requires cache.Valid() && cache.max_ref_count >= 2
    requires StackCaptureSize(cache.max_num_frames) <= kDataSize
    requires TruncatedFrames(frames, |frames|, cache.max_num_frames) !in cache.known_stacks
    modifies cache, cache.current_page
    ensures cache.Valid()
    ensures first == second
    ensures TruncatedFrames(frames, |frames|, old(cache.max_num_frames)) in cache.known_stacks
    ensures cache.known_stacks[TruncatedFrames(frames, |frames|, old(cache.max_num_frames))].refs == 2
  {
    first := cache.SaveStackTrace(stack_id, frames, |frames|);
    second := cache.SaveStackTrace(stack_id, frames, |frames|);
  }
  /**
   * The most recent capture, once released, gives its bytes back: the next new
   * capture saved on the same page gets the very same record.
   */
  method ReleaseThenSaveReusesSlot(cache: StackCaptureCache, id1: StackId, frames1: seq<Frame>,
                                   id2: StackId, frames2: seq<Frame>)
    returns (first: Slot, second: Slot)
    requires cache.Valid() && cache.max_ref_count >= 2
    requires StackCaptureSize(cache.max_num_frames) <= kDataSize - cache.current_page.bytes_used
    requires TruncatedFrames(frames1, |frames1|, cache.max_num_frames) !in cache.known_stacks
    requires TruncatedFrames(frames2, |frames2|, cache.max_num_frames) !in cache.known_stacks
    modifies cache, cache.current_page
    ensures cache.Valid()
    ensures first == second == Slot(old(cache.current_page), old(cache.current_page.bytes_used))
    ensures cache.current_page == old(cache.current_page) && cache.pages == old(cache.pages)
  {
    first := cache.SaveStackTrace(id1, frames1, |frames1|);
    cache.ReleaseStackTrace(first);
    second := cache.SaveStackTrace(id2, frames2, |frames2|);
  }
}
