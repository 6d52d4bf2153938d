/** The uncached heap of iomem.c: a first-fit allocator that scans its table of
    blocks from the top down and keeps, per allocation, the number of blocks at
    its first and at its last block only.
 */
module IoMem {

  const BLOCK_SIZE: nat := 256
  const OUT_OF_MEMORY: nat := 0xFFFFFFFF

  /** Live allocations: first block, and number of blocks. */
  type Live = map<nat, nat>

  ghost predicate Occupied(live: Live, i: nat) {
    exists s :: s in live && s <= i < s + live[s]
  }

  /** A run of free blocks within the table. */
  ghost predicate FreeRun(live: Live, n: nat, start: nat, count: nat) {
    start + count <= n && forall i :: start <= i < start + count ==> !Occupied(live, i)
  }

  ghost predicate NoRun(live: Live, n: nat, count: nat) {
    forall o :: !FreeRun(live, n, o, count)
  }

  ghost predicate HighestRun(live: Live, n: nat, start: nat, count: nat) {
    FreeRun(live, n, start, count) && forall o :: start < o ==> !FreeRun(live, n, o, count)
  }

  /** Allocations lie in the table and do not overlap. */
  ghost predicate Disjoint(live: Live, n: nat) {
    && (forall s :: s in live ==> live[s] >= 1 && s + live[s] <= n)
    && (forall s, t :: s in live && t in live && s < t ==> s + live[s] <= t)
  }

  /** The first and last block of each allocation show its length; all other
      entries are zero, inside an allocation too. */
  ghost predicate Tagged(memmap: seq<nat>, live: Live) {
    && (forall s :: s in live && s + live[s] <= |memmap| && live[s] >= 1 ==>
          memmap[s] == live[s] && memmap[s + live[s] - 1] == live[s])
    && (forall i :: 0 <= i < |memmap| && memmap[i] != 0 ==> HeadOrTail(live, i))
  }

  ghost predicate HeadOrTail(live: Live, i: nat) {
    exists s :: s in live && (i == s || i + 1 == s + live[s])
  }

  ghost predicate TableOk(memmap: seq<nat>, live: Live) {
    Disjoint(live, |memmap|) && Tagged(memmap, live)
  }

  /** No allocation reaches both above and not above an index: the scan never
      stands inside one. */
  ghost predicate Between(live: Live, i: int) {
    forall s :: s in live ==> i < s || s + live[s] - 1 <= i
  }

  /** The table with both tags of an allocation set. */
  function WithTags(memmap: seq<nat>, start: nat, count: nat, tag: nat): seq<nat>
    requires start < |memmap| && count >= 1 && start + count <= |memmap|
  {
    memmap[start := tag][start + count - 1 := tag]
  }

  /** At such an index, a zero entry is a free block, and any other entry is the
      last block of an allocation and shows its length. */
  lemma ScanSees(memmap: seq<nat>, live: Live, i: nat)
    requires TableOk(memmap, live) && i < |memmap| && Between(live, i)
    ensures memmap[i] == 0 ==> !Occupied(live, i) && Between(live, i - 1)
    ensures memmap[i] != 0 ==>
              && var s := i - memmap[i] + 1;
              && s in live && live[s] == memmap[i]
              && Between(live, s - 1) && forall j :: s <= j <= i ==> Occupied(live, j)
  {
    if memmap[i] == 0 {
      forall s | s in live
        ensures i < s || s + live[s] - 1 < i
      {
        assert memmap[s + live[s] - 1] == live[s];
      }
    } else {
      var s :| s in live && (i == s || i + 1 == s + live[s]);
      assert s + live[s] - 1 == i;
      assert memmap[i] == live[s];
      forall t | t in live
        ensures s - 1 < t || t + live[t] - 1 <= s - 1
      {
      }
      forall j | s <= j <= i
        ensures Occupied(live, j)
      {
      }
    }
  }

  /** The scan so far: no run of the wanted length starts above, the blocks just
      above are free, and above those is the end of the table or an allocation. */
  ghost predicate Scanned(live: Live, n: nat, offset: int, free: nat, want: nat) {
    && -1 <= offset && offset + free < n && free < want && Between(live, offset)
    && (forall o :: offset < o ==> !FreeRun(live, n, o, want))
    && (forall i :: offset < i <= offset + free ==> !Occupied(live, i))
    && (offset + free + 1 == n || Occupied(live, offset + free + 1))
  }

  lemma RunStopped(live: Live, n: nat, o: nat, want: nat, j: nat)
    requires o <= j < o + want && (j >= n || Occupied(live, j))
    ensures !FreeRun(live, n, o, want)
  {
  }

  lemma ScanStart(live: Live, n: nat, want: nat)
    requires Disjoint(live, n) && n > 0 && want > 0
    ensures Scanned(live, n, n - 1, 0, want)
  {
    forall o | n - 1 < o
      ensures !FreeRun(live, n, o, want)
    {
    }
  }

  /** One more free block: the run is long enough, or no run starts here. */
  lemma ScanFree(live: Live, n: nat, offset: nat, free: nat, want: nat)
    requires Scanned(live, n, offset, free, want) && !Occupied(live, offset) && Between(live, offset - 1)
    ensures free + 1 < want ==> Scanned(live, n, offset - 1, free + 1, want)
    ensures free + 1 == want ==> HighestRun(live, n, offset, want)
  {
    if free + 1 < want {
      RunStopped(live, n, offset, want, offset + free + 1);
    }
  }

  /** An allocation: the scan goes on below it. */
  lemma ScanTail(live: Live, n: nat, offset: nat, free: nat, want: nat, s: nat)
    requires Scanned(live, n, offset, free, want) && s <= offset
    requires Between(live, s - 1) && forall j :: s <= j <= offset ==> Occupied(live, j)
    ensures Scanned(live, n, s - 1, 0, want)
  {
    forall o | s - 1 < o
      ensures !FreeRun(live, n, o, want)
    {
      if o <= offset {
        RunStopped(live, n, o, want, o);
      }
    }
  }

  /** One entry of the table scanned. */
  lemma ScanEntry(memmap: seq<nat>, live: Live, i: nat, free: nat, want: nat)
    requires TableOk(memmap, live) && Scanned(live, |memmap|, i, free, want)
    ensures i < |memmap|
    ensures memmap[i] == 0 && free + 1 < want ==> Scanned(live, |memmap|, i - 1, free + 1, want)
    ensures memmap[i] == 0 && free + 1 == want ==> HighestRun(live, |memmap|, i, want)
    ensures memmap[i] != 0 ==> memmap[i] <= i + 1 && Scanned(live, |memmap|, i - memmap[i], 0, want)
  {
    ScanSees(memmap, live, i);
    if memmap[i] == 0 {
      ScanFree(live, |memmap|, i, free, want);
    } else {
      ScanTail(live, |memmap|, i, free, want, i - memmap[i] + 1);
    }
  }

  lemma ScanEnd(live: Live, n: nat, free: nat, want: nat)
    requires Scanned(live, n, -1, free, want)
    ensures NoRun(live, n, want)
  {
  }

  lemma NewIsDisjoint(n: nat, live: Live, start: nat, count: nat)
    requires Disjoint(live, n) && count >= 1 && FreeRun(live, n, start, count)
    ensures start !in live && Disjoint(live[start := count], n)
    ensures forall s :: s in live ==> s + live[s] <= start || start + count <= s
  {
    forall s | s in live
      ensures s + live[s] <= start || start + count <= s
    {
      assert !Occupied(live, start);
      assert start <= s < start + count ==> !Occupied(live, s);
    }
  }

  lemma TagsOfNew(memmap: seq<nat>, live: Live, start: nat, count: nat)
    requires TableOk(memmap, live) && count >= 1 && FreeRun(live, |memmap|, start, count)
    ensures Tagged(WithTags(memmap, start, count, count), live[start := count])
  {
    var m, l := WithTags(memmap, start, count, count), live[start := count];
    NewIsDisjoint(|memmap|, live, start, count);
    forall s | s in l && s + l[s] <= |m| && l[s] >= 1
      ensures m[s] == l[s] && m[s + l[s] - 1] == l[s]
    {
    }
    forall i | 0 <= i < |m| && m[i] != 0
      ensures HeadOrTail(l, i)
    {
      if i != start && i != start + count - 1 {
        OldTag(live, start, count, i);
      }
    }
  }

  lemma OldTag(live: Live, start: nat, count: nat, i: nat)
    requires start !in live && HeadOrTail(live, i)
    ensures HeadOrTail(live[start := count], i)
  {
    var s :| s in live && (i == s || i + 1 == s + live[s]);
    assert s in live[start := count];
  }

  /** The tags of a new allocation in a free run. */
  lemma MallocKeepsValid(memmap: seq<nat>, live: Live, start: nat, count: nat)
    requires TableOk(memmap, live) && count >= 1 && FreeRun(live, |memmap|, start, count)
    ensures start !in live && TableOk(WithTags(memmap, start, count, count), live[start := count])
    ensures memmap[start] == 0 && memmap[start + count - 1] == 0
  {
    NewIsDisjoint(|memmap|, live, start, count);
    TagsOfNew(memmap, live, start, count);
    NotTagged(memmap, live, start, count);
  }

  lemma NotTagged(memmap: seq<nat>, live: Live, start: nat, count: nat)
    requires TableOk(memmap, live) && count >= 1 && FreeRun(live, |memmap|, start, count)
    ensures memmap[start] == 0 && memmap[start + count - 1] == 0
  {
    forall i | start <= i < start + count
      ensures memmap[i] == 0
    {
      assert !Occupied(live, i);
      assert !HeadOrTail(live, i);
    }
  }

  lemma FreeKeepsValid(memmap: seq<nat>, live: Live, start: nat)
    requires TableOk(memmap, live) && start in live
    ensures start + live[start] <= |memmap| && live[start] >= 1
    ensures TableOk(WithTags(memmap, start, live[start], 0), live - {start})
  {
    FreeKeepsTags(memmap, live, start);
  }

  lemma FreeKeepsTags(memmap: seq<nat>, live: Live, start: nat)
    requires TableOk(memmap, live) && start in live
    ensures start + live[start] <= |memmap| && live[start] >= 1
    ensures Tagged(WithTags(memmap, start, live[start], 0), live - {start})
  {
    var m, l := WithTags(memmap, start, live[start], 0), live - {start};
    forall i | 0 <= i < |m| && m[i] != 0
      ensures HeadOrTail(l, i)
    {
      OtherTag(memmap, live, start, i);
    }
    forall s | s in l
      ensures s + l[s] <= |m| && l[s] >= 1 && m[s] == l[s] && m[s + l[s] - 1] == l[s]
    {
      OtherTagsStay(memmap, live, start, s);
    }
  }

  lemma OtherTag(memmap: seq<nat>, live: Live, start: nat, i: nat)
    requires TableOk(memmap, live) && start in live && i < |memmap| && memmap[i] != 0
    requires i != start && i + 1 != start + live[start]
    ensures HeadOrTail(live - {start}, i)
  {
    var s :| s in live && (i == s || i + 1 == s + live[s]);
    assert s in live - {start};
  }

  lemma OtherTagsStay(memmap: seq<nat>, live: Live, start: nat, s: nat)
    requires TableOk(memmap, live) && start in live && s in live && s != start
    requires start + live[start] <= |memmap| && live[start] >= 1
    ensures s + live[s] <= |memmap| && live[s] >= 1
    ensures var m := WithTags(memmap, start, live[start], 0); m[s] == live[s] && m[s + live[s] - 1] == live[s]
  {
    assert if s < start then s + live[s] <= start else start + live[start] <= s;
  }

  /** Freeing what has just been allocated restores the table. */
  lemma FreeUndoesMalloc(memmap: seq<nat>, live: Live, start: nat, count: nat)
    requires TableOk(memmap, live) && count >= 1 && FreeRun(live, |memmap|, start, count)
    ensures WithTags(WithTags(memmap, start, count, count), start, count, 0) == memmap
    ensures live[start := count] - {start} == live
  {
    MallocKeepsValid(memmap, live, start, count);
    TagsUndone(memmap, start, count, count);
  }

  lemma TagsUndone(memmap: seq<nat>, start: nat, count: nat, tag: nat)
    requires start < |memmap| && count >= 1 && start + count <= |memmap|
    requires memmap[start] == 0 && memmap[start + count - 1] == 0
    ensures WithTags(WithTags(memmap, start, count, tag), start, count, 0) == memmap
  {
  }

  /** Blocks for a size in bytes: ceil(size / BLOCK_SIZE). */
  function Blocks(size: nat): nat {
    size / BLOCK_SIZE + if size % BLOCK_SIZE != 0 then 1 else 0
  }

  lemma BlocksSuffice(size: nat)
    requires size > 0
    ensures Blocks(size) >= 1 && (Blocks(size) - 1) * BLOCK_SIZE < size <= Blocks(size) * BLOCK_SIZE
  {
  }

  /** What a successful allocation makes of the table and the live allocations. */
  ghost predicate Allocated(memmap: seq<nat>, live: Live, memmap': seq<nat>, live': Live, start: nat, count: nat) {
    && count >= 1 && HighestRun(live, |memmap|, start, count)
    && live' == live[start := count] && memmap' == WithTags(memmap, start, count, count)
  }

  class Heap {
    const memmap: array<nat>         // 16-bit entries
    const memsize: nat
    var line: nat                    // _ioheap_line, relative to membase
    ghost var live: Live

    ghost predicate Valid()
      reads `line, `live, memmap
    {
      && 1 <= memmap.Length <= 65535 && memmap.Length == memsize / BLOCK_SIZE
      && TableOk(memmap[..], live) && AboveLine(line, live)
    }

    /** iomem_init; the table has between 1 and 65535 entries. */
    constructor (memsize: nat)
      requires 1 <= memsize / BLOCK_SIZE <= 65535
      ensures Valid() && live == map[] && fresh(memmap) && this.memsize == memsize && line == memsize
    {
      this.memsize := memsize;
      memmap := new nat[memsize / BLOCK_SIZE](_ => 0);
      line := memsize;
      live := map[];
    }

    /** The scan of k_malloc. */
    method FindRun(xmemb: nat) returns (found: bool, i: int)
      requires TableOk(memmap[..], live) && memmap.Length >= 1 && xmemb >= 1
      ensures if found then i >= 0 && HighestRun(live, memmap.Length, i, xmemb)
              else NoRun(live, memmap.Length, xmemb)
    {
      var kmemb: nat := 0;
      i := memmap.Length - 1;
      ScanStart(live, memmap.Length, xmemb);
      while i >= 0
        invariant Scanned(live, memmap.Length, i, kmemb, xmemb)
        decreases i
      {
        ScanEntry(memmap[..], live, i, kmemb, xmemb);
        if memmap[i] == 0 {
          kmemb := kmemb + 1;
        } else {
          i := i - memmap[i] + 1;
          kmemb := 0;
        }
        if kmemb == xmemb {
          return true, i;
        }
        i := i - 1;
      }
      ScanEnd(live, memmap.Length, kmemb, xmemb);
      return false, -1;
    }

    method CountBlocks(size: nat) returns (xmemb: nat)
      ensures xmemb == Blocks(size) && (size > 0 ==> xmemb >= 1)
    {
      xmemb := size / BLOCK_SIZE;
      if size % BLOCK_SIZE != 0 {
        xmemb := xmemb + 1;
      }
    }

    /** The two entries of a run that both k_malloc and k_free write. */
    method PutTags(start: nat, count: nat, tag: nat)
      requires start < memmap.Length && count >= 1 && start + count <= memmap.Length
      modifies memmap
      ensures memmap[..] == WithTags(old(memmap[..]), start, count, tag)
    {
      memmap[start] := tag;
      memmap[start + count - 1] := tag;
    }

    /** k_malloc: the highest free run of as many blocks as the size needs, or
        failure just when there is none.  Size zero fails as well. */
    method KMalloc(size: nat) returns (offset: nat)
      requires Valid()
      modifies this`live, memmap
      ensures TableOk(memmap[..], live)
      ensures offset == OUT_OF_MEMORY <==> size == 0 || NoRun(old(live), memmap.Length, Blocks(size))
      ensures offset == OUT_OF_MEMORY ==> unchanged(`live, memmap)
      ensures offset != OUT_OF_MEMORY ==>
                && offset % BLOCK_SIZE == 0
                && Allocated(old(memmap[..]), old(live), memmap[..], live, offset / BLOCK_SIZE, Blocks(size))
    {
      if size == 0 {
        return OUT_OF_MEMORY;
      }
      var xmemb := CountBlocks(size);
      var found, i := FindRun(xmemb);
      if !found {
        return OUT_OF_MEMORY;
      }
      TagRun(i, xmemb);
      offset := i * BLOCK_SIZE;
    }

    method TagRun(start: nat, count: nat)
      requires TableOk(memmap[..], live) && count >= 1 && HighestRun(live, memmap.Length, start, count)
      modifies this`live, memmap
      ensures TableOk(memmap[..], live)
      ensures Allocated(old(memmap[..]), old(live), memmap[..], live, start, count)
    {
      MallocKeepsValid(memmap[..], live, start, count);
      PutTags(start, count, count);
      live := live[start := count];
    }

    /** k_free, for a live allocation. */
    method KFree(offset: nat) returns (status: nat)
      requires Valid() && (offset < memsize ==> offset / BLOCK_SIZE in live && offset % BLOCK_SIZE == 0)
      modifies this`live, this`line, memmap
      ensures Valid() && status == if offset < memsize then 0 else 2
      ensures offset >= memsize ==> unchanged(`live, `line, memmap)
      ensures offset < memsize ==>
                && var start := offset / BLOCK_SIZE;
                && live == old(live) - {start}
                && start + old(live)[start] <= memmap.Length && old(live)[start] >= 1
                && memmap[..] == WithTags(old(memmap[..]), start, old(live)[start], 0)
                && line == old(line) + if offset == old(line) then old(live)[start] * BLOCK_SIZE else 0
    {
      if offset < memsize {
        var index := offset / BLOCK_SIZE;
        var nmemb := memmap[index];
        FreeKeepsValid(memmap[..], live, index);
        LineAfterFree(line, live, index, memmap.Length);
        PutTags(index, nmemb, 0);
        if line == offset {
          line := line + nmemb * BLOCK_SIZE;
        }
        live := live - {index};
        status := 0;
      } else {
        status := 2;
      }
    }

    /** iomem_malloc, without the warning about the cached heap. */
    method Malloc(size: nat) returns (offset: nat)
      requires Valid()
      modifies this`live, this`line, memmap
      ensures Valid()
      ensures offset == OUT_OF_MEMORY <==> size == 0 || NoRun(old(live), memmap.Length, Blocks(size))
      ensures offset == OUT_OF_MEMORY ==> unchanged(`live, `line, memmap)
      ensures offset != OUT_OF_MEMORY ==>
                && offset % BLOCK_SIZE == 0
                && Allocated(old(memmap[..]), old(live), memmap[..], live, offset / BLOCK_SIZE, Blocks(size))
                && line == if offset < old(line) then offset else old(line)
    {
      offset := KMalloc(size);
      if offset != OUT_OF_MEMORY {
        if line > offset {
          line := offset;
        }
      }
    }
  }

  /** The lowest allocation may go: those that remain start behind it. */
  lemma LineAfterFree(line: nat, live: Live, start: nat, n: nat)
    requires Disjoint(live, n) && AboveLine(line, live) && start in live
    ensures AboveLine(line + if start * BLOCK_SIZE == line then live[start] * BLOCK_SIZE else 0, live - {start})
  {
    forall s | s in live && s != start
      ensures start * BLOCK_SIZE == line ==> line + live[start] * BLOCK_SIZE <= s * BLOCK_SIZE
    {
      assert line <= s * BLOCK_SIZE;
    }
  }

  /** No allocation starts below the line. */
  ghost predicate AboveLine(line: nat, live: Live) {
    forall s :: s in live ==> line <= s * BLOCK_SIZE
  }
}
