/**
 * memset and memcpy on the memory, as calloc and realloc call them, and
 * what the payloads of the blocks in use keep across malloc, the copy and
 * free.
 */
module Bulk {
  import opened Codec
  import opened Layout
  import opened Engine
  import opened Heap
  import opened Frames
  import opened Steps

  /** memset(dst, val, n): the `n` cells from `dst` read `val`, every other cell is unchanged. */
  function Fill(m: seq<int>, dst: int, n: nat, val: int): (m2: seq<int>)
    requires 0 <= dst && dst + n <= |m|
    ensures SameOutside(m, m2, dst, dst + n)
    ensures forall x :: dst <= x < dst + n ==> m2[x] == val
  {
    m[..dst] + seq(n, _ => val) + m[dst + n..]
  }

  /** memcpy(dst, src, n): the `n` cells from `dst` read what the `n` cells from `src` held. */
  function Copy(m: seq<int>, dst: int, src: int, n: nat): (m2: seq<int>)
    requires 0 <= dst && dst + n <= |m| && 0 <= src && src + n <= |m|
    ensures SameOutside(m, m2, dst, dst + n)
    ensures forall x :: dst <= x < dst + n ==> m2[x] == m[x - dst + src]
  {
    m[..dst] + m[src..src + n] + m[dst + n..]
  }

  /** The payload of the block with header `to` in `m2` begins with the payload of `b` in `m1`. */
  ghost predicate CopiedTo(m1: seq<int>, m2: seq<int>, b: Block, to: int)
  {
    Payload(m2, b.(addr := to)) == Payload(m1, b)
  }

  /**
   * Stores into the payload of a fresh block `a` after malloc keep every
   * block that was in use before malloc.
   */
  lemma KeptPast(s: HeapView, t: HeapView, a: int, m0: seq<int>, m1: seq<int>, m2: seq<int>)
    requires Keeps(s, t, NULL) && NotInUse(s, a)
    requires PayloadsKept(m0, m1, s.layout, NULL) && PayloadsKept(m1, m2, t.layout, a)
    ensures PayloadsKept(m0, m2, s.layout, NULL)
  {
    forall j | 0 <= j < |s.layout| && !s.layout[j].isFree && s.layout[j].addr != NULL
      ensures BlockKept(m0, m2, s.layout[j])
    {
      assert s.layout[j] in t.layout;
      var q :| 0 <= q < |t.layout| && t.layout[q] == s.layout[j];
      assert BlockKept(m1, m2, t.layout[q]);
    }
  }

  /**
   * ... and the later free of the block `ex` keeps every other block that
   * was in use before malloc.
   */
  lemma KeptMoved(s: HeapView, t: HeapView, a: int, ex: int, m0: seq<int>, m1: seq<int>, m2: seq<int>, m3: seq<int>)
    requires WellFormed(s, NULL) && Keeps(s, t, NULL) && NotInUse(s, a)
    requires PayloadsKept(m0, m1, s.layout, NULL) && PayloadsKept(m1, m2, t.layout, a)
    requires PayloadsKept(m2, m3, t.layout, ex)
    ensures PayloadsKept(m0, m3, s.layout, ex)
  {
    forall j | 0 <= j < |s.layout| && !s.layout[j].isFree && s.layout[j].addr != ex
      ensures BlockKept(m0, m3, s.layout[j])
    {
      Distinct(s, j, j);
      assert s.layout[j] in t.layout;
      var q :| 0 <= q < |t.layout| && t.layout[q] == s.layout[j];
      assert BlockKept(m1, m2, t.layout[q]) && BlockKept(m2, m3, t.layout[q]);
    }
  }

  /**
   * realloc's copy: the old block `b` is kept by malloc, its bytes are
   * copied to the front of the new block `nb`, and free keeps `nb`; the new
   * block then begins with the old block's bytes.
   */
  lemma Moved(b: Block, nb: Block, m0: seq<int>, m1: seq<int>, m2: seq<int>, m3: seq<int>, dst: int, src: int)
    requires 0 <= b.addr && 0 <= nb.addr && 0 <= b.size <= nb.size && FooterAt(b) <= |m1| && FooterAt(nb) <= |m2|
    requires BlockKept(m0, m1, b) && BlockKept(m2, m3, nb)
    requires dst == nb.addr + METADATA_SIZE && src == b.addr + METADATA_SIZE
    requires forall x :: dst <= x < dst + b.size ==> m2[x] == m1[x - dst + src]
    ensures CopiedTo(m0, m3, b, nb.addr)
  {
    var p3, p0 := Payload(m3, b.(addr := nb.addr)), Payload(m0, b);
    forall k | 0 <= k < b.size
      ensures p3[k] == p0[k]
    {
      var x, y := nb.addr + METADATA_SIZE + k, b.addr + METADATA_SIZE + k;
      KeptCell(m2, m3, nb, x);
      KeptCell(m0, m1, b, y);
      assert m2[x] == m1[y];
    }
  }

  /** The block behind an allocated pointer lies in the memory, and its header holds its size. */
  lemma AllocatedHeader(s: HeapView, m: seq<int>, ptr: int)
    requires Laid(s, m) && Allocated(s, ptr)
    ensures var j := IndexOf(s.layout, ptr - METADATA_SIZE);
      && 0 < ptr - METADATA_SIZE && FooterAt(s.layout[j]) < |m|
      && m[ptr - METADATA_SIZE + SIZE_FIELD] == s.layout[j].size == SizeAt(s.layout, ptr - METADATA_SIZE)
  {
    var j := IndexOf(s.layout, ptr - METADATA_SIZE);
    Sides(s, j);
    assert Stamp(m, s.layout[j]);
  }

  /**
   * The state after realloc's malloc found a new block: the old block and
   * the new one are distinct blocks in use of the new state, the new one is
   * larger, the old one kept its bytes, and freeing the old block is the
   * outcome of realloc.
   */
  lemma MoveSetup(s: HeapView, t: HeapView, m0: seq<int>, m1: seq<int>, ptr: nat, newptr: int, size: nat, grows: bool)
    requires WellFormed(s, NULL) && Allocated(s, ptr) && ptr != NULL && 0 < size <= MAX_MALLOC
    requires SizeAt(s.layout, BlockMetadata(ptr)) < size
    requires Outcome(t, newptr) == MallocOutcome(s, size, grows) && newptr != NULL
    requires Laid(t, m1) && PayloadsKept(m0, m1, s.layout, NULL)
    ensures var j, q := IndexOf(s.layout, BlockMetadata(ptr)), IndexOf(t.layout, newptr - METADATA_SIZE);
      && j < |s.layout| && q < |t.layout| && !t.layout[q].isFree
      && s.layout[j].addr == BlockMetadata(ptr) && t.layout[q].addr == newptr - METADATA_SIZE
      && 0 <= s.layout[j].addr && FooterAt(s.layout[j]) < |m1| && 0 <= s.layout[j].size < t.layout[q].size
      && 0 < t.layout[q].addr && FooterAt(t.layout[q]) < |m1| && s.layout[j].addr != t.layout[q].addr
      && BlockKept(m0, m1, s.layout[j])
    ensures WellFormed(t, NULL) && Allocated(t, ptr) && Keeps(s, t, NULL) && NotInUse(s, newptr - METADATA_SIZE)
    ensures ReallocOutcome(s, ptr, size, grows) == Outcome(FreeOutcome(t, ptr), newptr)
  {
    ReallocMovesTo(s, ptr, size, grows);
    MallocSpec(s, size, grows);
    MallocKeepsAllocated(s, size, grows, ptr);
    AllocatedHeader(t, m1, newptr);
    AllocatedHeader(t, m1, ptr);
    var j := IndexOf(s.layout, BlockMetadata(ptr));
    Distinct(s, j, j);
    Sides(s, j);
  }

  /**
   * ... and after the copy into the new block and the free of the old one,
   * the new block begins with the old block's bytes and every other block
   * that was in use is kept.
   */
  lemma MoveDone(s: HeapView, t: HeapView, m0: seq<int>, m1: seq<int>, m2: seq<int>, m3: seq<int>,
                 ptr: nat, newptr: int, oldSize: nat, size: nat, grows: bool)
    requires WellFormed(s, NULL) && Allocated(s, ptr) && ptr != NULL && 0 < size <= MAX_MALLOC
    requires oldSize == SizeAt(s.layout, BlockMetadata(ptr)) < size
    requires Outcome(t, newptr) == MallocOutcome(s, size, grows) && newptr != NULL
    requires Laid(t, m1) && PayloadsKept(m0, m1, s.layout, NULL)
    requires 0 <= newptr && newptr + oldSize <= |m1| && ptr + oldSize <= |m1| && m2 == Copy(m1, newptr, ptr, oldSize)
    requires PayloadsKept(m1, m2, t.layout, newptr - METADATA_SIZE) && PayloadsKept(m2, m3, t.layout, BlockMetadata(ptr))
    ensures PayloadsKept(m0, m3, s.layout, BlockMetadata(ptr))
    ensures CopiedTo(m0, m3, s.layout[IndexOf(s.layout, BlockMetadata(ptr))], newptr - METADATA_SIZE)
  {
    MoveSetup(s, t, m0, m1, ptr, newptr, size, grows);
    var j, q := IndexOf(s.layout, BlockMetadata(ptr)), IndexOf(t.layout, newptr - METADATA_SIZE);
    assert BlockKept(m2, m3, t.layout[q]);
    var b, nb := s.layout[j], t.layout[q];
    Moved(b, nb, m0, m1, m2, m3, newptr, ptr);
    KeptMoved(s, t, newptr - METADATA_SIZE, BlockMetadata(ptr), m0, m1, m2, m3);
  }
}
