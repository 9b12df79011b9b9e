/**
 * The allocation engine as functions of the allocator state: what
 * merge_block, split_block, malloc, free and realloc do to the blocks and the
 * free list, with the lemmas that they keep the allocator's invariant.
 */
module Engine {
  import opened Codec
  import opened Layout
  import opened FreeList

  /** The state after an operation and the pointer it returns. */
  datatype Outcome = Outcome(state: HeapView, ptr: int)

  /** merge_block absorbs the block into its free left neighbour. */
  predicate LeftAbsorbs(s: HeapView, i: nat)
    requires i < |s.layout|
  {
    i > 0 && s.layout[i - 1].isFree && s.layout[i - 1].size >= s.layout[i].size * MERGE_FACTOR
  }

  /** merge_block absorbs the free right neighbour into the block. */
  predicate RightAbsorbed(s: HeapView, i: nat)
    requires i < |s.layout|
  {
    i + 1 < |s.layout| && s.layout[i + 1].isFree && s.layout[i + 1].size >= s.layout[i].size * MERGE_FACTOR
  }

  /** merge_block on the block at index `i`. */
  function MergeOutcome(s: HeapView, i: nat): HeapView
    requires i < |s.layout|
  {
    var b := s.layout[i];
    if LeftAbsorbs(s, i) then
      var l := s.layout[i - 1];
      s.(layout := s.layout[..i - 1] + [l.(size := l.size + b.size + OVERHEAD)] + s.layout[i + 1..])
    else if RightAbsorbed(s, i) then
      var r := s.layout[i + 1];
      s.(layout := s.layout[..i] + [Block(b.addr, b.size + r.size + OVERHEAD, true)] + s.layout[i + 2..],
         freeList := [b.addr] + Unlink(s.freeList, r.addr))
    else
      s.(layout := s.layout[i := b.(isFree := true)], freeList := [b.addr] + s.freeList)
  }

  /**
   * The first half of split_block: the block keeps `trim` bytes and a new
   * block, whose header flag reads `flag`, takes the rest.
   */
  function Carve(s: HeapView, i: nat, trim: int, flag: bool): HeapView
    requires i < |s.layout|
  {
    s.(layout := s.layout[..i] + CarvePair(s.layout[i], trim, flag) + s.layout[i + 1..])
  }

  /** The two blocks split_block leaves in place of `b`. */
  function CarvePair(b: Block, trim: int, flag: bool): seq<Block>
  {
    [b.(size := trim), Block(b.addr + OVERHEAD + trim, b.size - (trim + OVERHEAD), flag)]
  }

  /** split_block: carve, then release the remainder. */
  function SplitOutcome(s: HeapView, i: nat, trim: int): HeapView
    requires i < |s.layout|
  {
    if trim == 0 then s else MergeOutcome(Carve(s, i, trim, false), i + 1)
  }

  /** The payload at `ptr` belongs to a block that is in use. */
  predicate Allocated(s: HeapView, ptr: int)
  {
    var j := IndexOf(s.layout, ptr - METADATA_SIZE);
    j < |s.layout| && !s.layout[j].isFree
  }

  /** Every block of `s` in use (other than `ex`) is still a block of `t`, unchanged. */
  ghost predicate Keeps(s: HeapView, t: HeapView, ex: int)
  {
    forall j :: 0 <= j < |s.layout| && !s.layout[j].isFree && s.layout[j].addr != ex ==> s.layout[j] in t.layout
  }

  /** The bytes [lo, hi) lie inside one free block of `t`. */
  ghost predicate ReleasedInto(t: HeapView, lo: int, hi: int)
  {
    exists k :: 0 <= k < |t.layout| && t.layout[k].isFree && t.layout[k].addr <= lo && hi <= End(t.layout[k])
  }

  /** Addresses of distinct blocks differ, and no header sits at NULL. */
  lemma Distinct(s: HeapView, j: int, k: int)
    requires WellFormed(s, NULL) || (s.start != NULL && 0 < s.start <= s.top && Tiled(s.layout, s.start, s.top))
    requires 0 <= j < |s.layout| && 0 <= k < |s.layout|
    ensures s.layout[j].addr > NULL
    ensures j != k ==> s.layout[j].addr != s.layout[k].addr
  {
    Within(s.layout, s.start, s.top, j);
    if j != k {
      Apart(s.layout, s.start, s.top, j, k);
    }
  }

  /** A header address of a tiling is not NULL. */
  lemma NonNull(s: HeapView, x: int)
    requires Shaped(s) && x in Addrs(s.layout)
    ensures x != NULL
  {
    InAddrs(s.layout, x);
    Within(s.layout, s.start, s.top, IndexOf(s.layout, x));
  }

  /** Absorbing a block into its left neighbour keeps every other header address. */
  lemma LeftAddr(s: HeapView, i: nat, x: int)
    requires i < |s.layout| && LeftAbsorbs(s, i) && x in Addrs(s.layout) && x != s.layout[i].addr
    ensures x in Addrs(MergeOutcome(s, i).layout)
  {
    var b, l := s.layout[i], s.layout[i - 1];
    var t := MergeOutcome(s, i);
    assert t.layout == s.layout[..i - 1] + [l.(size := l.size + b.size + OVERHEAD)] + s.layout[i + 1..];
    InAddrs(s.layout, x);
    var m := IndexOf(s.layout, x);
    var m' := if m < i then m else m - 1;
    assert t.layout[m'].addr == x;
  }

  /** Absorbing the right neighbour keeps every header address but the neighbour's. */
  lemma RightAddr(s: HeapView, i: nat, x: int)
    requires i < |s.layout| && !LeftAbsorbs(s, i) && RightAbsorbed(s, i)
    requires x in Addrs(s.layout) && x != s.layout[i].addr && x != s.layout[i + 1].addr
    ensures x in Addrs(MergeOutcome(s, i).layout)
  {
    var b, r := s.layout[i], s.layout[i + 1];
    var t := MergeOutcome(s, i);
    assert t.layout == s.layout[..i] + [Block(b.addr, b.size + r.size + OVERHEAD, true)] + s.layout[i + 2..];
    InAddrs(s.layout, x);
    var m := IndexOf(s.layout, x);
    assert m != i && m != i + 1;
    if m < i {
      assert t.layout[m] == s.layout[m];
    } else {
      assert t.layout[m - 1] == s.layout[m];
    }
  }

  /** Marking the block free keeps every header address. */
  lemma AloneAddr(s: HeapView, i: nat, x: int)
    requires i < |s.layout| && !LeftAbsorbs(s, i) && !RightAbsorbed(s, i) && x in Addrs(s.layout)
    ensures x in Addrs(MergeOutcome(s, i).layout)
  {
    var t := MergeOutcome(s, i);
    InAddrs(s.layout, x);
    var m := IndexOf(s.layout, x);
    assert t.layout[m].addr == x;
    assert Addrs(t.layout)[m] == x;
  }

  lemma MergeLeft(s: HeapView, i: nat)
    requires i < |s.layout| && WellFormed(s, s.layout[i].addr) && LeftAbsorbs(s, i)
    ensures WellFormed(MergeOutcome(s, i), NULL)
  {
    var b, l := s.layout[i], s.layout[i - 1];
    var t := MergeOutcome(s, i);
    assert t.layout == s.layout[..i - 1] + [l.(size := l.size + b.size + OVERHEAD)] + s.layout[i + 1..];
    assert End(l) == b.addr;
    Splice(s.layout, s.start, s.top, i - 1, i + 1, [l.(size := l.size + b.size + OVERHEAD)]);
    MergeLeftListed(s, i);
    MergeLeftFlagged(s, i);
  }

  lemma MergeLeftListed(s: HeapView, i: nat)
    requires i < |s.layout| && WellFormed(s, s.layout[i].addr) && LeftAbsorbs(s, i)
    ensures Listed(MergeOutcome(s, i), NULL)
  {
    var b, l := s.layout[i], s.layout[i - 1];
    var t := MergeOutcome(s, i);
    assert t.layout == s.layout[..i - 1] + [l.(size := l.size + b.size + OVERHEAD)] + s.layout[i + 1..];
    forall k | 0 <= k < |t.freeList|
      ensures t.freeList[k] in Addrs(t.layout) && t.freeList[k] != NULL
    {
      var x := s.freeList[k];
      assert x != b.addr;
      LeftAddr(s, i, x);
      NonNull(s, x);
    }
  }

  lemma MergeLeftFlagged(s: HeapView, i: nat)
    requires i < |s.layout| && WellFormed(s, s.layout[i].addr) && LeftAbsorbs(s, i)
    ensures Flagged(MergeOutcome(s, i), NULL)
  {
    var b, l := s.layout[i], s.layout[i - 1];
    var t := MergeOutcome(s, i);
    assert t.layout == s.layout[..i - 1] + [l.(size := l.size + b.size + OVERHEAD)] + s.layout[i + 1..];
    forall j | 0 <= j < |t.layout|
      ensures t.layout[j].isFree <==> t.layout[j].addr in t.freeList
    {
      var m := if j < i then j else j + 1;
      Distinct(s, m, i);
      assert t.layout[j].addr == s.layout[m].addr && t.layout[j].isFree == s.layout[m].isFree;
    }
  }

  lemma MergeRight(s: HeapView, i: nat)
    requires i < |s.layout| && WellFormed(s, s.layout[i].addr) && !LeftAbsorbs(s, i) && RightAbsorbed(s, i)
    ensures WellFormed(MergeOutcome(s, i), NULL)
  {
    var b, r := s.layout[i], s.layout[i + 1];
    var b2 := Block(b.addr, b.size + r.size + OVERHEAD, true);
    var t := MergeOutcome(s, i);
    assert t.layout == s.layout[..i] + [b2] + s.layout[i + 2..];
    assert End(b) == r.addr;
    Splice(s.layout, s.start, s.top, i, i + 2, [b2]);
    MergeRightListed(s, i);
    MergeRightFlagged(s, i);
  }

  lemma MergeRightListed(s: HeapView, i: nat)
    requires i < |s.layout| && WellFormed(s, s.layout[i].addr) && !LeftAbsorbs(s, i) && RightAbsorbed(s, i)
    ensures Listed(MergeOutcome(s, i), NULL)
  {
    var b, r := s.layout[i], s.layout[i + 1];
    var t := MergeOutcome(s, i);
    var rest := Unlink(s.freeList, r.addr);
    assert t.layout == s.layout[..i] + [Block(b.addr, b.size + r.size + OVERHEAD, true)] + s.layout[i + 2..];
    assert t.freeList == [b.addr] + rest;
    assert b.addr !in s.freeList;
    forall k | 0 <= k < |t.freeList|
      ensures t.freeList[k] in Addrs(t.layout) && t.freeList[k] != NULL
    {
      if k == 0 {
        assert t.layout[i].addr == b.addr;
        Distinct(s, i, i);
      } else {
        var x := t.freeList[k];
        assert x in rest && x in s.freeList && x != r.addr && x != b.addr;
        RightAddr(s, i, x);
        NonNull(s, x);
      }
    }
  }

  lemma MergeRightFlagged(s: HeapView, i: nat)
    requires i < |s.layout| && WellFormed(s, s.layout[i].addr) && !LeftAbsorbs(s, i) && RightAbsorbed(s, i)
    ensures Flagged(MergeOutcome(s, i), NULL)
  {
    var b, r := s.layout[i], s.layout[i + 1];
    var t := MergeOutcome(s, i);
    assert t.layout == s.layout[..i] + [Block(b.addr, b.size + r.size + OVERHEAD, true)] + s.layout[i + 2..];
    forall j | 0 <= j < |t.layout|
      ensures t.layout[j].isFree <==> t.layout[j].addr in t.freeList
    {
      if j != i {
        var m := if j < i then j else j + 1;
        Distinct(s, m, i);
        Distinct(s, m, i + 1);
        assert t.layout[j] == s.layout[m];
      }
    }
  }

  lemma MergeAlone(s: HeapView, i: nat)
    requires i < |s.layout| && WellFormed(s, s.layout[i].addr) && !LeftAbsorbs(s, i) && !RightAbsorbed(s, i)
    ensures WellFormed(MergeOutcome(s, i), NULL)
  {
    var t := MergeOutcome(s, i);
    Retagged(s.layout, t.layout, s.start, s.top);
    MergeAloneListed(s, i);
    MergeAloneFlagged(s, i);
  }

  lemma MergeAloneListed(s: HeapView, i: nat)
    requires i < |s.layout| && WellFormed(s, s.layout[i].addr) && !LeftAbsorbs(s, i) && !RightAbsorbed(s, i)
    ensures Listed(MergeOutcome(s, i), NULL)
  {
    var b := s.layout[i];
    var t := MergeOutcome(s, i);
    assert t.layout == s.layout[i := b.(isFree := true)] && t.freeList == [b.addr] + s.freeList;
    assert b.addr !in s.freeList;
    Distinct(s, i, i);
    forall k | 0 <= k < |t.freeList|
      ensures t.freeList[k] in Addrs(t.layout) && t.freeList[k] != NULL
    {
      if k == 0 {
        assert Addrs(t.layout)[i] == b.addr;
      } else {
        var x := s.freeList[k - 1];
        AloneAddr(s, i, x);
        NonNull(s, x);
      }
    }
  }

  lemma MergeAloneFlagged(s: HeapView, i: nat)
    requires i < |s.layout| && WellFormed(s, s.layout[i].addr) && !LeftAbsorbs(s, i) && !RightAbsorbed(s, i)
    ensures Flagged(MergeOutcome(s, i), NULL)
  {
    var b := s.layout[i];
    var t := MergeOutcome(s, i);
    assert t.layout == s.layout[i := b.(isFree := true)] && t.freeList == [b.addr] + s.freeList;
    forall j | 0 <= j < |t.layout|
      ensures t.layout[j].isFree <==> t.layout[j].addr in t.freeList
    {
      if j != i {
        Distinct(s, j, i);
      }
    }
  }

  /** merge_block keeps every other block in use. */
  lemma MergeKeeps(s: HeapView, i: nat)
    requires i < |s.layout|
    ensures Keeps(s, MergeOutcome(s, i), s.layout[i].addr)
  {
    if LeftAbsorbs(s, i) {
      MergeKeepsLeft(s, i);
    } else if RightAbsorbed(s, i) {
      MergeKeepsRight(s, i);
    } else {
      var t := MergeOutcome(s, i);
      forall j | 0 <= j < |s.layout| && !s.layout[j].isFree && s.layout[j].addr != s.layout[i].addr
        ensures s.layout[j] in t.layout
      {
        assert t.layout[j] == s.layout[j];
      }
    }
  }

  lemma MergeKeepsLeft(s: HeapView, i: nat)
    requires i < |s.layout| && LeftAbsorbs(s, i)
    ensures Keeps(s, MergeOutcome(s, i), s.layout[i].addr)
  {
    var b, l := s.layout[i], s.layout[i - 1];
    var t := MergeOutcome(s, i);
    assert t.layout == s.layout[..i - 1] + [l.(size := l.size + b.size + OVERHEAD)] + s.layout[i + 1..];
    forall j | 0 <= j < |s.layout| && !s.layout[j].isFree && s.layout[j].addr != b.addr
      ensures s.layout[j] in t.layout
    {
      assert t.layout[if j < i then j else j - 1] == s.layout[j];
    }
  }

  lemma MergeKeepsRight(s: HeapView, i: nat)
    requires i < |s.layout| && !LeftAbsorbs(s, i) && RightAbsorbed(s, i)
    ensures Keeps(s, MergeOutcome(s, i), s.layout[i].addr)
  {
    var b, r := s.layout[i], s.layout[i + 1];
    var t := MergeOutcome(s, i);
    assert t.layout == s.layout[..i] + [Block(b.addr, b.size + r.size + OVERHEAD, true)] + s.layout[i + 2..];
    forall j | 0 <= j < |s.layout| && !s.layout[j].isFree && s.layout[j].addr != b.addr
      ensures s.layout[j] in t.layout
    {
      assert j != i && j != i + 1;
      assert t.layout[if j < i then j else j - 1] == s.layout[j];
    }
  }

  /** After merge_block the released block's bytes lie inside one free block. */
  lemma MergeReleases(s: HeapView, i: nat)
    requires i < |s.layout| && Shaped(s)
    ensures ReleasedInto(MergeOutcome(s, i), s.layout[i].addr, End(s.layout[i]))
  {
    var b := s.layout[i];
    var t := MergeOutcome(s, i);
    if LeftAbsorbs(s, i) {
      var l := s.layout[i - 1];
      assert t.layout == s.layout[..i - 1] + [l.(size := l.size + b.size + OVERHEAD)] + s.layout[i + 1..];
      assert t.layout[i - 1] == l.(size := l.size + b.size + OVERHEAD);
      assert End(l) == b.addr;
    } else if RightAbsorbed(s, i) {
      var r := s.layout[i + 1];
      assert t.layout == s.layout[..i] + [Block(b.addr, b.size + r.size + OVERHEAD, true)] + s.layout[i + 2..];
      assert t.layout[i] == Block(b.addr, b.size + r.size + OVERHEAD, true);
    } else {
      assert t.layout[i] == b.(isFree := true);
    }
  }

  /**
   * merge_block on a block that is not on the free list: the invariant holds
   * again, the heap's extent is the same, every other block in use is kept,
   * and the block's bytes end up inside a free block.
   */
  lemma MergeSpec(s: HeapView, i: nat)
    requires i < |s.layout| && WellFormed(s, s.layout[i].addr)
    ensures WellFormed(MergeOutcome(s, i), NULL)
    ensures MergeOutcome(s, i).start == s.start && MergeOutcome(s, i).top == s.top
    ensures Keeps(s, MergeOutcome(s, i), s.layout[i].addr)
    ensures ReleasedInto(MergeOutcome(s, i), s.layout[i].addr, End(s.layout[i]))
  {
    if LeftAbsorbs(s, i) {
      MergeLeft(s, i);
    } else if RightAbsorbed(s, i) {
      MergeRight(s, i);
    } else {
      MergeAlone(s, i);
    }
    MergeKeeps(s, i);
    MergeReleases(s, i);
  }

  /**
   * The three outcomes of merge_block: absorbed into the left neighbour (the
   * free list is untouched), absorbing the right neighbour (which leaves the
   * list, the block taking the head), or pushed on the list alone.
   */
  lemma MergeCases(s: HeapView, i: nat)
    requires i < |s.layout| && WellFormed(s, s.layout[i].addr)
    ensures LeftAbsorbs(s, i) ==>
      |MergeOutcome(s, i).layout| == |s.layout| - 1 && MergeOutcome(s, i).freeList == s.freeList
    ensures !LeftAbsorbs(s, i) && RightAbsorbed(s, i) ==>
      |MergeOutcome(s, i).layout| == |s.layout| - 1 && |MergeOutcome(s, i).freeList| == |s.freeList|
      && MergeOutcome(s, i).freeList[0] == s.layout[i].addr && s.layout[i + 1].addr !in MergeOutcome(s, i).freeList
    ensures !LeftAbsorbs(s, i) && !RightAbsorbed(s, i) ==>
      |MergeOutcome(s, i).layout| == |s.layout| && MergeOutcome(s, i).freeList == [s.layout[i].addr] + s.freeList
  {
    if !LeftAbsorbs(s, i) && RightAbsorbed(s, i) {
      var r := s.layout[i + 1];
      Distinct(s, i, i + 1);
      assert r.addr in s.freeList;
      assert s.layout[i].addr !in s.freeList;
    }
  }

  /** merge_block never reads the released block's own free flag. */
  lemma MergeIgnoresFlag(s: HeapView, i: nat, f: bool)
    requires i < |s.layout|
    ensures MergeOutcome(s.(layout := s.layout[i := s.layout[i].(isFree := f)]), i) == MergeOutcome(s, i)
  {
    var s' := s.(layout := s.layout[i := s.layout[i].(isFree := f)]);
    assert s'.layout[..i] == s.layout[..i];
    assert s'.layout[i + 1..] == s.layout[i + 1..];
    if i > 0 {
      assert s'.layout[..i - 1] == s.layout[..i - 1];
    }
    if i + 1 < |s.layout| {
      assert s'.layout[i + 2..] == s.layout[i + 2..];
    }
  }

  /** What split_block needs: a block in use with room for `trim` bytes and a remainder. */
  ghost predicate Splittable(s: HeapView, i: nat, trim: int)
  {
    && WellFormed(s, NULL) && i < |s.layout| && !s.layout[i].isFree
    && 0 < trim && trim + OVERHEAD < s.layout[i].size
  }

  lemma CarveShaped(s: HeapView, i: nat, trim: int, flag: bool)
    requires Splittable(s, i, trim)
    ensures Shaped(Carve(s, i, trim, flag))
  {
    var b := s.layout[i];
    var mid := [b.(size := trim), Block(b.addr + OVERHEAD + trim, b.size - (trim + OVERHEAD), flag)];
    assert Tiled(mid, b.addr, End(b));
    Splice(s.layout, s.start, s.top, i, i + 1, mid);
    assert Carve(s, i, trim, flag).layout == s.layout[..i] + mid + s.layout[i + 1..];
  }

  lemma CarveListed(s: HeapView, i: nat, trim: int, flag: bool)
    requires Splittable(s, i, trim)
    ensures Listed(Carve(s, i, trim, flag), Carve(s, i, trim, flag).layout[i + 1].addr)
  {
    var b := s.layout[i];
    var c := Carve(s, i, trim, flag);
    Distinct(s, i, i);
    assert b.addr !in s.freeList;
    forall k | 0 <= k < |c.freeList|
      ensures c.freeList[k] in Addrs(c.layout) && c.freeList[k] != c.layout[i + 1].addr
    {
      CarveAddr(s, i, trim, flag, s.freeList[k]);
    }
  }

  /** Carving a block keeps the other blocks' addresses, none of them the remainder's. */
  lemma CarveAddr(s: HeapView, i: nat, trim: int, flag: bool, x: int)
    requires Shaped(s) && i < |s.layout| && 0 < trim && trim + OVERHEAD < s.layout[i].size
    requires x in Addrs(s.layout) && x != s.layout[i].addr
    ensures x in Addrs(Carve(s, i, trim, flag).layout) && x != Carve(s, i, trim, flag).layout[i + 1].addr
  {
    var c := Carve(s, i, trim, flag);
    InAddrs(s.layout, x);
    var m := IndexOf(s.layout, x);
    Apart(s.layout, s.start, s.top, m, i);
    var m' := if m < i then m else m + 1;
    assert c.layout[m'].addr == x;
  }

  lemma CarveFlagged(s: HeapView, i: nat, trim: int, flag: bool)
    requires Splittable(s, i, trim)
    ensures Flagged(Carve(s, i, trim, flag), Carve(s, i, trim, flag).layout[i + 1].addr)
  {
    var b := s.layout[i];
    var c := Carve(s, i, trim, flag);
    var mid := [b.(size := trim), Block(b.addr + OVERHEAD + trim, b.size - (trim + OVERHEAD), flag)];
    assert c.layout == s.layout[..i] + mid + s.layout[i + 1..];
    Distinct(s, i, i);
    assert b.addr !in s.freeList;
    forall j | 0 <= j < |c.layout| && c.layout[j].addr != c.layout[i + 1].addr
      ensures c.layout[j].isFree <==> c.layout[j].addr in c.freeList
    {
      if j == i {
        assert c.layout[j] == b.(size := trim);
      } else {
        var m := if j < i then j else j - 1;
        assert c.layout[j] == s.layout[m];
        Distinct(s, m, m);
      }
    }
  }

  /**
   * The first half of split_block leaves the invariant intact except for the
   * remainder, which is not on the free list yet and whose flag is stale.
   */
  lemma CarveSpec(s: HeapView, i: nat, trim: int, flag: bool)
    requires Splittable(s, i, trim)
    ensures WellFormed(Carve(s, i, trim, flag), Carve(s, i, trim, flag).layout[i + 1].addr)
    ensures Keeps(s, Carve(s, i, trim, flag), s.layout[i].addr)
  {
    CarveShaped(s, i, trim, flag);
    CarveListed(s, i, trim, flag);
    CarveFlagged(s, i, trim, flag);
    var b := s.layout[i];
    var c := Carve(s, i, trim, flag);
    var mid := [b.(size := trim), Block(b.addr + OVERHEAD + trim, b.size - (trim + OVERHEAD), flag)];
    assert c.layout == s.layout[..i] + mid + s.layout[i + 1..];
    forall j | 0 <= j < |s.layout| && !s.layout[j].isFree && s.layout[j].addr != b.addr
      ensures s.layout[j] in c.layout
    {
      assert c.layout[if j < i then j else j + 1] == s.layout[j];
    }
  }

  /**
   * split_block: the block keeps exactly `trim` bytes and stays in use, the
   * rest of its bytes become free, every other block in use is kept, and the
   * blocks still account for the whole heap.
   */
  lemma SplitSpec(s: HeapView, i: nat, trim: int)
    requires Splittable(s, i, trim)
    ensures WellFormed(SplitOutcome(s, i, trim), NULL)
    ensures SplitOutcome(s, i, trim).start == s.start && SplitOutcome(s, i, trim).top == s.top
    ensures i < |SplitOutcome(s, i, trim).layout|
    ensures SplitOutcome(s, i, trim).layout[i] == Block(s.layout[i].addr, trim, false)
    ensures ReleasedInto(SplitOutcome(s, i, trim), s.layout[i].addr + OVERHEAD + trim, End(s.layout[i]))
    ensures Keeps(s, SplitOutcome(s, i, trim), s.layout[i].addr)
    ensures Footprint(SplitOutcome(s, i, trim).layout) == Footprint(s.layout)
  {
    var c := Carve(s, i, trim, false);
    var t := SplitOutcome(s, i, trim);
    SplitShape(s, i, trim);
    CarveShaped(s, i, trim, false);
    MergeReleases(c, i + 1);
    SplitKeeps(s, i, trim);
    TiledFootprint(s.layout, s.start, s.top);
    TiledFootprint(t.layout, t.start, t.top);
  }

  /** split_block keeps the invariant and leaves the block in use with `trim` bytes. */
  lemma SplitShape(s: HeapView, i: nat, trim: int)
    requires Splittable(s, i, trim)
    ensures WellFormed(SplitOutcome(s, i, trim), NULL)
    ensures SplitOutcome(s, i, trim).start == s.start && SplitOutcome(s, i, trim).top == s.top
    ensures i < |SplitOutcome(s, i, trim).layout|
    ensures SplitOutcome(s, i, trim).layout[i] == Block(s.layout[i].addr, trim, false)
  {
    var c := Carve(s, i, trim, false);
    var t := SplitOutcome(s, i, trim);
    CarveSpec(s, i, trim, false);
    MergeSpec(c, i + 1);
    assert !LeftAbsorbs(c, i + 1);
    if RightAbsorbed(c, i + 1) {
      assert t.layout[i] == c.layout[i];
    }
  }

  /** split_block keeps every other block in use. */
  lemma SplitKeeps(s: HeapView, i: nat, trim: int)
    requires Shaped(s) && i < |s.layout| && 0 < trim && trim + OVERHEAD < s.layout[i].size
    ensures Keeps(s, SplitOutcome(s, i, trim), s.layout[i].addr)
  {
    var b := s.layout[i];
    var c := Carve(s, i, trim, false);
    var t := SplitOutcome(s, i, trim);
    MergeKeeps(c, i + 1);
    forall j | 0 <= j < |s.layout| && !s.layout[j].isFree && s.layout[j].addr != b.addr
      ensures s.layout[j] in t.layout
    {
      var m := if j < i then j else j + 1;
      assert c.layout[m] == s.layout[j];
      Apart(s.layout, s.start, s.top, j, i);
    }
  }

  /** malloc records the program break as the heap start on its first call. */
  function Capture(s: HeapView): (s0: HeapView)
    ensures s0.start != NULL || s.top == NULL
    ensures s.start != NULL ==> s0 == s
  {
    if s.start == NULL then s.(start := s.top) else s
  }

  lemma CaptureSpec(s: HeapView)
    requires WellFormed(s, NULL)
    ensures WellFormed(Capture(s), NULL) && Capture(s).start != NULL
  {
  }

  /** malloc's reuse of free block `j`: marked used and unlinked from the free list. */
  function Take(s: HeapView, j: nat): HeapView
    requires j < |s.layout|
  {
    s.(layout := s.layout[j := s.layout[j].(isFree := false)], freeList := Unlink(s.freeList, s.layout[j].addr))
  }

  lemma TakeSpec(s: HeapView, j: nat)
    requires WellFormed(s, NULL) && j < |s.layout| && s.layout[j].isFree
    ensures WellFormed(Take(s, j), NULL)
    ensures Keeps(s, Take(s, j), NULL)
    ensures s.layout[j].addr !in Take(s, j).freeList
  {
    var t := Take(s, j);
    var a := s.layout[j].addr;
    Retagged(s.layout, t.layout, s.start, s.top);
    forall k | 0 <= k < |t.freeList|
      ensures t.freeList[k] in Addrs(t.layout) && t.freeList[k] != NULL
    {
      var x := t.freeList[k];
      assert x in s.freeList;
      InAddrs(s.layout, x);
      var m := IndexOf(s.layout, x);
      Distinct(s, m, m);
      assert Addrs(t.layout)[m] == x;
    }
    forall m | 0 <= m < |t.layout|
      ensures t.layout[m].isFree <==> t.layout[m].addr in t.freeList
    {
      Distinct(s, m, j);
    }
    forall m | 0 <= m < |s.layout| && !s.layout[m].isFree
      ensures s.layout[m] in t.layout
    {
      assert t.layout[m] == s.layout[m];
    }
  }

  /**
   * malloc's path that reuses free block `j` for a rounded request `r`:
   * take it off the list, mark it used, and split it when it is at least
   * SPLIT_FACTOR times the request.
   */
  function Reuse(s: HeapView, j: nat, r: int): HeapView
    requires j < |s.layout|
  {
    var s1 := Take(s, j);
    if s.layout[j].size >= r * SPLIT_FACTOR then SplitOutcome(s1, j, r) else s1
  }

  /** The block malloc chooses: the first on the free list that fits. */
  function Chosen(s: HeapView, r: int): (k: nat)
    ensures k <= |s.freeList|
  {
    FirstFit(ListSizes(s), r)
  }

  /** A free list entry is the header of a block, and headers are not NULL. */
  lemma OnList(s: HeapView, k: int)
    requires WellFormed(s, NULL) && 0 <= k < |s.freeList|
    ensures IndexOf(s.layout, s.freeList[k]) < |s.layout| && s.freeList[k] > NULL
  {
    InAddrs(s.layout, s.freeList[k]);
    Distinct(s, IndexOf(s.layout, s.freeList[k]), 0);
  }

  /** The outcome of malloc(request); `grows` says whether sbrk grants the memory. */
  function MallocOutcome(s: HeapView, request: nat, grows: bool): Outcome
    requires WellFormed(s, NULL) && request <= MAX_MALLOC
  {
    if request == 0 then Outcome(s, NULL)
    else
      var s0 := Capture(s);
      var r := RoundUpTo(request, METADATA_SIZE);
      var k := Chosen(s0, r);
      if k < |s0.freeList| then
        var a := s0.freeList[k];
        OnList(s0, k);
        Outcome(Reuse(s0, IndexOf(s0.layout, a), r), BlockAddress(a))
      else if grows then
        Outcome(Grown(s0, r), BlockAddress(s0.top))
      else
        Outcome(s0, NULL)
  }

  /**
   * Reusing a free block: the invariant holds, the block is in use with its
   * old size or, when it was split, exactly `r` bytes with the rest free,
   * and every block in use before is kept.
   */
  lemma ReuseSpec(s: HeapView, j: nat, r: int)
    requires WellFormed(s, NULL) && j < |s.layout| && s.layout[j].isFree && r > 0
    ensures WellFormed(Reuse(s, j, r), NULL)
    ensures Reuse(s, j, r).start == s.start && Reuse(s, j, r).top == s.top
    ensures Keeps(s, Reuse(s, j, r), NULL)
    ensures j < |Reuse(s, j, r).layout|
    ensures Reuse(s, j, r).layout[j] ==
      Block(s.layout[j].addr, if s.layout[j].size >= r * SPLIT_FACTOR then r else s.layout[j].size, false)
    ensures s.layout[j].size >= r * SPLIT_FACTOR ==>
      ReleasedInto(Reuse(s, j, r), s.layout[j].addr + OVERHEAD + r, End(s.layout[j]))
  {
    var s1 := Take(s, j);
    TakeSpec(s, j);
    if s.layout[j].size >= r * SPLIT_FACTOR {
      SplitSpec(s1, j, r);
      var t := Reuse(s, j, r);
      forall m | 0 <= m < |s.layout| && !s.layout[m].isFree
        ensures s.layout[m] in t.layout
      {
        assert s1.layout[m] == s.layout[m];
        Distinct(s, m, j);
      }
    }
  }

  /** The rounded request is a positive multiple of the header width. */
  lemma RoundedPositive(request: nat)
    requires 0 < request <= MAX_MALLOC
    ensures RoundUpTo(request, METADATA_SIZE) >= METADATA_SIZE
    ensures RoundUpTo(request, METADATA_SIZE) * SPLIT_FACTOR < SIZE_T_LIMIT
  {
  }

  /** No block in use has its header at `a`. */
  ghost predicate NotInUse(s: HeapView, a: int)
  {
    forall j :: 0 <= j < |s.layout| && !s.layout[j].isFree ==> s.layout[j].addr != a
  }

  /** The block malloc appends when no free block fits. */
  function Grown(s: HeapView, r: int): HeapView
  {
    s.(top := s.top + OVERHEAD + r, layout := s.layout + [Block(s.top, r, false)])
  }

  /** Growing the heap by one block in use keeps the invariant and every block. */
  lemma GrownSpec(s: HeapView, r: int)
    requires WellFormed(s, NULL) && s.start != NULL && r > 0
    ensures WellFormed(Grown(s, r), NULL)
    ensures Keeps(s, Grown(s, r), NULL) && NotInUse(s, s.top)
    ensures Allocated(Grown(s, r), BlockAddress(s.top)) && SizeAt(Grown(s, r).layout, s.top) == r
  {
    var t := Grown(s, r);
    var nb := Block(s.top, r, false);
    Append(s.layout, s.start, s.top, nb);
    assert t.layout == s.layout + [nb];
    forall m | 0 <= m < |s.layout|
      ensures t.layout[m] == s.layout[m] && s.layout[m].addr < s.top
    {
      Within(s.layout, s.start, s.top, m);
    }
    GrownListed(s, r);
    assert s.top !in t.freeList;
    forall m | 0 <= m < |s.layout| && !s.layout[m].isFree
      ensures s.layout[m] in t.layout
    {
      assert t.layout[m] == s.layout[m];
    }
    IndexOfTiled(t.layout, t.start, t.top, |s.layout|);
  }

  /** Every free list entry is still the header of a block after growth. */
  lemma GrownListed(s: HeapView, r: int)
    requires WellFormed(s, NULL) && s.start != NULL && r > 0
    ensures forall q :: 0 <= q < |s.freeList| ==> s.freeList[q] in Addrs(Grown(s, r).layout) && s.freeList[q] != NULL
  {
    var t := Grown(s, r);
    forall q | 0 <= q < |s.freeList|
      ensures s.freeList[q] in Addrs(t.layout) && s.freeList[q] != NULL
    {
      OnList(s, q);
      assert Addrs(t.layout)[IndexOf(s.layout, s.freeList[q])] == s.freeList[q];
    }
  }

  /** The state malloc's reuse path leaves, for the free list entry `k` and rounded request `r`. */
  lemma MallocIsReuse(s: HeapView, request: nat, grows: bool)
    requires WellFormed(s, NULL) && 0 < request <= MAX_MALLOC
    requires Chosen(Capture(s), RoundUpTo(request, METADATA_SIZE)) < |s.freeList|
    ensures var k := Chosen(s, RoundUpTo(request, METADATA_SIZE));
      && s.start != NULL && IndexOf(s.layout, s.freeList[k]) < |s.layout| && s.freeList[k] > NULL
      && MallocOutcome(s, request, grows) ==
         Outcome(Reuse(s, IndexOf(s.layout, s.freeList[k]), RoundUpTo(request, METADATA_SIZE)), BlockAddress(s.freeList[k]))
  {
    OnList(s, Chosen(s, RoundUpTo(request, METADATA_SIZE)));
  }

  /** malloc's reuse path: with a fitting free block, its payload is returned. */
  lemma MallocHit(s: HeapView, request: nat, grows: bool)
    requires WellFormed(s, NULL) && 0 < request <= MAX_MALLOC
    requires Chosen(Capture(s), RoundUpTo(request, METADATA_SIZE)) < |s.freeList|
    ensures WellFormed(MallocOutcome(s, request, grows).state, NULL)
    ensures Keeps(s, MallocOutcome(s, request, grows).state, NULL)
    ensures var o := MallocOutcome(s, request, grows);
      && o.ptr == BlockAddress(s.freeList[Chosen(s, RoundUpTo(request, METADATA_SIZE))])
      && o.state.top == s.top && o.state.start == s.start
      && Allocated(o.state, o.ptr)
      && SizeAt(o.state.layout, BlockMetadata(o.ptr)) >= RoundUpTo(request, METADATA_SIZE)
      && NotInUse(s, BlockMetadata(o.ptr))
  {
    var r := RoundUpTo(request, METADATA_SIZE);
    RoundedPositive(request);
    var k := Chosen(s, r);
    MallocIsReuse(s, request, grows);
    var a := s.freeList[k];
    var j := IndexOf(s.layout, a);
    var t := Reuse(s, j, r);
    ReuseSpec(s, j, r);
    IndexOfTiled(t.layout, t.start, t.top, j);
    assert SizeAt(s.layout, a) == s.layout[j].size;
    forall m | 0 <= m < |s.layout| && !s.layout[m].isFree
      ensures s.layout[m].addr != a
    {
      Distinct(s, m, j);
    }
    assert BlockMetadata(BlockAddress(a)) == a;
  }

  /** malloc's growth path: no free block fits. */
  lemma MallocMiss(s: HeapView, request: nat, grows: bool)
    requires WellFormed(s, NULL) && 0 < request <= MAX_MALLOC
    requires Chosen(Capture(s), RoundUpTo(request, METADATA_SIZE)) == |s.freeList|
    ensures grows ==>
      MallocOutcome(s, request, grows) == Outcome(Grown(Capture(s), RoundUpTo(request, METADATA_SIZE)), BlockAddress(s.top))
    ensures !grows ==> MallocOutcome(s, request, grows) == Outcome(Capture(s), NULL)
    ensures WellFormed(MallocOutcome(s, request, grows).state, NULL)
    ensures Keeps(s, MallocOutcome(s, request, grows).state, NULL)
    ensures grows ==>
      && NotInUse(s, s.top)
      && Allocated(MallocOutcome(s, request, grows).state, BlockAddress(s.top))
      && SizeAt(MallocOutcome(s, request, grows).state.layout, s.top) == RoundUpTo(request, METADATA_SIZE)
  {
    RoundedPositive(request);
    CaptureSpec(s);
    if grows {
      GrownSpec(Capture(s), RoundUpTo(request, METADATA_SIZE));
    }
  }

  /**
   * malloc: malloc(0) changes nothing and returns NULL; otherwise the heap
   * start is recorded, the invariant holds, every block in use is kept, and
   * a pointer that is not NULL is the payload of a block in use, of at least
   * the requested size, that was not in use before.
   */
  lemma MallocSpec(s: HeapView, request: nat, grows: bool)
    requires WellFormed(s, NULL) && request <= MAX_MALLOC
    ensures request == 0 ==> MallocOutcome(s, request, grows) == Outcome(s, NULL)
    ensures request > 0 ==> MallocOutcome(s, request, grows).state.start == Capture(s).start
    ensures WellFormed(MallocOutcome(s, request, grows).state, NULL)
    ensures Keeps(s, MallocOutcome(s, request, grows).state, NULL)
    ensures request > 0 && MallocOutcome(s, request, grows).ptr == NULL ==>
      MallocOutcome(s, request, grows).state == Capture(s)
    ensures MallocOutcome(s, request, grows).ptr != NULL ==>
      var o := MallocOutcome(s, request, grows);
      && Allocated(o.state, o.ptr)
      && SizeAt(o.state.layout, BlockMetadata(o.ptr)) >= request
      && NotInUse(s, BlockMetadata(o.ptr))
  {
    if request > 0 {
      RoundedPositive(request);
      if Chosen(Capture(s), RoundUpTo(request, METADATA_SIZE)) < |s.freeList| {
        MallocHit(s, request, grows);
      } else {
        MallocMiss(s, request, grows);
      }
    }
  }

  /** A block in use may be exempted: it is not on the free list. */
  lemma Exempt(s: HeapView, i: nat)
    requires WellFormed(s, NULL) && i < |s.layout| && !s.layout[i].isFree
    ensures WellFormed(s, s.layout[i].addr)
  {
    Distinct(s, i, i);
    assert s.layout[i].addr !in s.freeList;
    forall j | 0 <= j < |s.layout|
      ensures s.layout[j].addr != NULL
    {
      Distinct(s, j, j);
    }
  }

  /** A block in use that another state keeps is still allocated there, with the same size. */
  lemma KeptAllocated(s: HeapView, t: HeapView, ex: int, ptr: int)
    requires WellFormed(s, NULL) && WellFormed(t, NULL) && Keeps(s, t, ex)
    requires Allocated(s, ptr) && ptr - METADATA_SIZE != ex
    ensures Allocated(t, ptr) && SizeAt(t.layout, ptr - METADATA_SIZE) == SizeAt(s.layout, ptr - METADATA_SIZE)
  {
    var j := IndexOf(s.layout, ptr - METADATA_SIZE);
    assert s.layout[j] in t.layout;
    var q :| 0 <= q < |t.layout| && t.layout[q] == s.layout[j];
    IndexOfTiled(t.layout, t.start, t.top, q);
  }

  /** malloc leaves an allocated block allocated, with its size. */
  lemma MallocKeepsAllocated(s: HeapView, request: nat, grows: bool, ptr: int)
    requires WellFormed(s, NULL) && request <= MAX_MALLOC && Allocated(s, ptr)
    ensures Allocated(MallocOutcome(s, request, grows).state, ptr)
    ensures SizeAt(MallocOutcome(s, request, grows).state.layout, ptr - METADATA_SIZE) == SizeAt(s.layout, ptr - METADATA_SIZE)
  {
    var t := MallocOutcome(s, request, grows).state;
    MallocSpec(s, request, grows);
    Distinct(s, IndexOf(s.layout, ptr - METADATA_SIZE), 0);
    KeptAllocated(s, t, NULL, ptr);
  }

  /** The outcome of free(ptr). */
  function FreeOutcome(s: HeapView, ptr: nat): HeapView
    requires ptr == NULL || Allocated(s, ptr)
  {
    if ptr == NULL then s else MergeOutcome(s, IndexOf(s.layout, BlockMetadata(ptr)))
  }

  /**
   * free: free(NULL) changes nothing; otherwise the invariant holds, the
   * heap's extent is the same, every other block in use is kept, the
   * pointer is no longer allocated and its block's bytes are free.
   */
  lemma FreeSpec(s: HeapView, ptr: nat)
    requires WellFormed(s, NULL) && (ptr == NULL || Allocated(s, ptr))
    ensures ptr == NULL ==> FreeOutcome(s, ptr) == s
    ensures WellFormed(FreeOutcome(s, ptr), NULL)
    ensures FreeOutcome(s, ptr).start == s.start && FreeOutcome(s, ptr).top == s.top
    ensures ptr != NULL ==>
      && Keeps(s, FreeOutcome(s, ptr), BlockMetadata(ptr))
      && !Allocated(FreeOutcome(s, ptr), ptr)
      && ReleasedInto(FreeOutcome(s, ptr), BlockMetadata(ptr), End(s.layout[IndexOf(s.layout, BlockMetadata(ptr))]))
  {
    if ptr != NULL {
      var i := IndexOf(s.layout, BlockMetadata(ptr));
      var b := s.layout[i];
      Exempt(s, i);
      MergeSpec(s, i);
      var t := FreeOutcome(s, ptr);
      var m := IndexOf(t.layout, b.addr);
      if m < |t.layout| {
        var k :| 0 <= k < |t.layout| && t.layout[k].isFree && t.layout[k].addr <= b.addr && End(b) <= End(t.layout[k]);
        SameOwner(t.layout, t.start, t.top, m, k, b.addr);
      }
    }
  }

  /** The outcome of realloc(ptr, size). */
  function ReallocOutcome(s: HeapView, ptr: nat, size: nat, grows: bool): Outcome
    requires WellFormed(s, NULL) && (ptr == NULL || Allocated(s, ptr)) && size <= MAX_MALLOC
  {
    if ptr == NULL then MallocOutcome(s, size, grows)
    else if size == 0 then Outcome(FreeOutcome(s, ptr), NULL)
    else if SizeAt(s.layout, BlockMetadata(ptr)) >= size then Outcome(s, ptr)
    else
      var m := MallocOutcome(s, size, grows);
      if m.ptr == NULL then Outcome(m.state, NULL)
      else
        MallocKeepsAllocated(s, size, grows, ptr);
        Outcome(FreeOutcome(m.state, ptr), m.ptr)
  }

  /** realloc that moves the block: the new block is allocated and the old one is not. */
  lemma ReallocMoves(s: HeapView, ptr: nat, size: nat, grows: bool)
    requires WellFormed(s, NULL) && Allocated(s, ptr) && 0 < size <= MAX_MALLOC
    requires SizeAt(s.layout, BlockMetadata(ptr)) < size && MallocOutcome(s, size, grows).ptr != NULL
    ensures var o := ReallocOutcome(s, ptr, size, grows);
      && o.ptr == MallocOutcome(s, size, grows).ptr
      && WellFormed(o.state, NULL)
      && Allocated(o.state, o.ptr) && SizeAt(o.state.layout, BlockMetadata(o.ptr)) >= size
      && !Allocated(o.state, ptr) && o.ptr != ptr
  {
    var m := MallocOutcome(s, size, grows);
    MallocSpec(s, size, grows);
    MallocKeepsAllocated(s, size, grows, ptr);
    ReallocMovesTo(s, ptr, size, grows);
    var j := IndexOf(s.layout, ptr - METADATA_SIZE);
    Distinct(s, j, j);
    assert BlockMetadata(m.ptr) != BlockMetadata(ptr);
    FreeSpec(m.state, ptr);
    FreeKeepsOther(m.state, ptr, m.ptr);
  }

  /** realloc that moves the block frees the old block in the state malloc leaves. */
  lemma ReallocMovesTo(s: HeapView, ptr: nat, size: nat, grows: bool)
    requires WellFormed(s, NULL) && Allocated(s, ptr) && 0 < size <= MAX_MALLOC
    requires SizeAt(s.layout, BlockMetadata(ptr)) < size && MallocOutcome(s, size, grows).ptr != NULL
    ensures ptr != NULL && Allocated(MallocOutcome(s, size, grows).state, ptr)
    ensures ReallocOutcome(s, ptr, size, grows) ==
      Outcome(FreeOutcome(MallocOutcome(s, size, grows).state, ptr), MallocOutcome(s, size, grows).ptr)
  {
    Distinct(s, IndexOf(s.layout, ptr - METADATA_SIZE), 0);
    MallocKeepsAllocated(s, size, grows, ptr);
  }

  /** free keeps every other allocated block allocated, with its size. */
  lemma FreeKeepsOther(s: HeapView, ptr: nat, q: int)
    requires WellFormed(s, NULL) && Allocated(s, ptr) && Allocated(s, q) && q != ptr
    ensures Allocated(FreeOutcome(s, ptr), q)
    ensures SizeAt(FreeOutcome(s, ptr).layout, q - METADATA_SIZE) == SizeAt(s.layout, q - METADATA_SIZE)
  {
    Distinct(s, IndexOf(s.layout, ptr - METADATA_SIZE), 0);
    FreeSpec(s, ptr);
    KeptAllocated(s, FreeOutcome(s, ptr), BlockMetadata(ptr), q);
  }

  /**
   * realloc's four cases: a NULL pointer behaves as malloc; size 0 frees and
   * returns NULL; a block already large enough is returned unchanged;
   * otherwise a new block is allocated, the old one freed, and when malloc
   * fails NULL is returned and nothing changes.
   */
  lemma ReallocSpec(s: HeapView, ptr: nat, size: nat, grows: bool)
    requires WellFormed(s, NULL) && (ptr == NULL || Allocated(s, ptr)) && size <= MAX_MALLOC
    ensures ptr == NULL ==> ReallocOutcome(s, ptr, size, grows) == MallocOutcome(s, size, grows)
    ensures ptr != NULL && size == 0 ==> ReallocOutcome(s, ptr, size, grows) == Outcome(FreeOutcome(s, ptr), NULL)
    ensures ptr != NULL && 0 < size <= SizeAt(s.layout, BlockMetadata(ptr)) ==>
      ReallocOutcome(s, ptr, size, grows) == Outcome(s, ptr)
    ensures ptr != NULL && size > 0 && ReallocOutcome(s, ptr, size, grows).ptr == NULL ==>
      ReallocOutcome(s, ptr, size, grows).state == s
    ensures WellFormed(ReallocOutcome(s, ptr, size, grows).state, NULL)
    ensures var o := ReallocOutcome(s, ptr, size, grows);
      o.ptr != NULL ==> Allocated(o.state, o.ptr) && SizeAt(o.state.layout, BlockMetadata(o.ptr)) >= size
    ensures var o := ReallocOutcome(s, ptr, size, grows);
      ptr != NULL && o.ptr != NULL && o.ptr != ptr ==> !Allocated(o.state, ptr)
  {
    var o := ReallocOutcome(s, ptr, size, grows);
    if ptr == NULL {
      MallocSpec(s, size, grows);
    } else if size == 0 {
      FreeSpec(s, ptr);
    } else if SizeAt(s.layout, BlockMetadata(ptr)) >= size {
    } else {
      MallocSpec(s, size, grows);
      var idx := IndexOf(s.layout, ptr - METADATA_SIZE);
      assert s.start != NULL by {
        assert idx < |s.layout|;
      }
      if MallocOutcome(s, size, grows).ptr != NULL {
        ReallocMoves(s, ptr, size, grows);
      }
    }
  }

  /**
   * From a fresh heap whose break is at `brk`: two 10-byte requests grow the
   * heap by one 16-byte block each; after the first is freed it is the only
   * free block, and a third 10-byte request reuses it without growing the
   * heap, even when sbrk would refuse.
   */
  lemma ReuseAfterFree(brk: nat)
    requires brk > 0
    ensures WellFormed(HeapView(NULL, brk, [], []), NULL)
    ensures MallocOutcome(HeapView(NULL, brk, [], []), 10, true) ==
      Outcome(HeapView(brk, brk + 36, [Block(brk, 16, false)], []), brk + 16)
    ensures WellFormed(HeapView(brk, brk + 36, [Block(brk, 16, false)], []), NULL)
    ensures MallocOutcome(HeapView(brk, brk + 36, [Block(brk, 16, false)], []), 10, true) ==
      Outcome(HeapView(brk, brk + 72, [Block(brk, 16, false), Block(brk + 36, 16, false)], []), brk + 52)
    ensures Allocated(HeapView(brk, brk + 72, [Block(brk, 16, false), Block(brk + 36, 16, false)], []), brk + 16)
    ensures FreeOutcome(HeapView(brk, brk + 72, [Block(brk, 16, false), Block(brk + 36, 16, false)], []), brk + 16) ==
      HeapView(brk, brk + 72, [Block(brk, 16, true), Block(brk + 36, 16, false)], [brk])
    ensures WellFormed(HeapView(brk, brk + 72, [Block(brk, 16, true), Block(brk + 36, 16, false)], [brk]), NULL)
    ensures MallocOutcome(HeapView(brk, brk + 72, [Block(brk, 16, true), Block(brk + 36, 16, false)], [brk]), 10, false) ==
      Outcome(HeapView(brk, brk + 72, [Block(brk, 16, false), Block(brk + 36, 16, false)], []), brk + 16)
  {
    GrowTwice(brk);
    FreeFirst(brk);
    ReuseFirst(brk);
  }

  /** Two 10-byte requests on a fresh heap each append a 16-byte block. */
  lemma GrowTwice(brk: nat)
    requires brk > 0
    ensures WellFormed(HeapView(NULL, brk, [], []), NULL)
    ensures MallocOutcome(HeapView(NULL, brk, [], []), 10, true) ==
      Outcome(HeapView(brk, brk + 36, [Block(brk, 16, false)], []), brk + 16)
    ensures WellFormed(HeapView(brk, brk + 36, [Block(brk, 16, false)], []), NULL)
    ensures MallocOutcome(HeapView(brk, brk + 36, [Block(brk, 16, false)], []), 10, true) ==
      Outcome(HeapView(brk, brk + 72, [Block(brk, 16, false), Block(brk + 36, 16, false)], []), brk + 52)
  {
    assert RoundUpTo(10, METADATA_SIZE) == 16;
  }

  /** Freeing the first of two blocks in use makes it the only free block. */
  lemma FreeFirst(brk: nat)
    requires brk > 0
    ensures Allocated(HeapView(brk, brk + 72, [Block(brk, 16, false), Block(brk + 36, 16, false)], []), brk + 16)
    ensures FreeOutcome(HeapView(brk, brk + 72, [Block(brk, 16, false), Block(brk + 36, 16, false)], []), brk + 16) ==
      HeapView(brk, brk + 72, [Block(brk, 16, true), Block(brk + 36, 16, false)], [brk])
    ensures WellFormed(HeapView(brk, brk + 72, [Block(brk, 16, true), Block(brk + 36, 16, false)], [brk]), NULL)
  {
    var s2 := HeapView(brk, brk + 72, [Block(brk, 16, false), Block(brk + 36, 16, false)], []);
    var s3 := HeapView(brk, brk + 72, [Block(brk, 16, true), Block(brk + 36, 16, false)], [brk]);
    assert Tiled(s2.layout, brk, brk + 72);
    assert IndexOf(s2.layout, brk) == 0;
    assert s2.layout[0 := s2.layout[0].(isFree := true)] == s3.layout;
    assert Addrs(s3.layout)[0] == brk;
  }

  /** A 10-byte request reuses the freed 16-byte block, even when sbrk would refuse. */
  lemma ReuseFirst(brk: nat)
    requires brk > 0
    ensures WellFormed(HeapView(brk, brk + 72, [Block(brk, 16, true), Block(brk + 36, 16, false)], [brk]), NULL) &&
      MallocOutcome(HeapView(brk, brk + 72, [Block(brk, 16, true), Block(brk + 36, 16, false)], [brk]), 10, false) ==
      Outcome(HeapView(brk, brk + 72, [Block(brk, 16, false), Block(brk + 36, 16, false)], []), brk + 16)
  {
    var s2 := HeapView(brk, brk + 72, [Block(brk, 16, false), Block(brk + 36, 16, false)], []);
    var s3 := HeapView(brk, brk + 72, [Block(brk, 16, true), Block(brk + 36, 16, false)], [brk]);
    assert RoundUpTo(10, METADATA_SIZE) == 16;
    FreeFirst(brk);
    assert ListSizes(s3) == [16];
    assert s3.layout[0 := s3.layout[0].(isFree := false)] == s2.layout;
  }

  /**
   * Coalescing: with two adjacent 16-byte blocks, freeing the second and
   * then the first merges them into one free block of 16 + 16 + OVERHEAD
   * bytes, which a 40-byte request (rounded to 48) then reuses whole.
   */
  lemma CoalesceThenReuse(brk: nat)
    requires brk > 0
    ensures Allocated(HeapView(brk, brk + 72, [Block(brk, 16, false), Block(brk + 36, 16, false)], []), brk + 52)
    ensures FreeOutcome(HeapView(brk, brk + 72, [Block(brk, 16, false), Block(brk + 36, 16, false)], []), brk + 52) ==
      HeapView(brk, brk + 72, [Block(brk, 16, false), Block(brk + 36, 16, true)], [brk + 36])
    ensures Allocated(HeapView(brk, brk + 72, [Block(brk, 16, false), Block(brk + 36, 16, true)], [brk + 36]), brk + 16)
    ensures FreeOutcome(HeapView(brk, brk + 72, [Block(brk, 16, false), Block(brk + 36, 16, true)], [brk + 36]), brk + 16) ==
      HeapView(brk, brk + 72, [Block(brk, 52, true)], [brk])
    ensures WellFormed(HeapView(brk, brk + 72, [Block(brk, 52, true)], [brk]), NULL)
    ensures MallocOutcome(HeapView(brk, brk + 72, [Block(brk, 52, true)], [brk]), 40, false) ==
      Outcome(HeapView(brk, brk + 72, [Block(brk, 52, false)], []), brk + 16)
  {
    var s2 := HeapView(brk, brk + 72, [Block(brk, 16, false), Block(brk + 36, 16, false)], []);
    var s3 := HeapView(brk, brk + 72, [Block(brk, 16, false), Block(brk + 36, 16, true)], [brk + 36]);
    var s4 := HeapView(brk, brk + 72, [Block(brk, 52, true)], [brk]);
    assert IndexOf(s2.layout, brk + 36) == 1;
    assert s2.layout[1 := s2.layout[1].(isFree := true)] == s3.layout;
    assert IndexOf(s3.layout, brk) == 0;
    assert s3.layout[..0] + [Block(brk, 52, true)] + s3.layout[2..] == s4.layout;
    assert Unlink([brk + 36], brk + 36) == [];
    assert Tiled(s4.layout, brk, brk + 72);
    assert Addrs(s4.layout)[0] == brk;
    assert RoundUpTo(40, METADATA_SIZE) == 48;
    assert ListSizes(s4) == [52];
    assert s4.layout[0 := s4.layout[0].(isFree := false)] == [Block(brk, 52, false)];
  }
}
