/**
 * The branches of merge_block and split_block, each as the memory its stores
 * leave behind and the state `Engine` says it reaches: these are the facts
 * the methods of `Alloc` put together.
 */
module Steps {
  import opened Codec
  import opened Layout
  import opened FreeList
  import opened Engine
  import opened Heap
  import opened Frames

  /**
   * The memory and the head realise the state: the blocks tile the heap with
   * their headers and footers in place, and the list is threaded through the
   * link fields from `head`.
   */
  ghost predicate Bound(s: HeapView, m: seq<int>, head: int)
  {
    Laid(s, m) && ListOk(s) && Linked(m, head, s.freeList)
  }

  /** The header of block `i` and of the list head lie inside the memory. */
  lemma PushBounds(s: HeapView, m: seq<int>, head: int, i: nat)
    requires Bound(s, m, head) && i < |s.layout|
    ensures 0 < s.layout[i].addr && s.layout[i].addr + METADATA_SIZE <= |m|
    ensures head != NULL ==> 0 < head && head + METADATA_SIZE <= |m|
  {
    Sides(s, i);
    if head != NULL {
      ListBound(s, 0);
    }
  }

  /**
   * The tail of merge_block on block `i`, which is not on the list: the
   * memory `m2` its stores leave (flag set, pushed in front of `head`)
   * realises PushView, and no payload moves.
   */
  lemma Pushed(s: HeapView, m: seq<int>, head: int, i: nat, p: int, m2: seq<int>)
    requires Bound(s, m, head) && i < |s.layout| && p == s.layout[i].addr && p !in s.freeList
    requires 0 < p && p + METADATA_SIZE <= |m| && (head != NULL ==> 0 < head && head + METADATA_SIZE <= |m|)
    requires m2 == (if head != NULL then m[p + FLAG_FIELD := 1][p + NEXT_FIELD := head][head + PREV_FIELD := p]
                    else m[p + FLAG_FIELD := 1][p + NEXT_FIELD := head])
    ensures Bound(PushView(s, i), m2, p)
    ensures AllKept(m, m2, s.layout)
  {
    PushedLaid(s, m, head, i, p);
    PushedKept(s, m, head, i, p);
    PushedLinked(s, m, head, i, p);
  }

  /** The layout after blocks `k` and `k + 1` become one. */
  function Joint(v: seq<Block>, k: int): seq<Block>
    requires 0 <= k && k + 1 < |v|
  {
    v[..k] + [JoinBlock(v, k)] + v[k + 2..]
  }

  /** Joining two blocks by set_block_size keeps every link. */
  lemma JoinedLinks(s: HeapView, m: seq<int>, head: int, k: int)
    requires Shaped(s) && ListOk(s) && Linked(m, head, s.freeList) && |m| == s.top
    requires 0 <= k && k + 1 < |s.layout|
    ensures 0 < s.layout[k].addr && FooterAt(JoinBlock(s.layout, k)) < |m|
    ensures Linked(SizeStores(m, s.layout[k].addr, JoinBlock(s.layout, k).size), head, s.freeList)
  {
    var v := s.layout;
    Neighbours(v, s.start, s.top, k);
    Neighbours(v, s.start, s.top, k + 1);
    var a := v[k].addr;
    var ns := JoinBlock(v, k).size;
    MetaWriteLinks(s, m, head, k, a + SIZE_FIELD, ns);
    MetaWriteLinks(s, m[a := ns], head, k + 1, FooterAt(v[k + 1]), ns);
    assert SizeStores(m, a, ns) == m[a := ns][FooterAt(v[k + 1]) := ns];
  }

  /** ... and the payload of every block other than the two. */
  lemma JoinedKept(s: HeapView, m: seq<int>, k: int)
    requires Shaped(s) && |m| == s.top && 0 <= k && k + 1 < |s.layout|
    ensures 0 < s.layout[k].addr && FooterAt(JoinBlock(s.layout, k)) < |m|
    ensures forall j :: 0 <= j < |s.layout| && (j < k || k + 1 < j) ==>
      BlockKept(m, SizeStores(m, s.layout[k].addr, JoinBlock(s.layout, k).size), s.layout[j])
  {
    var v := s.layout;
    Neighbours(v, s.start, s.top, k);
    Neighbours(v, s.start, s.top, k + 1);
    var m2 := SizeStores(m, v[k].addr, JoinBlock(v, k).size);
    assert SameOutside(m, m2, v[k].addr, End(v[k + 1]));
    KeptOutside(m, m2, v, s.start, s.top, k, k + 2);
  }

  /** merge_block into the left neighbour: the outcome is the joint layout. */
  lemma LeftOutcome(s: HeapView, i: nat)
    requires i < |s.layout| && LeftAbsorbs(s, i)
    ensures MergeOutcome(s, i) == s.(layout := Joint(s.layout, i - 1))
  {
  }

  /** ... which changes no payload of a block in use other than the released one. */
  lemma LeftKept(s: HeapView, m: seq<int>, i: nat)
    requires Shaped(s) && |m| == s.top && i < |s.layout| && LeftAbsorbs(s, i)
    ensures 0 < s.layout[i - 1].addr && FooterAt(JoinBlock(s.layout, i - 1)) < |m|
    ensures PayloadsKept(m, SizeStores(m, s.layout[i - 1].addr, JoinBlock(s.layout, i - 1).size), s.layout, s.layout[i].addr)
  {
    JoinedKept(s, m, i - 1);
  }

  /**
   * merge_block absorbing the right neighbour, up to the push: the
   * neighbour has left the free list and the block spans both.
   */
  function RightJoint(s: HeapView, i: nat): (t: HeapView)
    requires i + 1 < |s.layout|
    ensures t.start == s.start && t.top == s.top
  {
    s.(layout := Joint(s.layout, i), freeList := Unlink(s.freeList, s.layout[i + 1].addr))
  }

  lemma RightOutcome(s: HeapView, i: nat)
    requires i < |s.layout| && !LeftAbsorbs(s, i) && RightAbsorbed(s, i)
    ensures i + 1 < |s.layout| && i < |RightJoint(s, i).layout|
    ensures MergeOutcome(s, i) == PushView(RightJoint(s, i), i)
  {
    var v := s.layout;
    var w := Joint(v, i);
    var b, r := v[i], v[i + 1];
    var nb := Block(b.addr, b.size + r.size + OVERHEAD, true);
    assert w[i := w[i].(isFree := true)] == v[..i] + [nb] + v[i + 2..];
  }

  /** The joined block is not on the list that is left, and that list is sound. */
  lemma RightListed(s: HeapView, i: nat)
    requires i < |s.layout| && WellFormed(s, s.layout[i].addr) && !LeftAbsorbs(s, i) && RightAbsorbed(s, i)
    ensures i + 1 < |s.layout| && i < |RightJoint(s, i).layout|
    ensures ListOk(RightJoint(s, i)) && RightJoint(s, i).layout[i].addr == s.layout[i].addr
    ensures s.layout[i].addr !in RightJoint(s, i).freeList
  {
    var u := RightJoint(s, i);
    var t := MergeOutcome(s, i);
    RightOutcome(s, i);
    MergeSpec(s, i);
    MergeCases(s, i);
    assert t.freeList == [s.layout[i].addr] + u.freeList;
    assert u.freeList == t.freeList[1..];
    FlipAddrs(u, i);
    forall k | 0 <= k < |u.freeList|
      ensures u.freeList[k] in Addrs(u.layout)
    {
      assert u.freeList[k] == t.freeList[k + 1];
    }
    forall a, c | 0 <= a < c < |u.freeList|
      ensures u.freeList[a] != u.freeList[c]
    {
      assert u.freeList[a] == t.freeList[a + 1] && u.freeList[c] == t.freeList[c + 1];
    }
  }

  /** The right neighbour merge_block absorbs is on the free list. */
  lemma RightListedBefore(s: HeapView, i: nat)
    requires i < |s.layout| && WellFormed(s, s.layout[i].addr) && RightAbsorbed(s, i)
    ensures s.layout[i + 1].addr in s.freeList
  {
    Distinct(s, i, i + 1);
  }

  /** Joining the block and its right neighbour changes no payload of a block in use but the block's. */
  lemma RightKept(s: HeapView, m0: seq<int>, m1: seq<int>, i: nat)
    requires Shaped(s) && |m1| == s.top && i + 1 < |s.layout| && s.layout[i + 1].isFree
    requires AllKept(m0, m1, s.layout)
    ensures 0 < s.layout[i].addr && FooterAt(JoinBlock(s.layout, i)) < |m1|
    ensures PayloadsKept(m0, SizeStores(m1, s.layout[i].addr, JoinBlock(s.layout, i).size), s.layout, s.layout[i].addr)
  {
    var v := s.layout;
    JoinedKept(s, m1, i);
    var m2 := SizeStores(m1, v[i].addr, JoinBlock(v, i).size);
    forall j | 0 <= j < |v| && !v[j].isFree && v[j].addr != v[i].addr
      ensures BlockKept(m0, m2, v[j])
    {
      assert j != i && j != i + 1;
      assert BlockKept(m0, m1, v[j]) && BlockKept(m1, m2, v[j]);
    }
  }

  /**
   * merge_block absorbing the right neighbour once remove_block_node has
   * taken it off the list: set_block_size realises RightJoint.
   */
  lemma RightJoined(s: HeapView, m0: seq<int>, m1: seq<int>, head: int, i: nat, p: int, ns: int)
    requires i < |s.layout| && WellFormed(s, s.layout[i].addr) && !LeftAbsorbs(s, i) && RightAbsorbed(s, i)
    requires Bound(s.(freeList := Unlink(s.freeList, s.layout[i + 1].addr)), m1, head)
    requires AllKept(m0, m1, s.layout)
    requires p == s.layout[i].addr && ns == s.layout[i].size + s.layout[i + 1].size + METADATA_SIZE + FOOTER_SIZE
    ensures 0 < p && 0 <= ns && p + METADATA_SIZE + ns < |m1| == s.top
    ensures 0 < s.layout[i + 1].addr && s.layout[i + 1].addr + METADATA_SIZE <= |m1|
    ensures ns == m1[p + SIZE_FIELD] + m1[s.layout[i + 1].addr + SIZE_FIELD] + METADATA_SIZE + FOOTER_SIZE
    ensures Bound(RightJoint(s, i), SizeStores(m1, p, ns), head)
    ensures i < |RightJoint(s, i).layout| && RightJoint(s, i).layout[i].addr == p
    ensures p !in RightJoint(s, i).freeList
    ensures PayloadsKept(m0, SizeStores(m1, p, ns), s.layout, p)
  {
    var s1 := s.(freeList := Unlink(s.freeList, s.layout[i + 1].addr));
    assert ns == JoinBlock(s.layout, i).size;
    Joined(s1, m1, i);
    JoinedLinks(s1, m1, head, i);
    RightListed(s, i);
    RightKept(s, m0, m1, i);
  }

  /** ... and the push that follows keeps those payloads. */
  lemma PushKept(v: seq<Block>, i: nat, m0: seq<int>, m2: seq<int>, m3: seq<int>)
    requires i + 1 < |v| && v[i + 1].isFree
    requires PayloadsKept(m0, m2, v, v[i].addr) && AllKept(m2, m3, Joint(v, i))
    ensures PayloadsKept(m0, m3, v, v[i].addr)
  {
    var w := Joint(v, i);
    forall j | 0 <= j < |v| && !v[j].isFree && v[j].addr != v[i].addr
      ensures BlockKept(m0, m3, v[j])
    {
      assert j != i && j != i + 1;
      if j < i {
        assert w[j] == v[j];
      } else {
        assert w[j - 1] == v[j];
      }
      assert BlockKept(m0, m2, v[j]) && BlockKept(m2, m3, v[j]);
    }
  }

  /** The block and its neighbours have their headers inside the heap. */
  lemma Sides(s: HeapView, i: nat)
    requires Shaped(s) && i < |s.layout|
    ensures 0 < s.layout[i].addr && End(s.layout[i]) <= s.top
    ensures i > 0 ==> 0 < s.layout[i - 1].addr && End(s.layout[i - 1]) <= s.top
    ensures i + 1 < |s.layout| ==> 0 < s.layout[i + 1].addr && End(s.layout[i + 1]) <= s.top
  {
    Neighbours(s.layout, s.start, s.top, i);
    if i > 0 {
      Neighbours(s.layout, s.start, s.top, i - 1);
    }
    if i + 1 < |s.layout| {
      Neighbours(s.layout, s.start, s.top, i + 1);
    }
  }

  /**
   * merge_block into the left neighbour, in full: the neighbour at `left`
   * takes the size `ns` of both blocks and their metadata between them.
   */
  lemma LeftJoined(s: HeapView, m: seq<int>, head: int, i: nat, left: int, ns: int)
    requires Bound(s, m, head) && i < |s.layout| && WellFormed(s, s.layout[i].addr) && LeftAbsorbs(s, i)
    requires left == s.layout[i - 1].addr && ns == s.layout[i].size + s.layout[i - 1].size + METADATA_SIZE + FOOTER_SIZE
    ensures 0 < left && 0 <= ns && left + METADATA_SIZE + ns < |m| == s.top
    ensures MergeOutcome(s, i) == s.(layout := Joint(s.layout, i - 1))
    ensures Bound(s.(layout := Joint(s.layout, i - 1)), SizeStores(m, left, ns), head)
    ensures PayloadsKept(m, SizeStores(m, left, ns), s.layout, s.layout[i].addr)
  {
    assert ns == JoinBlock(s.layout, i - 1).size;
    Joined(s, m, i - 1);
    JoinedLinks(s, m, head, i - 1);
    LeftKept(s, m, i);
    LeftOutcome(s, i);
    MergeSpec(s, i);
  }

  /** merge_block with no neighbour absorbed: the block is pushed on the list. */
  /**
   * The end of merge_block, after the push of the block (its right
   * neighbour absorbed or not): the outcome of merge_block, and every other
   * block in use keeps its payload.
   */
  lemma MergeTail(s: HeapView, i: nat, m0: seq<int>, m2: seq<int>, m3: seq<int>)
    requires i < |s.layout| && !LeftAbsorbs(s, i)
    requires RightAbsorbed(s, i) ==> PayloadsKept(m0, m2, s.layout, s.layout[i].addr) && AllKept(m2, m3, Joint(s.layout, i))
    requires !RightAbsorbed(s, i) ==> m2 == m0 && AllKept(m2, m3, s.layout)
    ensures i < |(if RightAbsorbed(s, i) then RightJoint(s, i) else s).layout|
    ensures MergeOutcome(s, i) == PushView(if RightAbsorbed(s, i) then RightJoint(s, i) else s, i)
    ensures PayloadsKept(m0, m3, s.layout, s.layout[i].addr)
  {
    if RightAbsorbed(s, i) {
      RightOutcome(s, i);
      PushKept(s.layout, i, m0, m2, m3);
    } else {
      AloneOutcome(s, i);
    }
  }

  lemma AloneOutcome(s: HeapView, i: nat)
    requires i < |s.layout| && !LeftAbsorbs(s, i) && !RightAbsorbed(s, i)
    ensures MergeOutcome(s, i) == PushView(s, i)
  {
  }

  /**
   * The stores of split_block before its call of free: the carved state is
   * bound to the carved memory.
   */
  lemma SplitCarved(s: HeapView, m: seq<int>, head: int, i: nat, p: int, trim: int, flag: bool)
    requires Bound(s, m, head) && Splittable(s, i, trim)
    requires p == s.layout[i].addr && flag == (Cell(m, p + OVERHEAD + trim + FLAG_FIELD) != 0)
    ensures 0 < p && p + METADATA_SIZE + s.layout[i].size < |m|
    ensures m[p + SIZE_FIELD] == s.layout[i].size
    ensures Bound(Carve(s, i, trim, flag), CarveMem(m, p, s.layout[i].size, trim), head)
  {
    var v := s.layout;
    Neighbours(v, s.start, s.top, i);
    assert Stamp(m, v[i]);
    Carved(s, m, i, trim, flag);
    CarvedLinks(s, m, head, i, trim);
    CarveSpec(s, i, trim, flag);
  }

  /**
   * After the carving stores the remainder is block `i + 1`, the only block
   * whose flag is not yet reliable, and releasing it is the split's outcome.
   */
  lemma SplitRemainder(s: HeapView, i: nat, nb: int, trim: int, flag: bool)
    requires Splittable(s, i, trim) && nb == s.layout[i].addr + OVERHEAD + trim
    ensures WellFormed(Carve(s, i, trim, flag), nb)
    ensures nb in Addrs(Carve(s, i, trim, flag).layout) && IndexOf(Carve(s, i, trim, flag).layout, nb) == i + 1
    ensures MergeOutcome(Carve(s, i, trim, flag), i + 1) == SplitOutcome(s, i, trim)
  {
    var c := Carve(s, i, trim, flag);
    CarveIndex(s, i, trim, flag);
    assert c.layout[i + 1].addr == nb;
    CarveSpec(s, i, trim, flag);
    CarveUnflagged(s, i, trim, flag);
  }

  /** The carving stores leave every link of the free list alone. */
  lemma CarvedLinks(s: HeapView, m: seq<int>, head: int, i: nat, trim: int)
    requires Laid(s, m) && ListOk(s) && Linked(m, head, s.freeList)
    requires i < |s.layout| && s.layout[i].addr !in s.freeList && 0 < trim && trim + OVERHEAD < s.layout[i].size
    ensures 0 < s.layout[i].addr && s.layout[i].addr + METADATA_SIZE + s.layout[i].size < |m|
    ensures Linked(CarveMem(m, s.layout[i].addr, s.layout[i].size, trim), head, s.freeList)
  {
    var v := s.layout;
    Neighbours(v, s.start, s.top, i);
    assert Stamp(m, v[i]);
    CarveStamps(m, v[i], trim);
    LinkedBeside(s, m, CarveMem(m, v[i].addr, v[i].size, trim), head, i);
  }

  /** Stores inside a block that is not on the free list leave every link alone. */
  lemma LinkedBeside(s: HeapView, m: seq<int>, m2: seq<int>, head: int, i: nat)
    requires Shaped(s) && ListOk(s) && Linked(m, head, s.freeList)
    requires i < |s.layout| && s.layout[i].addr !in s.freeList
    requires SameOutside(m, m2, s.layout[i].addr, End(s.layout[i]))
    ensures Linked(m2, head, s.freeList)
  {
    NodesBeside(s, i, i);
    LinkedOutside(m, m2, head, s.freeList, s.layout[i].addr, End(s.layout[i]));
  }

  /** In the carved layout the remainder is block `i + 1`, found there by its address. */
  lemma CarveIndex(s: HeapView, i: nat, trim: int, flag: bool)
    requires Shaped(s) && i < |s.layout| && 0 < trim && trim + OVERHEAD < s.layout[i].size
    ensures i + 1 < |Carve(s, i, trim, flag).layout|
    ensures Carve(s, i, trim, flag).layout[i + 1].addr == s.layout[i].addr + OVERHEAD + trim
    ensures s.layout[i].addr + OVERHEAD + trim in Addrs(Carve(s, i, trim, flag).layout)
    ensures IndexOf(Carve(s, i, trim, flag).layout, s.layout[i].addr + OVERHEAD + trim) == i + 1
  {
    var c := Carve(s, i, trim, flag);
    CarvedTiled(s, i, trim, flag);
    assert c.layout[i + 1].addr == s.layout[i].addr + OVERHEAD + trim;
    assert Addrs(c.layout)[i + 1] == c.layout[i + 1].addr;
    IndexOfTiled(c.layout, s.start, s.top, i + 1);
  }

  /** Releasing the remainder does not depend on the flag its header held. */
  lemma CarveUnflagged(s: HeapView, i: nat, trim: int, flag: bool)
    requires i < |s.layout| && 0 < trim
    ensures i + 1 < |Carve(s, i, trim, flag).layout|
    ensures MergeOutcome(Carve(s, i, trim, flag), i + 1) == SplitOutcome(s, i, trim)
  {
    var c := Carve(s, i, trim, flag);
    MergeIgnoresFlag(c, i + 1, false);
    assert c.layout[i + 1 := c.layout[i + 1].(isFree := false)] == Carve(s, i, trim, false).layout;
  }

  /** The carving stores keep the payload of every other block and the part the block keeps. */
  lemma CarvedKept(s: HeapView, m: seq<int>, i: nat, trim: int)
    requires Laid(s, m) && i < |s.layout| && 0 < trim && trim + OVERHEAD < s.layout[i].size
    ensures 0 < s.layout[i].addr && s.layout[i].addr + METADATA_SIZE + s.layout[i].size < |m|
    ensures forall j :: 0 <= j < |s.layout| && j != i ==>
      BlockKept(m, CarveMem(m, s.layout[i].addr, s.layout[i].size, trim), s.layout[j])
    ensures BlockKept(m, CarveMem(m, s.layout[i].addr, s.layout[i].size, trim), s.layout[i].(size := trim))
  {
    var v := s.layout;
    Neighbours(v, s.start, s.top, i);
    assert Stamp(m, v[i]);
    CarveStamps(m, v[i], trim);
    KeptOutside(m, CarveMem(m, v[i].addr, v[i].size, trim), v, s.start, s.top, i, i + 1);
  }

  /**
   * split_block, from end to end: the memory `m2` left by the release of the
   * remainder keeps every payload in use but the block's own, and the
   * `trim` bytes the block keeps.
   */
  lemma SplitKept(s: HeapView, m: seq<int>, i: nat, trim: int, flag: bool, m2: seq<int>)
    requires Laid(s, m) && i < |s.layout| && !s.layout[i].isFree && 0 < trim && trim + OVERHEAD < s.layout[i].size
    requires 0 < s.layout[i].addr && s.layout[i].addr + METADATA_SIZE + s.layout[i].size < |m|
    requires PayloadsKept(CarveMem(m, s.layout[i].addr, s.layout[i].size, trim), m2,
                          Carve(s, i, trim, flag).layout, s.layout[i].addr + OVERHEAD + trim)
    ensures PayloadsKept(m, m2, s.layout, s.layout[i].addr)
    ensures BlockKept(m, m2, Block(s.layout[i].addr, trim, false))
  {
    CarvedKept(s, m, i, trim);
    KeptThrough(s, m, CarveMem(m, s.layout[i].addr, s.layout[i].size, trim), i, trim, flag, m2);
  }

  /** Payloads kept by the carving and then by the release are kept from end to end. */
  lemma KeptThrough(s: HeapView, m: seq<int>, m1: seq<int>, i: nat, trim: int, flag: bool, m2: seq<int>)
    requires Shaped(s) && i < |s.layout| && !s.layout[i].isFree && 0 < trim && trim + OVERHEAD < s.layout[i].size
    requires forall j :: 0 <= j < |s.layout| && j != i ==> BlockKept(m, m1, s.layout[j])
    requires BlockKept(m, m1, s.layout[i].(size := trim))
    requires PayloadsKept(m1, m2, Carve(s, i, trim, flag).layout, s.layout[i].addr + OVERHEAD + trim)
    ensures PayloadsKept(m, m2, s.layout, s.layout[i].addr)
    ensures BlockKept(m, m2, Block(s.layout[i].addr, trim, false))
  {
    var v := s.layout;
    var c := Carve(s, i, trim, flag);
    CarvedTiled(s, i, trim, flag);
    assert c.layout[i] == v[i].(size := trim) == Block(v[i].addr, trim, false);
    assert c.layout[i + 1].addr == v[i].addr + OVERHEAD + trim;
    Apart(c.layout, s.start, s.top, i, i + 1);
    forall j | 0 <= j < |v| && !v[j].isFree && v[j].addr != v[i].addr
      ensures BlockKept(m, m2, v[j])
    {
      var j' := if j < i then j else j + 1;
      assert c.layout[j'] == v[j];
      Apart(c.layout, s.start, s.top, j', i + 1);
    }
  }

  /** What malloc's search reads at position `k` of the free list: the node's size and its next field. */
  lemma ListNode(s: HeapView, m: seq<int>, head: int, k: nat)
    requires Bound(s, m, head) && k < |s.freeList|
    ensures 0 < s.freeList[k] && s.freeList[k] + METADATA_SIZE <= |m|
    ensures m[s.freeList[k] + SIZE_FIELD] == ListSizes(s)[k]
    ensures m[s.freeList[k] + NEXT_FIELD] == (if k + 1 < |s.freeList| then s.freeList[k + 1] else NULL)
  {
    var a := s.freeList[k];
    ListBound(s, k);
    InAddrs(s.layout, a);
    assert Stamp(m, s.layout[IndexOf(s.layout, a)]);
    assert Nexts(m, s.freeList)[k] == NextNode(s.freeList, k);
  }

  /** malloc's growth path: the new block in use ends the layout and no payload moves. */
  lemma GrownBound(s: HeapView, m: seq<int>, head: int, r: int)
    requires WellFormed(s, NULL) && Bound(s, m, head) && s.start != NULL && r > 0
    ensures Bound(Grown(s, r), GrowMem(m, r), head) && WellFormed(Grown(s, r), NULL)
    ensures AllKept(m, GrowMem(m, r), s.layout)
  {
    GrownLaid(s, m, head, r);
    GrownSpec(s, r);
  }

  /**
   * One step of malloc's search, at position `k` of the free list with no
   * fit before it: the node fits exactly when it is the first fit, and its
   * next field leads to position `k + 1`.
   */
  lemma SearchStep(s: HeapView, m: seq<int>, head: int, k: nat, r: int)
    requires Bound(s, m, head) && k < |s.freeList| && k <= Chosen(s, r)
    ensures 0 < s.freeList[k] && s.freeList[k] + METADATA_SIZE <= |m|
    ensures m[s.freeList[k] + SIZE_FIELD] >= r ==> Chosen(s, r) == k
    ensures m[s.freeList[k] + SIZE_FIELD] < r ==> k + 1 <= Chosen(s, r)
    ensures m[s.freeList[k] + NEXT_FIELD] == (if k + 1 < |s.freeList| then s.freeList[k + 1] else NULL)
  {
    ListNode(s, m, head, k);
  }

  /**
   * malloc takes the free block `j`: after remove_block_node and
   * mark_block_used the memory realises Take, and no payload moves.
   */
  lemma Taken(s: HeapView, m: seq<int>, head: int, j: nat)
    requires WellFormed(s, NULL) && j < |s.layout| && s.layout[j].isFree
    requires Bound(s.(freeList := Unlink(s.freeList, s.layout[j].addr)), m, head)
    ensures 0 < s.layout[j].addr && s.layout[j].addr + METADATA_SIZE <= |m|
    ensures m[s.layout[j].addr + SIZE_FIELD] == s.layout[j].size
    ensures Bound(Take(s, j), UsedStore(m, s.layout[j].addr), head) && WellFormed(Take(s, j), NULL)
    ensures AllKept(m, UsedStore(m, s.layout[j].addr), s.layout)
    ensures IndexOf(Take(s, j).layout, s.layout[j].addr) == j && s.layout[j].addr in Addrs(Take(s, j).layout)
  {
    var a := s.layout[j].addr;
    var u := s.(freeList := Unlink(s.freeList, a));
    Sides(s, j);
    assert Stamp(m, s.layout[j]);
    UsedLaid(u, m, j);
    MetaWriteLinks(u, m, head, j, a + FLAG_FIELD, 0);
    TakeSpec(s, j);
    assert Take(s, j) == u.(layout := u.layout[j := u.layout[j].(isFree := false)]);
    IndexOfTiled(Take(s, j).layout, s.start, s.top, j);
    assert Addrs(Take(s, j).layout)[j] == a;
  }

  /** Payloads kept while malloc takes and splits block `j` are kept for every block in use before. */
  lemma ReuseKept(s: HeapView, j: nat, m0: seq<int>, m2: seq<int>, m3: seq<int>)
    requires WellFormed(s, NULL) && j < |s.layout| && s.layout[j].isFree
    requires AllKept(m0, m2, s.layout) && PayloadsKept(m2, m3, Take(s, j).layout, s.layout[j].addr)
    ensures PayloadsKept(m0, m3, s.layout, NULL)
  {
    var t := Take(s, j);
    forall q | 0 <= q < |s.layout| && !s.layout[q].isFree && s.layout[q].addr != NULL
      ensures BlockKept(m0, m3, s.layout[q])
    {
      assert t.layout[q] == s.layout[q];
      Distinct(s, q, j);
    }
  }
}
