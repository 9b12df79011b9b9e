/**
 * What the stores of merge_block, split_block, malloc, calloc and realloc
 * leave in place. Each lemma takes the memory before a group of stores and
 * shows that the memory after them holds the metadata of the new blocks,
 * keeps the free list linked and keeps the payloads of the other blocks.
 */
module Frames {
  import opened Codec
  import opened Layout
  import opened FreeList
  import opened Engine
  import opened Heap

  /** `n` cells reading zero: the memory sbrk hands out. */
  function Zeros(n: nat): (z: seq<int>)
    ensures |z| == n && forall x :: 0 <= x < n ==> z[x] == 0
  {
    seq(n, _ => 0)
  }

  /** Two memories of the same length that differ at most inside [lo, hi). */
  ghost predicate SameOutside(m1: seq<int>, m2: seq<int>, lo: int, hi: int)
  {
    && |m1| == |m2|
    && forall x :: 0 <= x < |m1| && !(lo <= x < hi) ==> m1[x] == m2[x]
  }

  /** A block wholly outside [lo, hi) keeps its metadata, its links and its payload. */
  lemma OutsideKept(m1: seq<int>, m2: seq<int>, lo: int, hi: int, b: Block)
    requires SameOutside(m1, m2, lo, hi) && b.size >= 0 && (End(b) <= lo || hi <= b.addr)
    ensures Stamp(m2, b) == Stamp(m1, b) && BlockKept(m1, m2, b)
    ensures Cell(m2, b.addr + NEXT_FIELD) == Cell(m1, b.addr + NEXT_FIELD)
    ensures Cell(m2, b.addr + PREV_FIELD) == Cell(m1, b.addr + PREV_FIELD)
  {
    KeptBy(m1, m2, b);
  }

  /** The blocks before `i0` and after `i1` lie outside [v[i0].addr, End(v[i1])). */
  lemma Beside(v: seq<Block>, from: int, to: int, i0: int, i1: int, j: int)
    requires Tiled(v, from, to) && 0 <= i0 <= i1 < |v| && 0 <= j < |v| && (j < i0 || i1 < j)
    ensures End(v[j]) <= v[i0].addr || End(v[i1]) <= v[j].addr
    ensures v[j].size > 0
  {
    if j < i0 {
      Ascending(v, from, to, j, i0);
    } else {
      Ascending(v, from, to, i1, j);
    }
  }

  /** The free list stays linked when no node's header lies in [lo, hi). */
  lemma LinkedOutside(m1: seq<int>, m2: seq<int>, head: int, fl: seq<int>, lo: int, hi: int)
    requires Linked(m1, head, fl) && SameOutside(m1, m2, lo, hi)
    requires forall k :: 0 <= k < |fl| ==> fl[k] + METADATA_SIZE <= lo || hi <= fl[k]
    ensures Linked(m2, head, fl)
  {
    forall k | 0 <= k < |fl|
      ensures Nexts(m2, fl)[k] == NextNode(fl, k)
      ensures k > 0 ==> Prevs(m2, fl)[k] == fl[k - 1]
    {
      LinkedAt(m1, head, fl, k);
    }
  }

  /** The memory holds the metadata of a new layout that tiles the same region. */
  lemma Relaid(s: HeapView, m: seq<int>, nl: seq<Block>)
    requires Shaped(s) && s.start != NULL && |m| == s.top && Stamped(m, nl) && Tiled(nl, s.start, s.top)
    ensures Laid(s.(layout := nl), m)
  {
  }

  /** A store inside [lo, hi) changes nothing outside it. */
  lemma Outside1(m: seq<int>, a: int, val: int, lo: int, hi: int)
    requires lo <= a < hi && 0 <= a < |m|
    ensures SameOutside(m, m[a := val], lo, hi)
  {
  }

  lemma OutsideTrans(m1: seq<int>, m2: seq<int>, m3: seq<int>, lo: int, hi: int)
    requires SameOutside(m1, m2, lo, hi) && SameOutside(m2, m3, lo, hi)
    ensures SameOutside(m1, m3, lo, hi)
  {
  }

  /**
   * Replacing the blocks [i, k) of a tiling by `mid`, with the memory
   * changed only inside those blocks: the other blocks keep their
   * metadata, so the memory holds the metadata of the new layout.
   */
  lemma StampedSplice(m1: seq<int>, m2: seq<int>, v: seq<Block>, from: int, to: int, i: int, k: int, mid: seq<Block>)
    requires Tiled(v, from, to) && Stamped(m1, v) && 0 <= i < k <= |v|
    requires SameOutside(m1, m2, v[i].addr, End(v[k - 1])) && Stamped(m2, mid)
    ensures Stamped(m2, v[..i] + mid + v[k..])
  {
    var r := v[..i] + mid + v[k..];
    forall j | 0 <= j < |r|
      ensures Stamp(m2, r[j])
    {
      if j < i {
        assert r[j] == v[j];
        Beside(v, from, to, i, k - 1, j);
        OutsideKept(m1, m2, v[i].addr, End(v[k - 1]), v[j]);
      } else if j >= i + |mid| {
        var o := j - |mid| + (k - i);
        assert r[j] == v[o];
        Beside(v, from, to, i, k - 1, o);
        OutsideKept(m1, m2, v[i].addr, End(v[k - 1]), v[o]);
      } else {
        assert r[j] == mid[j - i];
      }
    }
  }

  /** The blocks outside [i, k) keep their payloads when the memory changes only inside those blocks. */
  lemma KeptOutside(m1: seq<int>, m2: seq<int>, v: seq<Block>, from: int, to: int, i: int, k: int)
    requires Tiled(v, from, to) && 0 <= i < k <= |v| && SameOutside(m1, m2, v[i].addr, End(v[k - 1]))
    ensures forall j :: 0 <= j < |v| && (j < i || k <= j) ==> BlockKept(m1, m2, v[j])
  {
    forall j | 0 <= j < |v| && (j < i || k <= j)
      ensures BlockKept(m1, m2, v[j])
    {
      Beside(v, from, to, i, k - 1, j);
      OutsideKept(m1, m2, v[i].addr, End(v[k - 1]), v[j]);
    }
  }

  /** One block rewritten in place, with the memory changed only inside it. */
  lemma StampedUpdate(m1: seq<int>, m2: seq<int>, v: seq<Block>, from: int, to: int, i: int, nb: Block)
    requires Tiled(v, from, to) && Stamped(m1, v) && 0 <= i < |v|
    requires SameOutside(m1, m2, v[i].addr, End(v[i])) && Stamp(m2, nb)
    ensures Stamped(m2, v[i := nb])
  {
    var w := v[i := nb];
    forall j | 0 <= j < |w|
      ensures Stamp(m2, w[j])
    {
      if j != i {
        Beside(v, from, to, i, i, j);
        OutsideKept(m1, m2, v[i].addr, End(v[i]), v[j]);
      }
    }
  }

  lemma TiledUpdate(v: seq<Block>, from: int, to: int, i: int, nb: Block)
    requires Tiled(v, from, to) && 0 <= i < |v| && nb.addr == v[i].addr && nb.size == v[i].size
    ensures Tiled(v[i := nb], from, to)
  {
  }

  /** Free-list nodes other than the blocks [i0, i1] have their headers outside those blocks. */
  lemma NodesBeside(s: HeapView, i0: int, i1: int)
    requires Shaped(s) && ListOk(s) && 0 <= i0 <= i1 < |s.layout|
    requires forall j :: i0 <= j <= i1 ==> s.layout[j].addr !in s.freeList
    ensures forall k :: 0 <= k < |s.freeList| ==>
      s.freeList[k] + METADATA_SIZE <= s.layout[i0].addr || End(s.layout[i1]) <= s.freeList[k]
  {
    var v, fl := s.layout, s.freeList;
    forall k | 0 <= k < |fl|
      ensures fl[k] + METADATA_SIZE <= v[i0].addr || End(v[i1]) <= fl[k]
    {
      InAddrs(v, fl[k]);
      var j := IndexOf(v, fl[k]);
      assert fl[k] in fl && v[j].addr == fl[k];
      Beside(v, s.start, s.top, i0, i1, j);
    }
  }

  /** A store into the size field, the flag field or the footer of a block leaves every link alone. */
  lemma MetaWriteLinks(s: HeapView, m: seq<int>, head: int, o: int, a: int, val: int)
    requires Shaped(s) && ListOk(s) && Linked(m, head, s.freeList) && |m| == s.top
    requires 0 <= o < |s.layout| && 0 <= a < |m|
    requires a == s.layout[o].addr + SIZE_FIELD || a == s.layout[o].addr + FLAG_FIELD || a == FooterAt(s.layout[o])
    ensures Linked(m[a := val], head, s.freeList)
  {
    var fl := s.freeList;
    var m2 := m[a := val];
    forall k | 0 <= k < |fl|
      ensures Nexts(m2, fl)[k] == NextNode(fl, k)
      ensures k > 0 ==> Prevs(m2, fl)[k] == fl[k - 1]
    {
      LinkedAt(m, head, fl, k);
      MetaWriteNode(s, m, o, a, val, fl[k]);
    }
  }

  /** ... node by node. */
  lemma MetaWriteNode(s: HeapView, m: seq<int>, o: int, a: int, val: int, x: int)
    requires Shaped(s) && 0 <= o < |s.layout| && 0 <= a < |m| && x in Addrs(s.layout)
    requires a == s.layout[o].addr + SIZE_FIELD || a == s.layout[o].addr + FLAG_FIELD || a == FooterAt(s.layout[o])
    ensures Cell(m[a := val], x + NEXT_FIELD) == Cell(m, x + NEXT_FIELD)
    ensures Cell(m[a := val], x + PREV_FIELD) == Cell(m, x + PREV_FIELD)
  {
    var v := s.layout;
    InAddrs(v, x);
    NotMeta(v, s.start, s.top, IndexOf(v, x), o, a);
  }

  lemma NotMeta(v: seq<Block>, from: int, to: int, j: int, o: int, a: int)
    requires Tiled(v, from, to) && 0 <= j < |v| && 0 <= o < |v|
    requires a == v[o].addr + SIZE_FIELD || a == v[o].addr + FLAG_FIELD || a == FooterAt(v[o])
    ensures a != v[j].addr + NEXT_FIELD && a != v[j].addr + PREV_FIELD
  {
    if a == FooterAt(v[o]) {
      FooterCell(v, from, to, o, j, NEXT_FIELD);
      FooterCell(v, from, to, o, j, PREV_FIELD);
    } else {
      var d := a - v[o].addr;
      HeaderCells(v, from, to, j, o, NEXT_FIELD, d);
      HeaderCells(v, from, to, j, o, PREV_FIELD, d);
    }
  }

  /** The two stores of set_block_size: the header's size field and the new footer. */
  function SizeStores(m: seq<int>, p: int, n: int): (m2: seq<int>)
    requires 0 <= p && 0 <= n && p + METADATA_SIZE + n < |m|
    ensures |m2| == |m| && Cell(m2, p + SIZE_FIELD) == n && Cell(m2, p + METADATA_SIZE + n) == n
    ensures forall x :: 0 <= x < |m| && x != p && x != p + METADATA_SIZE + n ==> m2[x] == m[x]
  {
    m[p := n][p + METADATA_SIZE + n := n]
  }

  /** Blocks `k` and `k + 1` as one block with the flag of block `k`. */
  function JoinBlock(v: seq<Block>, k: int): Block
    requires 0 <= k && k + 1 < |v|
  {
    Block(v[k].addr, v[k].size + v[k + 1].size + OVERHEAD, v[k].isFree)
  }

  /**
   * set_block_size on block `k` with the joint size of blocks `k` and
   * `k + 1`: the two become one block, which keeps the flag of block `k`.
   */
  lemma Joined(s: HeapView, m: seq<int>, k: int)
    requires Laid(s, m) && 0 <= k && k + 1 < |s.layout|
    ensures 0 < s.layout[k].addr && FooterAt(JoinBlock(s.layout, k)) == FooterAt(s.layout[k + 1]) < |m|
    ensures Laid(s.(layout := s.layout[..k] + [JoinBlock(s.layout, k)] + s.layout[k + 2..]),
                 SizeStores(m, s.layout[k].addr, JoinBlock(s.layout, k).size))
    ensures SameOutside(m, SizeStores(m, s.layout[k].addr, JoinBlock(s.layout, k).size), s.layout[k].addr, End(s.layout[k + 1]))
  {
    var v := s.layout;
    var nb := JoinBlock(v, k);
    JoinedCells(s, m, k);
    var m2 := SizeStores(m, v[k].addr, nb.size);
    SplicedJoin(s, m, m2, k);
    Splice(v, s.start, s.top, k, k + 2, [nb]);
    Relaid(s, m2, v[..k] + [nb] + v[k + 2..]);
  }

  /** The two stores write the joint block's metadata and change nothing outside the pair. */
  lemma JoinedCells(s: HeapView, m: seq<int>, k: int)
    requires Laid(s, m) && 0 <= k && k + 1 < |s.layout|
    ensures 0 < s.layout[k].addr && FooterAt(JoinBlock(s.layout, k)) == FooterAt(s.layout[k + 1]) < |m|
    ensures End(JoinBlock(s.layout, k)) == End(s.layout[k + 1])
    ensures Stamp(SizeStores(m, s.layout[k].addr, JoinBlock(s.layout, k).size), JoinBlock(s.layout, k))
    ensures SameOutside(m, SizeStores(m, s.layout[k].addr, JoinBlock(s.layout, k).size), s.layout[k].addr, End(s.layout[k + 1]))
  {
    var v := s.layout;
    var a, c := v[k], v[k + 1];
    var nb := JoinBlock(v, k);
    Neighbours(v, s.start, s.top, k);
    Neighbours(v, s.start, s.top, k + 1);
    var m2 := SizeStores(m, a.addr, nb.size);
    assert SameOutside(m, m2, a.addr, End(c));
    assert Stamp(m, a);
    assert Stamp(m2, nb);
  }

  /** A memory holding the joint block, and changed only inside the pair, holds the joined layout. */
  lemma SplicedJoin(s: HeapView, m: seq<int>, m2: seq<int>, k: int)
    requires Laid(s, m) && 0 <= k && k + 1 < |s.layout|
    requires Stamp(m2, JoinBlock(s.layout, k)) && SameOutside(m, m2, s.layout[k].addr, End(s.layout[k + 1]))
    ensures Stamped(m2, s.layout[..k] + [JoinBlock(s.layout, k)] + s.layout[k + 2..])
  {
    assert Stamped(m2, [JoinBlock(s.layout, k)]);
    StampedSplice(m, m2, s.layout, s.start, s.top, k, k + 2, [JoinBlock(s.layout, k)]);
  }

  /**
   * The four stores of split_block before its call of free: the block at
   * `p` of payload `size` keeps `trim` bytes, and a new block right after
   * it takes the rest.
   */
  function CarveMem(m: seq<int>, p: int, size: int, trim: int): seq<int>
    requires 0 <= p && 0 < trim && trim + OVERHEAD < size && p + METADATA_SIZE + size < |m|
  {
    SizeStores(SizeStores(m, p, trim), p + OVERHEAD + trim, size - (trim + OVERHEAD))
  }

  /**
   * The four stores write the metadata of both blocks of the pair, change
   * nothing outside `b` and keep the payload that stays with `b`.
   */
  lemma CarveStamps(m: seq<int>, b: Block, trim: int)
    requires 0 < b.addr && 0 < trim && trim + OVERHEAD < b.size && End(b) <= |m| && Stamp(m, b)
    ensures var m4 := CarveMem(m, b.addr, b.size, trim);
      var pair := CarvePair(b, trim, Cell(m, b.addr + OVERHEAD + trim + FLAG_FIELD) != 0);
      && Stamp(m4, pair[0]) && Stamp(m4, pair[1])
      && SameOutside(m, m4, b.addr, End(b))
      && BlockKept(m, m4, b.(size := trim))
  {
    var nb := b.addr + OVERHEAD + trim;
    var ns := b.size - (trim + OVERHEAD);
    var m2 := SizeStores(m, b.addr, trim);
    var m4 := SizeStores(m2, nb, ns);
    assert SameOutside(m, m2, b.addr, End(b));
    assert SameOutside(m2, m4, b.addr, End(b));
    OutsideTrans(m, m2, m4, b.addr, End(b));
    KeptBy(m, m4, b.(size := trim));
  }

  lemma CarveTiled(b: Block, trim: int, flag: bool)
    requires 0 < trim && trim + OVERHEAD < b.size
    ensures Tiled(CarvePair(b, trim, flag), b.addr, End(b))
  {
  }

  /**
   * The stores of split_block before its call of free leave the layout
   * carved: the new block's flag is whatever its header cell held.
   */
  lemma Carved(s: HeapView, m: seq<int>, i: int, trim: int, flag: bool)
    requires Laid(s, m) && 0 <= i < |s.layout| && 0 < trim && trim + OVERHEAD < s.layout[i].size
    requires flag == (Cell(m, s.layout[i].addr + OVERHEAD + trim + FLAG_FIELD) != 0)
    ensures 0 < s.layout[i].addr && End(s.layout[i]) <= |m|
    ensures Laid(Carve(s, i, trim, flag), CarveMem(m, s.layout[i].addr, s.layout[i].size, trim))
  {
    var v := s.layout;
    CarvedStamped(s, m, i, trim, flag);
    CarvedTiled(s, i, trim, flag);
    Relaid(s, CarveMem(m, v[i].addr, v[i].size, trim), v[..i] + CarvePair(v[i], trim, flag) + v[i + 1..]);
  }

  /** The carved memory holds the metadata of the carved layout. */
  lemma CarvedStamped(s: HeapView, m: seq<int>, i: int, trim: int, flag: bool)
    requires Laid(s, m) && 0 <= i < |s.layout| && 0 < trim && trim + OVERHEAD < s.layout[i].size
    requires flag == (Cell(m, s.layout[i].addr + OVERHEAD + trim + FLAG_FIELD) != 0)
    ensures 0 < s.layout[i].addr && End(s.layout[i]) <= |m|
    ensures |CarveMem(m, s.layout[i].addr, s.layout[i].size, trim)| == |m|
    ensures Stamped(CarveMem(m, s.layout[i].addr, s.layout[i].size, trim),
                    s.layout[..i] + CarvePair(s.layout[i], trim, flag) + s.layout[i + 1..])
  {
    var v := s.layout;
    var b := v[i];
    Neighbours(v, s.start, s.top, i);
    assert Stamp(m, b);
    CarveStamps(m, b, trim);
    SplicedPair(s, m, CarveMem(m, b.addr, b.size, trim), i, CarvePair(b, trim, flag));
  }

  /** Two blocks written in place of block `i`, with the memory changed only inside it. */
  lemma SplicedPair(s: HeapView, m: seq<int>, m2: seq<int>, i: int, mid: seq<Block>)
    requires Laid(s, m) && 0 <= i < |s.layout| && |mid| == 2
    requires Stamp(m2, mid[0]) && Stamp(m2, mid[1]) && SameOutside(m, m2, s.layout[i].addr, End(s.layout[i]))
    ensures Stamped(m2, s.layout[..i] + mid + s.layout[i + 1..])
  {
    assert Stamped(m2, mid);
    StampedSplice(m, m2, s.layout, s.start, s.top, i, i + 1, mid);
  }

  /** The carved layout tiles the same region. */
  lemma CarvedTiled(s: HeapView, i: int, trim: int, flag: bool)
    requires Shaped(s) && 0 <= i < |s.layout| && 0 < trim && trim + OVERHEAD < s.layout[i].size
    ensures Tiled(s.layout[..i] + CarvePair(s.layout[i], trim, flag) + s.layout[i + 1..], s.start, s.top)
  {
    CarveTiled(s.layout[i], trim, flag);
    Splice(s.layout, s.start, s.top, i, i + 1, CarvePair(s.layout[i], trim, flag));
  }

  /** Cells below `to` agree: every block of a tiling up to `to` keeps its metadata and payload. */
  lemma StampedBelow(m1: seq<int>, m2: seq<int>, v: seq<Block>, from: int, to: int)
    requires Tiled(v, from, to) && Stamped(m1, v) && |m1| == to <= |m2|
    requires forall x :: 0 <= x < to ==> m2[x] == m1[x]
    ensures Stamped(m2, v) && AllKept(m1, m2, v)
  {
    forall j | 0 <= j < |v|
      ensures Stamp(m2, v[j]) && BlockKept(m1, m2, v[j])
    {
      Within(v, from, to, j);
      assert Stamp(m1, v[j]);
      KeptBy(m1, m2, v[j]);
    }
  }

  /**
   * The stores of malloc's growth path: sbrk appends zeroed cells, then
   * set_block_size and mark_block_used write the new block's metadata.
   * The memory below the old break is untouched.
   */
  function GrowMem(m: seq<int>, r: nat): (g: seq<int>)
    ensures |g| == |m| + OVERHEAD + r
    ensures forall x :: 0 <= x < |m| ==> g[x] == m[x]
    ensures Stamp(g, Block(|m|, r, false))
  {
    SizeStores(m + Zeros(OVERHEAD + r), |m|, r)[|m| + FLAG_FIELD := 0]
  }

  /** ... and leave the heap grown by one block in use. */
  lemma GrownLaid(s: HeapView, m: seq<int>, head: int, r: nat)
    requires Laid(s, m) && ListOk(s) && Linked(m, head, s.freeList) && s.start != NULL && r > 0
    ensures Laid(Grown(s, r), GrowMem(m, r)) && Linked(GrowMem(m, r), head, s.freeList)
    ensures AllKept(m, GrowMem(m, r), s.layout)
  {
    GrownFrom(s, m, GrowMem(m, r), head, r);
  }

  /** A memory that extends `m` and holds the new block's metadata holds the grown heap. */
  lemma GrownFrom(s: HeapView, m: seq<int>, m2: seq<int>, head: int, r: int)
    requires Laid(s, m) && ListOk(s) && Linked(m, head, s.freeList) && s.start != NULL && r > 0
    requires |m2| == s.top + OVERHEAD + r && Stamp(m2, Block(s.top, r, false))
    requires forall x :: 0 <= x < s.top ==> m2[x] == m[x]
    ensures Laid(Grown(s, r), m2) && Linked(m2, head, s.freeList) && AllKept(m, m2, s.layout)
  {
    var v := s.layout;
    var b := Block(s.top, r, false);
    StampedBelow(m, m2, v, s.start, s.top);
    StampedAppend(m2, v, b);
    Append(v, s.start, s.top, b);
    LinkedBelow(s, m, m2, head);
  }

  lemma StampedAppend(m: seq<int>, v: seq<Block>, b: Block)
    requires Stamped(m, v) && Stamp(m, b)
    ensures Stamped(m, v + [b])
  {
    assert forall j :: 0 <= j < |v| ==> (v + [b])[j] == v[j];
  }

  /** The free list stays linked when the cells below the break stay the same. */
  lemma LinkedBelow(s: HeapView, m: seq<int>, m2: seq<int>, head: int)
    requires Shaped(s) && ListOk(s) && Linked(m, head, s.freeList) && |m| == s.top <= |m2|
    requires forall x :: 0 <= x < s.top ==> m2[x] == m[x]
    ensures Linked(m2, head, s.freeList)
  {
    var fl := s.freeList;
    forall k | 0 <= k < |fl|
      ensures Nexts(m2, fl)[k] == NextNode(fl, k)
      ensures k > 0 ==> Prevs(m2, fl)[k] == fl[k - 1]
    {
      LinkedAt(m, head, fl, k);
      ListBound(s, k);
    }
  }

  /**
   * Stores into the payload of a block (memset, memcpy) keep the metadata
   * and every other block's payload.
   */
  lemma PayloadLaid(s: HeapView, m: seq<int>, i: int, m2: seq<int>, lo: int, hi: int)
    requires Laid(s, m) && 0 <= i < |s.layout|
    requires s.layout[i].addr + METADATA_SIZE <= lo <= hi <= FooterAt(s.layout[i])
    requires SameOutside(m, m2, lo, hi)
    ensures Laid(s, m2) && PayloadsKept(m, m2, s.layout, s.layout[i].addr)
  {
    var v := s.layout;
    var b := v[i];
    assert SameOutside(m, m2, b.addr + METADATA_SIZE, FooterAt(b));
    PayloadStamped(s, m, i, m2);
    assert SameOutside(m, m2, b.addr, End(b));
    KeptOutside(m, m2, v, s.start, s.top, i, i + 1);
  }

  /** A memory changed only inside the payload of block `i` holds the same layout. */
  lemma PayloadStamped(s: HeapView, m: seq<int>, i: int, m2: seq<int>)
    requires Laid(s, m) && 0 <= i < |s.layout|
    requires SameOutside(m, m2, s.layout[i].addr + METADATA_SIZE, FooterAt(s.layout[i]))
    ensures Laid(s, m2)
  {
    var v := s.layout;
    var b := v[i];
    Neighbours(v, s.start, s.top, i);
    assert Stamp(m, b);
    assert Stamp(m2, b);
    assert Stamped(m2, [b]);
    StampedSplice(m, m2, v, s.start, s.top, i, i + 1, [b]);
    assert v[..i] + [b] + v[i + 1..] == v;
  }

  /** ... and, when the block is not on the free list, every link. */
  lemma PayloadLinks(s: HeapView, m: seq<int>, head: int, i: int, m2: seq<int>, lo: int, hi: int)
    requires Shaped(s) && ListOk(s) && Linked(m, head, s.freeList)
    requires 0 <= i < |s.layout| && s.layout[i].addr !in s.freeList
    requires s.layout[i].addr + METADATA_SIZE <= lo <= hi <= FooterAt(s.layout[i])
    requires SameOutside(m, m2, lo, hi)
    ensures Linked(m2, head, s.freeList)
  {
    var b := s.layout[i];
    NodesBeside(s, i, i);
    assert SameOutside(m, m2, b.addr, End(b));
    LinkedOutside(m, m2, head, s.freeList, b.addr, End(b));
  }

  /** The memory after the push of merge_block: the block's next field, then the old head's prev field. */
  function PushMem(m: seq<int>, p: int, head: int): seq<int>
  {
    var m1 := Put(m, Store(p, NEXT_FIELD, head));
    if head != NULL then Put(m1, Store(head, PREV_FIELD, p)) else m1
  }

  /** Pushing a node that is apart from the list's nodes links it in front of them. */
  lemma PushLinked(fl: seq<int>, m: seq<int>, p: int, head: int)
    requires Spread([p] + fl, |m|) && Linked(m, head, fl)
    ensures Linked(PushMem(m, p, head), p, [p] + fl)
  {
    var m2 := PushMem(m, p, head);
    var r := [p] + fl;
    assert r[0] == p;
    forall j | 0 <= j < |r|
      ensures Nexts(m2, r)[j] == NextNode(r, j)
      ensures j > 0 ==> Prevs(m2, r)[j] == r[j - 1]
    {
      if j > 0 {
        assert r[j] == fl[j - 1];
        LinkedAt(m, head, fl, j - 1);
      }
    }
  }

  /** mark_block_free on the block at `p`. */
  function FlagStore(m: seq<int>, p: int): seq<int>
    requires 0 <= p && p + FLAG_FIELD < |m|
  {
    m[p + FLAG_FIELD := 1]
  }

  /** The view with block `i` flagged free. */
  function Flip(s: HeapView, i: int): HeapView
    requires 0 <= i < |s.layout|
  {
    s.(layout := s.layout[i := s.layout[i].(isFree := true)])
  }

  /** The view with block `i` flagged free and pushed on the free list. */
  function PushView(s: HeapView, i: int): HeapView
    requires 0 <= i < |s.layout|
  {
    Flip(s, i).(freeList := [s.layout[i].addr] + s.freeList)
  }

  /** mark_block_free writes one cell of the block's header. */
  lemma FlipStamp(m: seq<int>, b: Block)
    requires 0 < b.addr && b.size > 0 && End(b) <= |m| && Stamp(m, b)
    ensures var m1 := FlagStore(m, b.addr);
      && Stamp(m1, b.(isFree := true)) && SameOutside(m, m1, b.addr + FLAG_FIELD, b.addr + FLAG_FIELD + 1)
  {
  }

  /** mark_block_free: the block's flag reads free. */
  lemma FlipLaid(s: HeapView, m: seq<int>, i: int)
    requires Laid(s, m) && 0 <= i < |s.layout|
    ensures 0 < s.layout[i].addr && s.layout[i].addr + METADATA_SIZE <= |m|
    ensures Laid(Flip(s, i), FlagStore(m, s.layout[i].addr))
  {
    var v := s.layout;
    var b := v[i];
    Neighbours(v, s.start, s.top, i);
    var m1 := FlagStore(m, b.addr);
    var nb := b.(isFree := true);
    assert Stamp(m, b);
    FlipStamp(m, b);
    assert SameOutside(m, m1, b.addr, End(b));
    StampedUpdate(m, m1, v, s.start, s.top, i, nb);
    TiledUpdate(v, s.start, s.top, i, nb);
    Relaid(s, m1, v[i := nb]);
  }

  /** ... and every payload stays. */
  lemma FlipKept(s: HeapView, m: seq<int>, i: int)
    requires Shaped(s) && |m| == s.top && 0 <= i < |s.layout|
    ensures 0 < s.layout[i].addr && s.layout[i].addr + METADATA_SIZE <= |m|
    ensures AllKept(m, FlagStore(m, s.layout[i].addr), s.layout)
  {
    var v := s.layout;
    var b := v[i];
    Neighbours(v, s.start, s.top, i);
    var m1 := FlagStore(m, b.addr);
    assert SameOutside(m, m1, b.addr, End(b));
    KeptOutside(m, m1, v, s.start, s.top, i, i + 1);
    KeptBy(m, m1, b);
  }

  /** mark_block_used on the block at `p`. */
  function UsedStore(m: seq<int>, p: int): seq<int>
    requires 0 <= p && p + FLAG_FIELD < |m|
  {
    m[p + FLAG_FIELD := 0]
  }

  /** mark_block_used: the block's flag reads in use, and every payload stays. */
  lemma UsedLaid(s: HeapView, m: seq<int>, i: int)
    requires Laid(s, m) && 0 <= i < |s.layout|
    ensures 0 < s.layout[i].addr && s.layout[i].addr + METADATA_SIZE <= |m|
    ensures Laid(s.(layout := s.layout[i := s.layout[i].(isFree := false)]), UsedStore(m, s.layout[i].addr))
    ensures AllKept(m, UsedStore(m, s.layout[i].addr), s.layout)
  {
    var v := s.layout;
    var b := v[i];
    Neighbours(v, s.start, s.top, i);
    var m1 := UsedStore(m, b.addr);
    var nb := b.(isFree := false);
    assert Stamp(m, b);
    UsedStamped(s, m, i, m1);
    TiledUpdate(v, s.start, s.top, i, nb);
    Relaid(s, m1, v[i := nb]);
    UsedKept(s, m, i, m1);
  }

  lemma UsedStamped(s: HeapView, m: seq<int>, i: int, m1: seq<int>)
    requires Laid(s, m) && 0 <= i < |s.layout| && Stamp(m, s.layout[i])
    requires 0 < s.layout[i].addr && s.layout[i].addr + METADATA_SIZE <= |m| && m1 == UsedStore(m, s.layout[i].addr)
    ensures Stamped(m1, s.layout[i := s.layout[i].(isFree := false)])
  {
    var b := s.layout[i];
    assert Stamp(m1, b.(isFree := false));
    assert SameOutside(m, m1, b.addr, End(b));
    StampedUpdate(m, m1, s.layout, s.start, s.top, i, b.(isFree := false));
  }

  lemma UsedKept(s: HeapView, m: seq<int>, i: int, m1: seq<int>)
    requires Shaped(s) && 0 <= i < |s.layout|
    requires 0 < s.layout[i].addr && s.layout[i].addr + METADATA_SIZE <= |m| && m1 == UsedStore(m, s.layout[i].addr)
    ensures AllKept(m, m1, s.layout)
  {
    var b := s.layout[i];
    Within(s.layout, s.start, s.top, i);
    assert SameOutside(m, m1, b.addr, End(b));
    KeptOutside(m, m1, s.layout, s.start, s.top, i, i + 1);
    KeptBy(m, m1, b);
  }

  lemma FlipAddrs(s: HeapView, i: int)
    requires 0 <= i < |s.layout|
    ensures Addrs(Flip(s, i).layout) == Addrs(s.layout)
  {
  }

  /**
   * The stores of merge_block after the flag: the block's next field gets
   * the old head and, when there is one, the old head's prev field gets
   * the block. They keep the metadata and every payload.
   */
  lemma PushLaid(t: HeapView, m: seq<int>, head: int)
    requires Laid(t, m) && ListOk(t) && |t.freeList| > 0
    requires head == (if |t.freeList| > 1 then t.freeList[1] else NULL)
    ensures 0 < t.freeList[0] && t.freeList[0] + METADATA_SIZE <= |m|
    ensures head != NULL ==> 0 < head && head + METADATA_SIZE <= |m|
    ensures PushMem(m, t.freeList[0], head) ==
      (if head != NULL then m[t.freeList[0] + NEXT_FIELD := head][head + PREV_FIELD := t.freeList[0]]
       else m[t.freeList[0] + NEXT_FIELD := head])
    ensures Laid(t, PushMem(m, t.freeList[0], head))
    ensures AllKept(m, PushMem(m, t.freeList[0], head), t.layout)
  {
    var fl := t.freeList;
    var p := fl[0];
    ListBound(t, 0);
    LinkWrite(t, m, p, NEXT_FIELD, head);
    if head != NULL {
      ListBound(t, 1);
      SecondLink(t, m, m[p + NEXT_FIELD := head], head, p);
    }
  }

  lemma SecondLink(t: HeapView, m: seq<int>, m2: seq<int>, head: int, p: int)
    requires Laid(t, m2) && AllKept(m, m2, t.layout) && head in Addrs(t.layout)
    ensures 0 < head && head + PREV_FIELD < |m2|
    ensures Laid(t, m2[head + PREV_FIELD := p]) && AllKept(m, m2[head + PREV_FIELD := p], t.layout)
  {
    LinkWrite(t, m2, head, PREV_FIELD, p);
    AllKeptTrans(m, m2, m2[head + PREV_FIELD := p], t.layout);
  }

  /**
   * The end of merge_block: mark the block free, point its next field at
   * the old head, the old head's prev field at it, and make it the head.
   * The memory then holds the new layout's metadata and every payload.
   */
  lemma PushedLaid(s: HeapView, m: seq<int>, head: int, i: int, p: int)
    requires Laid(s, m) && ListOk(s) && Linked(m, head, s.freeList)
    requires 0 <= i < |s.layout| && p == s.layout[i].addr && p !in s.freeList
    ensures 0 < p && p + METADATA_SIZE <= |m|
    ensures Laid(PushView(s, i), PushMem(FlagStore(m, p), p, head))
    ensures ListOk(PushView(s, i))
  {
    FlipLaid(s, m, i);
    FlipAddrs(s, i);
    var t := PushView(s, i);
    assert Addrs(t.layout)[i] == p;
    assert ListOk(t);
    PushLaid(t, FlagStore(m, p), head);
  }

  lemma PushedKept(s: HeapView, m: seq<int>, head: int, i: int, p: int)
    requires Shaped(s) && |m| == s.top && ListOk(s) && head == (if s.freeList == [] then NULL else s.freeList[0])
    requires 0 <= i < |s.layout| && p == s.layout[i].addr
    ensures 0 < p && p + METADATA_SIZE <= |m|
    ensures head != NULL ==> 0 < head && head + METADATA_SIZE <= |m|
    ensures PushMem(FlagStore(m, p), p, head) ==
      (if head != NULL then FlagStore(m, p)[p + NEXT_FIELD := head][head + PREV_FIELD := p]
       else FlagStore(m, p)[p + NEXT_FIELD := head])
    ensures AllKept(m, PushMem(FlagStore(m, p), p, head), s.layout)
  {
    var v := s.layout;
    FlipKept(s, m, i);
    var m1 := FlagStore(m, p);
    LinkKept(v, s.start, s.top, m1, i, NEXT_FIELD, head);
    var m2 := m1[p + NEXT_FIELD := head];
    AllKeptTrans(m, m1, m2, v);
    if head != NULL {
      ListBound(s, 0);
      InAddrs(v, head);
      var j := IndexOf(v, head);
      LinkKept(v, s.start, s.top, m2, j, PREV_FIELD, p);
      AllKeptTrans(m, m2, m2[head + PREV_FIELD := p], v);
    }
  }

  /** A store into a link field keeps every payload. */
  lemma LinkKept(v: seq<Block>, from: int, to: int, mem: seq<int>, i: int, d: int, val: int)
    requires Tiled(v, from, to) && 0 <= i < |v| && (d == NEXT_FIELD || d == PREV_FIELD)
    requires 0 <= v[i].addr + d < |mem|
    ensures AllKept(mem, mem[v[i].addr + d := val], v)
  {
    forall j | 0 <= j < |v|
      ensures BlockKept(mem, mem[v[i].addr + d := val], v[j])
    {
      LinkWriteAt(v, from, to, mem, i, j, d, val);
    }
  }

  /** ... and the free list, with the block in front, is linked from it. */
  lemma PushedLinked(s: HeapView, m: seq<int>, head: int, i: int, p: int)
    requires Laid(s, m) && ListOk(s) && Linked(m, head, s.freeList)
    requires 0 <= i < |s.layout| && p == s.layout[i].addr && p !in s.freeList
    ensures 0 < p && p + METADATA_SIZE <= |m|
    ensures Linked(PushMem(FlagStore(m, p), p, head), p, [p] + s.freeList)
  {
    Neighbours(s.layout, s.start, s.top, i);
    MetaWriteLinks(s, m, head, i, p + FLAG_FIELD, 1);
    PushSpread(s, i, p);
    PushLinked(s.freeList, FlagStore(m, p), p, head);
  }

  /** A block not on the free list, put in front of it, keeps the nodes apart. */
  lemma PushSpread(s: HeapView, i: int, p: int)
    requires Shaped(s) && ListOk(s) && 0 <= i < |s.layout| && p == s.layout[i].addr && p !in s.freeList
    ensures Spread([p] + s.freeList, s.top)
  {
    var t := PushView(s, i);
    TiledUpdate(s.layout, s.start, s.top, i, s.layout[i].(isFree := true));
    FlipAddrs(s, i);
    assert Addrs(t.layout)[i] == p;
    assert ListOk(t);
    SpreadOf(t);
  }

  /** Payloads kept over a layout that differs from another only in free flags. */
  lemma KeptAcross(m1: seq<int>, m2: seq<int>, m3: seq<int>, v: seq<Block>, w: seq<Block>)
    requires |v| == |w| && forall j :: 0 <= j < |v| ==> v[j].addr == w[j].addr && v[j].size == w[j].size
    requires AllKept(m1, m2, v) && AllKept(m2, m3, w)
    ensures AllKept(m1, m3, v)
  {
    forall j | 0 <= j < |v|
      ensures BlockKept(m1, m3, v[j])
    {
      assert BlockKept(m1, m2, v[j]) && BlockKept(m2, m3, w[j]);
    }
  }
}
