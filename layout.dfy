/**
 * The heap as the allocator's metadata describes it: the blocks that tile the
 * region from the heap start to the program break, in address order, and the
 * free list, an unordered LIFO chain of block addresses rooted at its head.
 */
module Layout {
  import opened Codec

  /** One block: its header address, the payload size in its header, its free flag. */
  datatype Block = Block(addr: int, size: int, isFree: bool)

  /**
   * The whole allocator state: the captured heap start (NULL until the first
   * allocation), the program break, the blocks in address order and the free
   * list from the head (`metadata_head`) onwards.
   */
  datatype HeapView = HeapView(start: int, top: int, layout: seq<Block>, freeList: seq<int>)

  /** The address just past a block's footer: its right neighbour's header. */
  function End(b: Block): int
  {
    b.addr + OVERHEAD + b.size
  }

  /** Where a block's footer, the trailing copy of its size, sits. */
  function FooterAt(b: Block): int
  {
    b.addr + METADATA_SIZE + b.size
  }

  /** The blocks cover [from, to) back to back, each with a positive size. */
  ghost predicate Tiled(layout: seq<Block>, from: int, to: int)
  {
    && (|layout| == 0 ==> from == to)
    && (|layout| > 0 ==> layout[0].addr == from && End(layout[|layout| - 1]) == to)
    && (forall j :: 0 <= j < |layout| ==> layout[j].size > 0)
    && (forall j {:trigger End(layout[j])} :: 0 <= j < |layout| - 1 ==> End(layout[j]) == layout[j + 1].addr)
  }

  function Addrs(layout: seq<Block>): (a: seq<int>)
    ensures |a| == |layout|
    ensures forall j :: 0 <= j < |layout| ==> a[j] == layout[j].addr
  {
    seq(|layout|, j requires 0 <= j < |layout| => layout[j].addr)
  }

  ghost predicate NoDup(xs: seq<int>)
  {
    forall i, j :: 0 <= i < j < |xs| ==> xs[i] != xs[j]
  }

  /** The blocks tile the heap from its start to the program break. */
  ghost predicate Shaped(s: HeapView)
  {
    && 0 < s.top
    && (s.start == NULL ==> s.layout == [] && s.freeList == [])
    && (s.start != NULL ==> 0 < s.start <= s.top && Tiled(s.layout, s.start, s.top))
  }

  /** The free list holds distinct block addresses. */
  ghost predicate ListOk(s: HeapView)
  {
    && NoDup(s.freeList)
    && (forall k :: 0 <= k < |s.freeList| ==> s.freeList[k] in Addrs(s.layout))
  }

  /** ... and `ex` is not among them. */
  ghost predicate Listed(s: HeapView, ex: int)
  {
    ListOk(s) && ex !in s.freeList
  }

  /** A block other than `ex` is flagged free exactly when it is on the free list. */
  ghost predicate Flagged(s: HeapView, ex: int)
  {
    forall j :: 0 <= j < |s.layout| && s.layout[j].addr != ex ==>
      (s.layout[j].isFree <==> s.layout[j].addr in s.freeList)
  }

  /**
   * The allocator's invariant. `ex` names at most one block whose free flag
   * is not reliable (a block being released, or a split remainder whose
   * header has not been marked yet); it is never on the free list.
   */
  ghost predicate WellFormed(s: HeapView, ex: int)
  {
    Shaped(s) && Listed(s, ex) && Flagged(s, ex)
  }

  /** Blocks lie in ascending, non-overlapping order. */
  lemma {:induction false} Ascending(layout: seq<Block>, from: int, to: int, j: int, k: int)
    requires Tiled(layout, from, to) && 0 <= j < k < |layout|
    ensures End(layout[j]) <= layout[k].addr
  {
    assert End(layout[k - 1]) == layout[k].addr;
    if k > j + 1 {
      Ascending(layout, from, to, j, k - 1);
    }
  }

  /** Every block lies within [from, to). */
  lemma {:induction false} Within(layout: seq<Block>, from: int, to: int, j: int)
    requires Tiled(layout, from, to) && 0 <= j < |layout|
    ensures from <= layout[j].addr && End(layout[j]) <= to
  {
    if j > 0 {
      Ascending(layout, from, to, 0, j);
    }
    if j < |layout| - 1 {
      Ascending(layout, from, to, j, |layout| - 1);
    }
  }

  /** Two different blocks of a tiling lie one wholly before the other. */
  lemma Apart(layout: seq<Block>, from: int, to: int, j: int, k: int)
    requires Tiled(layout, from, to) && 0 <= j < |layout| && 0 <= k < |layout| && j != k
    ensures End(layout[j]) <= layout[k].addr || End(layout[k]) <= layout[j].addr
  {
    if j < k {
      Ascending(layout, from, to, j, k);
    } else {
      Ascending(layout, from, to, k, j);
    }
  }

  /** Two blocks of a tiling that share a byte are the same block. */
  lemma SameOwner(layout: seq<Block>, from: int, to: int, j: int, k: int, a: int)
    requires Tiled(layout, from, to) && 0 <= j < |layout| && 0 <= k < |layout|
    requires layout[j].addr <= a < End(layout[j]) && layout[k].addr <= a < End(layout[k])
    ensures j == k
  {
    if j < k {
      Ascending(layout, from, to, j, k);
    } else if k < j {
      Ascending(layout, from, to, k, j);
    }
  }

  /** The index of the first block with header address `a`, or |layout| if none. */
  function IndexOf(layout: seq<Block>, a: int): (j: nat)
    ensures j <= |layout|
    ensures j < |layout| ==> layout[j].addr == a
    ensures forall k :: 0 <= k < j ==> layout[k].addr != a
  {
    if |layout| == 0 then 0
    else if layout[0].addr == a then 0
    else 1 + IndexOf(layout[1..], a)
  }

  lemma IndexOfTiled(layout: seq<Block>, from: int, to: int, j: int)
    requires Tiled(layout, from, to) && 0 <= j < |layout|
    ensures IndexOf(layout, layout[j].addr) == j
  {
    var k := IndexOf(layout, layout[j].addr);
    if k < j {
      Ascending(layout, from, to, k, j);
    }
  }

  lemma InAddrs(layout: seq<Block>, a: int)
    requires a in Addrs(layout)
    ensures IndexOf(layout, a) < |layout|
  {
    var j :| 0 <= j < |layout| && Addrs(layout)[j] == a;
    assert IndexOf(layout, a) <= j;
  }

  /** The payload size recorded for the block at `a` (0 when there is none). */
  function SizeAt(layout: seq<Block>, a: int): int
  {
    var j := IndexOf(layout, a);
    if j < |layout| then layout[j].size else 0
  }

  /** The sum of the footprints of the blocks. */
  function Footprint(layout: seq<Block>): int
  {
    if layout == [] then 0 else Footprint(layout[..|layout| - 1]) + OVERHEAD + layout[|layout| - 1].size
  }

  /** Tiling accounts for every byte: the footprints add up to the region's length. */
  lemma {:induction false} TiledFootprint(layout: seq<Block>, from: int, to: int)
    requires Tiled(layout, from, to)
    ensures from + Footprint(layout) == to
  {
    if |layout| > 0 {
      var n := |layout| - 1;
      var init := layout[..n];
      var mid := if n == 0 then from else End(layout[n - 1]);
      assert Tiled(init, from, mid);
      TiledFootprint(init, from, mid);
    }
  }

  /**
   * Replacing the run of blocks [i, k) by blocks that tile the same bytes
   * keeps the whole tiling.
   */
  lemma Splice(layout: seq<Block>, from: int, to: int, i: int, k: int, mid: seq<Block>)
    requires Tiled(layout, from, to) && 0 <= i < k <= |layout|
    requires Tiled(mid, layout[i].addr, End(layout[k - 1]))
    ensures Tiled(layout[..i] + mid + layout[k..], from, to)
  {
    var r := layout[..i] + mid + layout[k..];
    var n := |mid|;
    forall j | 0 <= j < |r| - 1
      ensures End(r[j]) == r[j + 1].addr
    {
      if j < i - 1 || (i <= j < i + n - 1) || j >= i + n {
      } else if j == i - 1 {
        if n == 0 {
          assert layout[i].addr == End(layout[k - 1]);
          if k < |layout| {
            Ascending(layout, from, to, i, k - 1);
          }
          assert false;
        }
      } else {
        assert j == i + n - 1;
        if n == 0 {
          assert false;
        }
      }
    }
  }

  /** A tiling stays one when only the free flags of its blocks change. */
  lemma Retagged(a: seq<Block>, b: seq<Block>, from: int, to: int)
    requires Tiled(a, from, to) && |a| == |b|
    requires forall j :: 0 <= j < |a| ==> b[j].addr == a[j].addr && b[j].size == a[j].size
    ensures Tiled(b, from, to)
  {
    forall j | 0 <= j < |b| - 1
      ensures End(b[j]) == b[j + 1].addr
    {
      assert End(a[j]) == a[j + 1].addr;
    }
  }

  /** A block appended at the old end extends the tiling to its own end. */
  lemma Append(layout: seq<Block>, from: int, to: int, b: Block)
    requires Tiled(layout, from, to) && b.addr == to && b.size > 0
    ensures Tiled(layout + [b], from, End(b))
  {
  }
}
