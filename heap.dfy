/**
 * The allocator as the program runs it: a memory of cells indexed by byte
 * address up to the program break, block headers and footers written into
 * it, the heap start and the free list head as variables, and the stores
 * of remove_block_node on them.
 *
 * A 4-byte field of a header (size, free flag, next, prev) or a footer
 * lives in the cell at its first byte address; a payload byte is one cell.
 * The abstract state of `Layout` is kept in ghost fields, and the
 * invariant says that the memory holds what it describes.
 */
module Heap {
  import opened Codec
  import opened Layout
  import opened FreeList
  import opened Engine

  /** The value stored at address `a`; 0 outside the memory. */
  function Cell(mem: seq<int>, a: int): int
  {
    if 0 <= a < |mem| then mem[a] else 0
  }

  /** The header of `b` holds its size and free flag, and its footer holds its size. */
  ghost predicate Stamp(mem: seq<int>, b: Block)
  {
    && Cell(mem, b.addr + SIZE_FIELD) == b.size
    && (Cell(mem, b.addr + FLAG_FIELD) != 0 <==> b.isFree)
    && Cell(mem, FooterAt(b)) == b.size
  }

  /** The memory holds the metadata of every block. */
  ghost predicate Stamped(mem: seq<int>, layout: seq<Block>)
  {
    forall j :: 0 <= j < |layout| ==> Stamp(mem, layout[j])
  }

  /** The next fields of the nodes of `fl`. */
  ghost function Nexts(mem: seq<int>, fl: seq<int>): (r: seq<int>)
    ensures |r| == |fl|
    ensures forall k {:trigger r[k]} :: 0 <= k < |fl| ==> r[k] == Cell(mem, fl[k] + NEXT_FIELD)
  {
    seq(|fl|, k requires 0 <= k < |fl| => Cell(mem, fl[k] + NEXT_FIELD))
  }

  /** The prev fields of the nodes of `fl`. */
  ghost function Prevs(mem: seq<int>, fl: seq<int>): (r: seq<int>)
    ensures |r| == |fl|
    ensures forall k {:trigger r[k]} :: 0 <= k < |fl| ==> r[k] == Cell(mem, fl[k] + PREV_FIELD)
  {
    seq(|fl|, k requires 0 <= k < |fl| => Cell(mem, fl[k] + PREV_FIELD))
  }

  /** The node after position `k` of the list, NULL after the last. */
  function NextNode(fl: seq<int>, k: int): int
    requires 0 <= k < |fl|
  {
    if k + 1 < |fl| then fl[k + 1] else NULL
  }

  /**
   * The next fields chain the free list from `head`, ending in NULL; each
   * node after the first has its predecessor in its prev field. (The head's
   * prev field is not kept: merge_block never resets it.)
   */
  ghost predicate Linked(mem: seq<int>, head: int, fl: seq<int>)
  {
    && head == (if fl == [] then NULL else fl[0])
    && (forall k :: 0 <= k < |fl| ==> Nexts(mem, fl)[k] == NextNode(fl, k))
    && (forall k :: 0 < k < |fl| ==> Prevs(mem, fl)[k] == fl[k - 1])
  }

  /** The links of one node of a linked list. */
  lemma LinkedAt(mem: seq<int>, head: int, fl: seq<int>, k: int)
    requires Linked(mem, head, fl) && 0 <= k < |fl|
    ensures Cell(mem, fl[k] + NEXT_FIELD) == NextNode(fl, k)
    ensures k > 0 ==> Cell(mem, fl[k] + PREV_FIELD) == fl[k - 1]
  {
    assert Nexts(mem, fl)[k] == NextNode(fl, k);
    if k > 0 {
      assert Prevs(mem, fl)[k] == fl[k - 1];
    }
  }

  /** The payload of every block in use other than `ex` holds the same bytes in both memories. */
  ghost predicate PayloadsKept(m1: seq<int>, m2: seq<int>, layout: seq<Block>, ex: int)
  {
    forall j :: 0 <= j < |layout| && !layout[j].isFree && layout[j].addr != ex ==> BlockKept(m1, m2, layout[j])
  }

  ghost predicate BlockKept(m1: seq<int>, m2: seq<int>, b: Block)
  {
    Payload(m1, b) == Payload(m2, b)
  }

  /** The payload bytes of `b` in memory `m`, from just after the header to the footer. */
  ghost function Payload(m: seq<int>, b: Block): seq<int>
  {
    seq(if b.size < 0 then 0 else b.size, k => Cell(m, b.addr + METADATA_SIZE + k))
  }

  /** A block whose payload bytes all read the same in both memories is kept. */
  lemma KeptBy(m1: seq<int>, m2: seq<int>, b: Block)
    requires forall x :: b.addr + METADATA_SIZE <= x < FooterAt(b) ==> Cell(m2, x) == Cell(m1, x)
    ensures BlockKept(m1, m2, b)
  {
    var p1, p2 := Payload(m1, b), Payload(m2, b);
    forall k | 0 <= k < |p1|
      ensures p1[k] == p2[k]
    {
      assert Cell(m2, b.addr + METADATA_SIZE + k) == Cell(m1, b.addr + METADATA_SIZE + k);
    }
  }

  /** A kept block reads the same at each of its payload bytes. */
  lemma KeptCell(m1: seq<int>, m2: seq<int>, b: Block, x: int)
    requires BlockKept(m1, m2, b) && b.addr + METADATA_SIZE <= x < FooterAt(b)
    ensures Cell(m2, x) == Cell(m1, x)
  {
    assert Payload(m1, b)[x - b.addr - METADATA_SIZE] == Payload(m2, b)[x - b.addr - METADATA_SIZE];
  }

  /** Cells in two different blocks of a tiling are different cells. */
  lemma Separate(v: seq<Block>, from: int, to: int, j: int, k: int, dx: int, dy: int)
    requires Tiled(v, from, to) && 0 <= j < |v| && 0 <= k < |v| && j != k
    requires 0 <= dx < OVERHEAD + v[j].size && 0 <= dy < OVERHEAD + v[k].size
    ensures v[j].addr + dx != v[k].addr + dy
  {
    Apart(v, from, to, j, k);
  }

  /** Header fields of blocks are distinct cells unless they are the same field. */
  lemma HeaderCells(v: seq<Block>, from: int, to: int, j: int, k: int, dx: int, dy: int)
    requires Tiled(v, from, to) && 0 <= j < |v| && 0 <= k < |v|
    requires 0 <= dx < METADATA_SIZE && 0 <= dy < METADATA_SIZE
    ensures v[j].addr + dx == v[k].addr + dy <==> j == k && dx == dy
  {
    if j != k {
      Separate(v, from, to, j, k, dx, dy);
    }
  }

  /** A footer is never a header field of any block. */
  lemma FooterCell(v: seq<Block>, from: int, to: int, j: int, k: int, dy: int)
    requires Tiled(v, from, to) && 0 <= j < |v| && 0 <= k < |v|
    requires 0 <= dy < METADATA_SIZE
    ensures FooterAt(v[j]) != v[k].addr + dy
    ensures j != k ==> FooterAt(v[j]) != FooterAt(v[k])
  {
    if j != k {
      Separate(v, from, to, j, k, METADATA_SIZE + v[j].size, dy);
      Separate(v, from, to, j, k, METADATA_SIZE + v[j].size, METADATA_SIZE + v[k].size);
    }
  }

  /** A payload byte is neither a header field nor a footer of any block. */
  lemma PayloadCell(v: seq<Block>, from: int, to: int, j: int, x: int, k: int, dy: int)
    requires Tiled(v, from, to) && 0 <= j < |v| && 0 <= k < |v|
    requires v[j].addr + METADATA_SIZE <= x < FooterAt(v[j]) && 0 <= dy < METADATA_SIZE
    ensures x != FooterAt(v[k]) && x != v[k].addr + dy
  {
    if j != k {
      Separate(v, from, to, j, k, x - v[j].addr, METADATA_SIZE + v[k].size);
      Separate(v, from, to, j, k, x - v[j].addr, dy);
    }
  }

  /** Where a block's neighbours are, in a tiling. */
  lemma Neighbours(v: seq<Block>, from: int, to: int, i: int)
    requires Tiled(v, from, to) && 0 <= i < |v|
    ensures i == 0 ==> v[i].addr == from
    ensures i > 0 ==> v[i].addr - METADATA_SIZE >= from && FooterAt(v[i - 1]) == v[i].addr - FOOTER_SIZE
    ensures i > 0 ==> v[i - 1].addr == v[i].addr - (FOOTER_SIZE + v[i - 1].size + METADATA_SIZE)
    ensures i + 1 < |v| ==> End(v[i]) == v[i + 1].addr && End(v[i]) + METADATA_SIZE < to
    ensures i + 1 == |v| ==> End(v[i]) == to
    ensures from <= v[i].addr && End(v[i]) <= to
  {
    Within(v, from, to, i);
    if i > 0 {
      Within(v, from, to, i - 1);
    }
    if i + 1 < |v| {
      Within(v, from, to, i + 1);
    }
  }

  /** What get_left_block reads when the block at `p` is in the heap. */
  lemma LeftOf(s: HeapView, mem: seq<int>, p: int)
    requires Laid(s, mem) && p in Addrs(s.layout)
    ensures var v := s.layout; var i := IndexOf(v, p);
      && i < |v| && 0 < p && p + METADATA_SIZE <= |mem|
      && (i == 0 <==> p - METADATA_SIZE < s.start)
      && (i > 0 ==>
        && 0 <= p - FOOTER_SIZE < |mem|
        && v[i - 1].addr == p - (FOOTER_SIZE + mem[p - FOOTER_SIZE] + METADATA_SIZE)
        && 0 < v[i - 1].addr && v[i - 1].addr + METADATA_SIZE <= |mem|
        && (mem[v[i - 1].addr + FLAG_FIELD] != 0 <==> v[i - 1].isFree))
  {
    var v := s.layout;
    InAddrs(v, p);
    var i := IndexOf(v, p);
    Neighbours(v, s.start, s.top, i);
    if i > 0 {
      LeftFooter(v, mem, s.start, s.top, i);
    }
  }

  lemma LeftFooter(v: seq<Block>, mem: seq<int>, from: int, to: int, i: int)
    requires Tiled(v, from, to) && 0 < from && |mem| == to && 0 < i < |v|
    requires Cell(mem, FooterAt(v[i - 1])) == v[i - 1].size
    requires v[i - 1].isFree == (Cell(mem, v[i - 1].addr + FLAG_FIELD) != 0)
    ensures var p := v[i].addr;
      && 0 <= p - FOOTER_SIZE < |mem|
      && v[i - 1].addr == p - (FOOTER_SIZE + mem[p - FOOTER_SIZE] + METADATA_SIZE)
      && 0 < v[i - 1].addr && v[i - 1].addr + METADATA_SIZE <= |mem|
      && (mem[v[i - 1].addr + FLAG_FIELD] != 0 <==> v[i - 1].isFree)
  {
    Within(v, from, to, i - 1);
  }

  /** What get_right_block reads when the block at `p` is in the heap. */
  lemma RightOf(s: HeapView, mem: seq<int>, p: int)
    requires Laid(s, mem) && p in Addrs(s.layout)
    ensures var v := s.layout; var i := IndexOf(v, p);
      && i < |v| && 0 < p && p + METADATA_SIZE <= |mem|
      && var right := p + METADATA_SIZE + mem[p + SIZE_FIELD] + FOOTER_SIZE;
      && (i + 1 < |v| <==> right + METADATA_SIZE < |mem|)
      && (i + 1 < |v| ==>
        && v[i + 1].addr == right && 0 < right
        && (mem[right + FLAG_FIELD] != 0 <==> v[i + 1].isFree))
  {
    var v := s.layout;
    InAddrs(v, p);
    var i := IndexOf(v, p);
    assert Stamp(mem, v[i]);
    if i + 1 < |v| {
      assert Stamp(mem, v[i + 1]);
    }
    RightNeighbour(v, mem, s.start, s.top, i, p);
  }

  lemma RightNeighbour(v: seq<Block>, mem: seq<int>, from: int, to: int, i: int, p: int)
    requires Tiled(v, from, to) && 0 < from && |mem| == to && 0 <= i < |v| && v[i].addr == p
    requires Stamp(mem, v[i]) && (i + 1 < |v| ==> Stamp(mem, v[i + 1]))
    ensures 0 < p && p + METADATA_SIZE <= |mem|
    ensures var right := p + METADATA_SIZE + mem[p + SIZE_FIELD] + FOOTER_SIZE;
      && (i + 1 < |v| <==> right + METADATA_SIZE < |mem|)
      && (i + 1 < |v| ==>
        && v[i + 1].addr == right && 0 < right
        && (mem[right + FLAG_FIELD] != 0 <==> v[i + 1].isFree))
  {
    Neighbours(v, from, to, i);
    if i + 1 < |v| {
      Neighbours(v, from, to, i + 1);
    }
  }

  /** The memory holds the headers and footers of the blocks of `s`, up to its break. */
  ghost predicate Laid(s: HeapView, mem: seq<int>)
  {
    Stamped(mem, s.layout) && |mem| == s.top && Shaped(s)
  }

  /** The payload of every block holds the same bytes in both memories. */
  ghost predicate AllKept(m1: seq<int>, m2: seq<int>, layout: seq<Block>)
  {
    forall j :: 0 <= j < |layout| ==> BlockKept(m1, m2, layout[j])
  }

  lemma AllKeptTrans(m1: seq<int>, m2: seq<int>, m3: seq<int>, layout: seq<Block>)
    requires AllKept(m1, m2, layout) && AllKept(m2, m3, layout)
    ensures AllKept(m1, m3, layout)
  {
    forall j | 0 <= j < |layout|
      ensures BlockKept(m1, m3, layout[j])
    {
      assert BlockKept(m1, m2, layout[j]) && BlockKept(m2, m3, layout[j]);
    }
  }

  /** No free-list node sits at NULL or reaches the break. */
  lemma ListBound(s: HeapView, k: int)
    requires Shaped(s) && ListOk(s) && 0 <= k < |s.freeList|
    ensures 0 < s.freeList[k] && s.freeList[k] + METADATA_SIZE < s.top
  {
    ListCells(s, k, k, 0, 0);
  }

  lemma NullUnlisted(s: HeapView)
    requires Shaped(s) && ListOk(s)
    ensures NULL !in s.freeList
  {
    forall k | 0 <= k < |s.freeList|
      ensures s.freeList[k] != NULL
    {
      ListBound(s, k);
    }
  }

  /** Header fields of free-list nodes are distinct cells unless they are the same field. */
  lemma ListCells(s: HeapView, k1: int, k2: int, d1: int, d2: int)
    requires Shaped(s) && ListOk(s)
    requires 0 <= k1 < |s.freeList| && 0 <= k2 < |s.freeList| && 0 <= d1 < METADATA_SIZE && 0 <= d2 < METADATA_SIZE
    ensures s.freeList[k1] + d1 == s.freeList[k2] + d2 <==> k1 == k2 && d1 == d2
    ensures 0 < s.freeList[k1] && s.freeList[k1] + METADATA_SIZE < s.top
  {
    var v := s.layout;
    InAddrs(v, s.freeList[k1]);
    InAddrs(v, s.freeList[k2]);
    var j1, j2 := IndexOf(v, s.freeList[k1]), IndexOf(v, s.freeList[k2]);
    HeaderCells(v, s.start, s.top, j1, j2, d1, d2);
    Within(v, s.start, s.top, j1);
  }

  /** A store into a link field of block `i` leaves block `j`'s size, flag, footer and payload alone. */
  lemma LinkWriteAt(v: seq<Block>, from: int, to: int, mem: seq<int>, i: int, j: int, d: int, val: int)
    requires Tiled(v, from, to) && 0 <= i < |v| && 0 <= j < |v| && (d == NEXT_FIELD || d == PREV_FIELD)
    requires 0 <= v[i].addr + d < |mem|
    ensures var m := mem[v[i].addr + d := val];
      && Cell(m, v[j].addr + SIZE_FIELD) == Cell(mem, v[j].addr + SIZE_FIELD)
      && Cell(m, v[j].addr + FLAG_FIELD) == Cell(mem, v[j].addr + FLAG_FIELD)
      && Cell(m, FooterAt(v[j])) == Cell(mem, FooterAt(v[j]))
      && BlockKept(mem, m, v[j])
  {
    var m := mem[v[i].addr + d := val];
    HeaderCells(v, from, to, j, i, SIZE_FIELD, d);
    HeaderCells(v, from, to, j, i, FLAG_FIELD, d);
    FooterCell(v, from, to, j, i, d);
    forall y | v[j].addr + METADATA_SIZE <= y < FooterAt(v[j])
      ensures Cell(m, y) == Cell(mem, y)
    {
      PayloadCell(v, from, to, j, y, i, d);
    }
  }

  /** A store into a link field of a block keeps every block's metadata and payload. */
  lemma LinkWriteAll(v: seq<Block>, from: int, to: int, mem: seq<int>, i: int, x: int, d: int, val: int)
    requires Tiled(v, from, to) && Stamped(mem, v) && 0 <= i < |v| && (d == NEXT_FIELD || d == PREV_FIELD)
    requires v[i].addr == x && 0 <= x + d < |mem|
    ensures Stamped(mem[x + d := val], v) && AllKept(mem, mem[x + d := val], v)
  {
    forall j | 0 <= j < |v|
      ensures Stamp(mem[x + d := val], v[j]) && BlockKept(mem, mem[x + d := val], v[j])
    {
      LinkWriteAt(v, from, to, mem, i, j, d, val);
    }
  }

  /** Writing a link field of a block moves no size, flag, footer or payload. */
  lemma LinkWrite(s: HeapView, mem: seq<int>, x: int, d: int, val: int)
    requires Laid(s, mem) && x in Addrs(s.layout) && (d == NEXT_FIELD || d == PREV_FIELD)
    ensures 0 < x && x + d < |mem|
    ensures Laid(s, mem[x + d := val])
    ensures AllKept(mem, mem[x + d := val], s.layout)
  {
    var v := s.layout;
    InAddrs(v, x);
    var i := IndexOf(v, x);
    Within(v, s.start, s.top, i);
    LinkWriteAll(v, s.start, s.top, mem, i, x, d, val);
  }

  /** A store of `val` into the next or prev field of the header at `node`. */
  datatype Store = Store(node: int, field: int, val: int)

  function Put(m: seq<int>, w: Store): seq<int>
  {
    if 0 <= w.node + w.field < |m| then m[w.node + w.field := w.val] else m
  }

  /** The memory after the stores `ws`, in order. */
  function Stores(m: seq<int>, ws: seq<Store>): seq<int>
    decreases |ws|
  {
    if ws == [] then m else Put(Stores(m, ws[..|ws| - 1]), ws[|ws| - 1])
  }

  lemma Stores2(m: seq<int>, a: Store, b: Store)
    ensures Stores(m, [a, b]) == Put(Put(m, a), b)
  {
    assert [a][..0] == [];
    assert Stores(m, [a]) == Put(m, a);
    assert [a, b][..1] == [a];
  }

  lemma Stores3(m: seq<int>, a: Store, b: Store, c: Store)
    ensures Stores(m, [a, b, c]) == Put(Put(Put(m, a), b), c)
  {
    Stores2(m, a, b);
    assert [a, b, c][..2] == [a, b];
  }

  lemma Stores4(m: seq<int>, a: Store, b: Store, c: Store, d: Store)
    ensures Stores(m, [a, b, c, d]) == Put(Put(Put(Put(m, a), b), c), d)
  {
    assert [a, b, c, d][..3] == [a, b, c];
    Stores3(m, a, b, c);
  }

  /** Stores into link fields of blocks move no size, flag, footer or payload. */
  lemma {:induction false} LinkStores(s: HeapView, m: seq<int>, ws: seq<Store>)
    requires Laid(s, m)
    requires forall i :: 0 <= i < |ws| ==> ws[i].node in Addrs(s.layout) && (ws[i].field == NEXT_FIELD || ws[i].field == PREV_FIELD)
    ensures Laid(s, Stores(m, ws)) && AllKept(m, Stores(m, ws), s.layout)
    decreases |ws|
  {
    if ws != [] {
      var init := ws[..|ws| - 1];
      var w := ws[|ws| - 1];
      LinkStores(s, m, init);
      var mi := Stores(m, init);
      LinkWrite(s, mi, w.node, w.field, w.val);
      AllKeptTrans(m, mi, Stores(m, ws), s.layout);
    }
  }

  /** The nodes of a list have disjoint headers, above NULL and below `top`. */
  ghost predicate Spread(fl: seq<int>, top: int)
  {
    && (forall i :: 0 <= i < |fl| ==> 0 < fl[i] && fl[i] + METADATA_SIZE < top)
    && (forall i, j :: 0 <= i < j < |fl| ==> fl[i] + METADATA_SIZE <= fl[j] || fl[j] + METADATA_SIZE <= fl[i])
  }

  /** The free list of a heap is spread over the heap. */
  lemma SpreadOf(s: HeapView)
    requires Shaped(s) && ListOk(s)
    ensures Spread(s.freeList, s.top)
  {
    var fl := s.freeList;
    forall i | 0 <= i < |fl|
      ensures 0 < fl[i] && fl[i] + METADATA_SIZE < s.top
    {
      ListBound(s, i);
    }
    forall i, j | 0 <= i < j < |fl|
      ensures fl[i] + METADATA_SIZE <= fl[j] || fl[j] + METADATA_SIZE <= fl[i]
    {
      if fl[i] <= fl[j] < fl[i] + METADATA_SIZE {
        ListCells(s, i, j, fl[j] - fl[i], 0);
      } else if fl[j] <= fl[i] < fl[j] + METADATA_SIZE {
        ListCells(s, j, i, fl[i] - fl[j], 0);
      }
    }
  }

  /**
   * remove_block_node on the head of the free list: the second node loses its
   * prev link and becomes the head; the removed node's links are cleared.
   */
  lemma UnlinkHead(fl: seq<int>, m0: seq<int>)
    requires Spread(fl, |m0|) && |fl| > 0 && Linked(m0, fl[0], fl)
    ensures var d := Detach(m0, fl[0], fl[0]); Linked(d.mem, d.head, fl[1..])
  {
    var p := fl[0];
    LinkedAt(m0, p, fl, 0);
    var n := Cell(m0, p + NEXT_FIELD);
    var m1 := if n != NULL then Put(m0, Store(n, PREV_FIELD, NULL)) else m0;
    var m := Put(Put(m1, Store(p, PREV_FIELD, NULL)), Store(p, NEXT_FIELD, NULL));
    var r := fl[1..];
    forall j | 0 <= j < |r|
      ensures Nexts(m, r)[j] == NextNode(r, j)
      ensures j > 0 ==> Prevs(m, r)[j] == r[j - 1]
    {
      LinkedAt(m0, p, fl, j + 1);
    }
    assert Linked(m, n, r);
    assert Detach(m0, p, p) == Chain(m, n);
  }

  /**
   * remove_block_node on a node with both neighbours on the list: each
   * neighbour is linked to the other.
   */
  lemma UnlinkInner(fl: seq<int>, m0: seq<int>, head: int, k: int)
    requires Spread(fl, |m0|) && Linked(m0, head, fl) && 0 < k < |fl| - 1
    ensures Cell(m0, fl[k] + PREV_FIELD) == fl[k - 1] && Cell(m0, fl[k] + NEXT_FIELD) == fl[k + 1]
    ensures var d := Detach(m0, head, fl[k]); Linked(d.mem, d.head, fl[..k] + fl[k + 1..])
  {
    var p, pr, nx := fl[k], fl[k - 1], fl[k + 1];
    LinkedAt(m0, head, fl, k);
    InnerLinked(fl, m0, head, k);
    assert p != head && p != NULL && pr != NULL && nx != NULL;
    assert Detach(m0, head, p) == Chain(InnerMem(m0, pr, nx, p), head);
  }

  lemma InnerLinked(fl: seq<int>, m0: seq<int>, head: int, k: int)
    requires Spread(fl, |m0|) && Linked(m0, head, fl) && 0 < k < |fl| - 1
    ensures Linked(InnerMem(m0, fl[k - 1], fl[k + 1], fl[k]), head, fl[..k] + fl[k + 1..])
  {
    var m := InnerMem(m0, fl[k - 1], fl[k + 1], fl[k]);
    var r := fl[..k] + fl[k + 1..];
    forall j | 0 <= j < |r|
      ensures Nexts(m, r)[j] == NextNode(r, j)
      ensures j > 0 ==> Prevs(m, r)[j] == r[j - 1]
    {
      var o := if j < k then j else j + 1;
      assert r[j] == fl[o];
      LinkedAt(m0, head, fl, o);
      InnerCells(fl, m0, k, o);
      assert NextNode(r, j) == NextNode(fl, o) || o == k - 1;
    }
  }

  /** The memory after remove_block_node unlinks `p` from between `pr` and `nx`. */
  function InnerMem(m0: seq<int>, pr: int, nx: int, p: int): seq<int>
  {
    Put(Put(Put(Put(m0, Store(pr, NEXT_FIELD, nx)), Store(nx, PREV_FIELD, pr)),
      Store(p, PREV_FIELD, NULL)), Store(p, NEXT_FIELD, NULL))
  }

  /** After unlinking an inner node, only its neighbours' facing links have changed. */
  lemma InnerCells(fl: seq<int>, m0: seq<int>, k: int, o: int)
    requires Spread(fl, |m0|) && 0 < k < |fl| - 1 && 0 <= o < |fl| && o != k
    ensures var m := InnerMem(m0, fl[k - 1], fl[k + 1], fl[k]);
      && Cell(m, fl[o] + NEXT_FIELD) == (if o == k - 1 then fl[k + 1] else Cell(m0, fl[o] + NEXT_FIELD))
      && Cell(m, fl[o] + PREV_FIELD) == (if o == k + 1 then fl[k - 1] else Cell(m0, fl[o] + PREV_FIELD))
  {
    var q, p, pr, nx := fl[o], fl[k], fl[k - 1], fl[k + 1];
    assert 0 < q && q + METADATA_SIZE < |m0|;
    assert q != p && (o != k - 1 ==> q != pr) && (o != k + 1 ==> q != nx);
    assert q + METADATA_SIZE <= p || p + METADATA_SIZE <= q;
    assert o != k - 1 ==> q + METADATA_SIZE <= pr || pr + METADATA_SIZE <= q;
    assert o != k + 1 ==> q + METADATA_SIZE <= nx || nx + METADATA_SIZE <= q;
    assert 0 < pr && pr + METADATA_SIZE < |m0| && 0 < nx && nx + METADATA_SIZE < |m0| && 0 < p && p + METADATA_SIZE < |m0|;
  }

  /** remove_block_node on the last node of a list of two or more: its predecessor ends the list. */
  lemma UnlinkLast(fl: seq<int>, m0: seq<int>, head: int)
    requires Spread(fl, |m0|) && Linked(m0, head, fl) && |fl| > 1
    ensures Cell(m0, fl[|fl| - 1] + PREV_FIELD) == fl[|fl| - 2] && Cell(m0, fl[|fl| - 1] + NEXT_FIELD) == NULL
    ensures var d := Detach(m0, head, fl[|fl| - 1]); Linked(d.mem, d.head, fl[..|fl| - 1])
  {
    var k := |fl| - 1;
    var p, pr := fl[k], fl[k - 1];
    LinkedAt(m0, head, fl, k);
    var m := Put(Put(Put(m0, Store(pr, NEXT_FIELD, NULL)), Store(p, PREV_FIELD, NULL)), Store(p, NEXT_FIELD, NULL));
    var r := fl[..k];
    forall j | 0 <= j < |r|
      ensures Nexts(m, r)[j] == NextNode(r, j)
      ensures j > 0 ==> Prevs(m, r)[j] == r[j - 1]
    {
      LinkedAt(m0, head, fl, j);
    }
    assert Linked(m, head, r);
    assert Detach(m0, head, p) == Chain(m, head);
  }

  /** A memory with its free list head. */
  datatype Chain = Chain(mem: seq<int>, head: int)

  /**
   * What remove_block_node does to the memory and the head: a head node
   * hands the head to its successor, an inner node links its neighbours to
   * each other, a last node ends the list at its predecessor; then the
   * node's own links are cleared.
   */
  function Detach(m: seq<int>, head: int, p: int): (d: Chain)
    ensures |d.mem| == |m|
  {
    if p == NULL then Chain(m, head)
    else
      var c := Bypass(m, head, p);
      Chain(Put(Put(c.mem, Store(p, PREV_FIELD, NULL)), Store(p, NEXT_FIELD, NULL)), c.head)
  }

  /** The first half of remove_block_node: the list goes around `p`. */
  function Bypass(m: seq<int>, head: int, p: int): (c: Chain)
    ensures |c.mem| == |m|
  {
    var next, prev := Cell(m, p + NEXT_FIELD), Cell(m, p + PREV_FIELD);
    if p == head then
      Chain(if next != NULL then Put(m, Store(next, PREV_FIELD, NULL)) else m, next)
    else if prev != NULL && next != NULL then
      Chain(Put(Put(m, Store(prev, NEXT_FIELD, next)), Store(next, PREV_FIELD, prev)), head)
    else if prev != NULL then
      Chain(Put(m, Store(prev, NEXT_FIELD, next)), head)
    else
      Chain(m, head)
  }

  /** The state remove_block_node starts from: `p` is a node of a linked free list. */
  ghost predicate Detachable(s: HeapView, m: seq<int>, head: int, p: int)
  {
    Laid(s, m) && ListOk(s) && Linked(m, head, s.freeList) && p in s.freeList
  }

  /**
   * remove_block_node unlinks exactly `p`: the rest of the free list stays
   * linked in order, and no block size, flag, footer or payload changes.
   */
  lemma DetachSpec(s: HeapView, m: seq<int>, head: int, p: int)
    requires Detachable(s, m, head, p)
    ensures var d := Detach(m, head, p);
      Laid(s, d.mem) && AllKept(m, d.mem, s.layout) && Linked(d.mem, d.head, Unlink(s.freeList, p))
  {
    var fl := s.freeList;
    var k :| 0 <= k < |fl| && fl[k] == p;
    UnlinkAt(fl, k);
    if k == 0 {
      assert fl[..k] + fl[k + 1..] == fl[1..];
      DetachHead(s, m);
    } else if k < |fl| - 1 {
      DetachInner(s, m, head, k);
    } else {
      assert fl[..k] + fl[k + 1..] == fl[..k];
      DetachLast(s, m, head);
    }
  }

  /** The stores remove_block_node makes to unlink the head `p`. */
  function HeadStores(m: seq<int>, p: int): (ws: seq<Store>)
    ensures Stores(m, ws) == Detach(m, p, p).mem || p == NULL
  {
    var n := Cell(m, p + NEXT_FIELD);
    var tail := [Store(p, PREV_FIELD, NULL), Store(p, NEXT_FIELD, NULL)];
    if n != NULL then
      var ws := [Store(n, PREV_FIELD, NULL), tail[0], tail[1]];
      Stores3(m, ws[0], ws[1], ws[2]);
      ws
    else
      Stores2(m, tail[0], tail[1]);
      [tail[0], tail[1]]
  }

  /** The stores remove_block_node makes to unlink `p` when it is not the head. */
  function BypassStores(m: seq<int>, head: int, p: int): (ws: seq<Store>)
    ensures Stores(m, ws) == Detach(m, head, p).mem || p == NULL || p == head
    ensures forall i :: 0 <= i < |ws| ==>
      && (ws[i].node == p || ws[i].node == Cell(m, p + NEXT_FIELD) || ws[i].node == Cell(m, p + PREV_FIELD))
      && (ws[i].field == NEXT_FIELD || ws[i].field == PREV_FIELD)
  {
    var next, prev := Cell(m, p + NEXT_FIELD), Cell(m, p + PREV_FIELD);
    var tail := [Store(p, PREV_FIELD, NULL), Store(p, NEXT_FIELD, NULL)];
    if prev != NULL && next != NULL then
      var ws := [Store(prev, NEXT_FIELD, next), Store(next, PREV_FIELD, prev), tail[0], tail[1]];
      Stores4(m, ws[0], ws[1], ws[2], ws[3]);
      ws
    else if prev != NULL then
      var ws := [Store(prev, NEXT_FIELD, next), tail[0], tail[1]];
      Stores3(m, ws[0], ws[1], ws[2]);
      ws
    else
      Stores2(m, tail[0], tail[1]);
      [tail[0], tail[1]]
  }

  lemma DetachHead(s: HeapView, m: seq<int>)
    requires Laid(s, m) && ListOk(s) && |s.freeList| > 0 && Linked(m, s.freeList[0], s.freeList)
    ensures var p := s.freeList[0]; var d := Detach(m, p, p);
      Laid(s, d.mem) && AllKept(m, d.mem, s.layout) && Linked(d.mem, d.head, s.freeList[1..])
  {
    var fl := s.freeList;
    var p := fl[0];
    SpreadOf(s);
    UnlinkHead(s.freeList, m);
    ListBound(s, 0);
    LinkedAt(m, p, fl, 0);
    var ws := HeadStores(m, p);
    if Cell(m, p + NEXT_FIELD) != NULL {
      assert fl[1] in Addrs(s.layout);
    }
    assert p in Addrs(s.layout);
    LinkStores(s, m, ws);
  }

  lemma DetachInner(s: HeapView, m: seq<int>, head: int, k: int)
    requires Laid(s, m) && ListOk(s) && Linked(m, head, s.freeList) && 0 < k < |s.freeList| - 1
    ensures var fl := s.freeList; var d := Detach(m, head, fl[k]);
      Laid(s, d.mem) && AllKept(m, d.mem, s.layout) && Linked(d.mem, d.head, fl[..k] + fl[k + 1..])
  {
    var fl := s.freeList;
    var p, pr, nx := fl[k], fl[k - 1], fl[k + 1];
    SpreadOf(s);
    UnlinkInner(fl, m, head, k);
    var ws := BypassStores(m, head, p);
    assert p != NULL && p != head;
    assert p in Addrs(s.layout) && pr in Addrs(s.layout) && nx in Addrs(s.layout);
    LinkStores(s, m, ws);
  }

  lemma DetachLast(s: HeapView, m: seq<int>, head: int)
    requires Laid(s, m) && ListOk(s) && Linked(m, head, s.freeList) && |s.freeList| > 1
    ensures var fl := s.freeList; var k := |fl| - 1; var d := Detach(m, head, fl[k]);
      Laid(s, d.mem) && AllKept(m, d.mem, s.layout) && Linked(d.mem, d.head, fl[..k])
  {
    var fl := s.freeList;
    var k := |fl| - 1;
    var p, pr := fl[k], fl[k - 1];
    SpreadOf(s);
    UnlinkLast(fl, m, head);
    var ws := BypassStores(m, head, p);
    assert p in Addrs(s.layout) && pr in Addrs(s.layout);
    LinkStores(s, m, ws);
  }

  /** A shorter free list, still linked, keeps the invariants on the same memory. */
  lemma Relisted(s: HeapView, m: seq<int>, head: int, fl: seq<int>)
    requires Laid(s, m) && ListOk(s) && Linked(m, head, fl) && NoDup(fl)
    requires forall y :: y in fl ==> y in s.freeList
    ensures Laid(s.(freeList := fl), m) && ListOk(s.(freeList := fl))
  {
    if fl != [] {
      assert fl[0] in s.freeList;
    }
    forall k | 0 <= k < |fl|
      ensures fl[k] in Addrs(s.layout)
    {
      assert fl[k] in s.freeList;
    }
  }

  /** The cells remove_block_node stores into lie in the memory. */
  predicate Threadable(m: seq<int>, head: int, p: int)
  {
    var next, prev := Cell(m, p + NEXT_FIELD), Cell(m, p + PREV_FIELD);
    && 0 < p && p + METADATA_SIZE <= |m|
    && (next != NULL ==> 0 < next && next + METADATA_SIZE <= |m| && next + PREV_FIELD != p + NEXT_FIELD)
    && (p != head && prev != NULL ==> 0 < prev && prev + METADATA_SIZE <= |m|)
  }

  /** remove_block_node's stores, one at a time, on the memory and head it is given. */
  method Unthread(m0: seq<int>, head0: int, p: int) returns (m: seq<int>, head: int)
    requires Threadable(m0, head0, p)
    ensures Chain(m, head) == Detach(m0, head0, p)
  {
    m, head := m0, head0;
    if p == head {
      if m[p + NEXT_FIELD] != NULL {
        m := m[m[p + NEXT_FIELD] + PREV_FIELD := NULL];
      }
      head := m[p + NEXT_FIELD];
    } else if m[p + PREV_FIELD] != NULL && m[p + NEXT_FIELD] != NULL {
      var prev, next := m[p + PREV_FIELD], m[p + NEXT_FIELD];
      m := m[prev + NEXT_FIELD := next];
      m := m[next + PREV_FIELD := prev];
    } else if m[p + PREV_FIELD] != NULL {
      m := m[m[p + PREV_FIELD] + NEXT_FIELD := m[p + NEXT_FIELD]];
    }
    m := m[p + PREV_FIELD := NULL];
    m := m[p + NEXT_FIELD := NULL];
  }

  /** The stores of remove_block_node stay inside the memory on a linked free list. */
  lemma Unthreadable(s: HeapView, m: seq<int>, head: int, p: int)
    requires Detachable(s, m, head, p)
    ensures Threadable(m, head, p)
  {
    var fl := s.freeList;
    var k :| 0 <= k < |fl| && fl[k] == p;
    ListBound(s, k);
    LinkedAt(m, head, fl, k);
    if k + 1 < |fl| {
      ListBound(s, k + 1);
      ListCells(s, k, k + 1, NEXT_FIELD, PREV_FIELD);
    }
    if k > 0 {
      ListBound(s, k - 1);
    }
  }

  /** After remove_block_node the invariants hold for the shorter list. */
  lemma Detached(s: HeapView, m0: seq<int>, h0: int, p: int, m: seq<int>, head: int)
    requires Detachable(s, m0, h0, p) && Chain(m, head) == Detach(m0, h0, p)
    ensures var t := s.(freeList := Unlink(s.freeList, p));
      Laid(t, m) && ListOk(t) && Linked(m, head, t.freeList) && AllKept(m0, m, s.layout)
  {
    DetachSpec(s, m0, h0, p);
    Relisted(s, m, head, Unlink(s.freeList, p));
  }
}
