/**
 * The allocator object: its variables, the getters and setters on block
 * headers, and malloc, calloc, free, realloc with their helpers, each
 * updating the memory step by step as the C code does and proved against
 * the outcome functions of `Engine`.
 */
module Alloc {
  import opened Codec
  import opened Layout
  import opened FreeList
  import opened Engine
  import opened Heap
  import opened Frames
  import opened Steps
  import opened Bulk

  /**
   * The allocator's variables: the memory up to the program break
   * (`sbrk(0)`), `heap_start` and `metadata_head`; the ghost `view` holds
   * the blocks in address order and the free list from its head.
   */
  class Allocator {
    var mem: seq<int>
    var brk: int
    var heapStart: int
    var head: int
    ghost var view: HeapView

    /** The memory matches the view: tiling, footers and links are in place. */
    ghost predicate Links()
      reads this
    {
      view.start == heapStart && view.top == brk && Bound(view, mem, head)
    }

    /** The invariant, with block `ex` exempt from the flag rule. */
    ghost predicate Concrete(ex: int)
      reads this
    {
      Links() && WellFormed(view, ex)
    }

    ghost predicate Valid()
      reads this
    {
      Concrete(NULL)
    }

    /** The header at `p` lies inside the memory. */
    predicate HeaderIn(p: int)
      reads this
    {
      0 < p && p + METADATA_SIZE <= |mem|
    }

    /** The allocator before its first call: an empty heap at the initial break. */
    constructor (initial: seq<int>)
      requires |initial| > 0
      ensures Valid() && view == HeapView(NULL, |initial|, [], []) && mem == initial
    {
      mem := initial;
      brk := |initial|;
      heapStart := NULL;
      head := NULL;
      view := HeapView(NULL, |initial|, [], []);
    }

    /** is_block_free: the header's flag; NULL reads as not free. */
    function IsBlockFree(p: int): (r: int)
      reads this
      requires p == NULL || HeaderIn(p)
      ensures p == NULL ==> r == 0
      ensures forall j :: 0 <= j < |view.layout| && view.layout[j].addr == p != NULL && Stamp(mem, view.layout[j]) ==>
        (r != 0 <==> view.layout[j].isFree)
    {
      if p == NULL then 0 else mem[p + FLAG_FIELD]
    }

    /** get_block_size: the header's size; NULL reads as 0. */
    function GetBlockSize(p: int): (r: int)
      reads this
      requires p == NULL || HeaderIn(p)
      ensures p == NULL ==> r == 0
      ensures forall j :: 0 <= j < |view.layout| && view.layout[j].addr == p != NULL && Stamp(mem, view.layout[j]) ==>
        r == view.layout[j].size
    {
      if p == NULL then 0 else mem[p + SIZE_FIELD]
    }

    /** mark_block_free. */
    method MarkBlockFree(p: int)
      requires p == NULL || HeaderIn(p)
      modifies this`mem
      ensures mem == if p == NULL then old(mem) else old(mem)[p + FLAG_FIELD := 1]
    {
      if p == NULL {
        return;
      }
      mem := mem[p + FLAG_FIELD := 1];
    }

    /** mark_block_used. */
    method MarkBlockUsed(p: int)
      requires p == NULL || HeaderIn(p)
      modifies this`mem
      ensures mem == if p == NULL then old(mem) else old(mem)[p + FLAG_FIELD := 0]
    {
      if p == NULL {
        return;
      }
      mem := mem[p + FLAG_FIELD := 0];
    }

    /** set_block_footer: copy the size to the footer when it lies below the break. */
    method SetBlockFooter(p: int)
      requires |mem| == brk && (p == NULL || (HeaderIn(p) && mem[p + SIZE_FIELD] >= 0))
      modifies this`mem
      ensures p != NULL && p + METADATA_SIZE + old(mem[p]) < brk ==>
        mem == old(mem)[p + METADATA_SIZE + old(mem[p]) := old(mem[p])]
      ensures p == NULL || p + METADATA_SIZE + old(mem[p]) >= brk ==> mem == old(mem)
    {
      if p == NULL {
        return;
      }
      var footer := p + METADATA_SIZE + GetBlockSize(p);
      if footer < brk {
        mem := mem[footer := mem[p + SIZE_FIELD]];
      }
    }

    /** set_block_size: the header's size, then the footer. */
    method SetBlockSize(p: int, size: nat)
      requires |mem| == brk && (p == NULL || HeaderIn(p))
      modifies this`mem
      ensures p == NULL ==> mem == old(mem)
      ensures p != NULL && p + METADATA_SIZE + size < brk ==> mem == SizeStores(old(mem), p, size)
      ensures p != NULL && p + METADATA_SIZE + size >= brk ==> mem == old(mem)[p := size]
    {
      if p == NULL {
        return;
      }
      mem := mem[p + SIZE_FIELD := size];
      SetBlockFooter(p);
    }

    /**
     * sbrk(increment): move the break up and return the old one, or return
     * -1 when the system refuses (`grants` is false). The new memory reads
     * as zero.
     */
    method Sbrk(increment: nat, grants: bool) returns (prev: int)
      requires |mem| == brk
      modifies this`mem, this`brk
      ensures grants ==> prev == old(brk) && brk == old(brk) + increment && mem == old(mem) + Zeros(increment)
      ensures !grants ==> prev == -1 && brk == old(brk) && mem == old(mem)
    {
      if !grants {
        return -1;
      }
      prev := brk;
      mem := mem + Zeros(increment);
      brk := brk + increment;
    }

    /** get_left_block: the left neighbour when it is free, found through its footer. */
    function GetLeftBlock(p: int): (r: int)
      reads this
      requires Links() && (p == NULL || p in Addrs(view.layout))
      ensures p == NULL ==> r == NULL
      ensures p != NULL ==>
        var v := view.layout;
        var i := IndexOf(v, p);
        i < |v| && r == (if i > 0 && v[i - 1].isFree then v[i - 1].addr else NULL)
    {
      if p == NULL then NULL
      else
        LeftOf(view, mem, p);
        if p - METADATA_SIZE < heapStart then NULL
        else
          var leftSize := mem[p - FOOTER_SIZE];
          var left := p - (FOOTER_SIZE + leftSize + METADATA_SIZE);
          if IsBlockFree(left) != 0 then left else NULL
    }

    /** get_right_block: the right neighbour when there is one below the break and it is free. */
    function GetRightBlock(p: int): (r: int)
      reads this
      requires Links() && (p == NULL || p in Addrs(view.layout))
      ensures p == NULL ==> r == NULL
      ensures p != NULL ==>
        var v := view.layout;
        var i := IndexOf(v, p);
        i < |v| && r == (if i + 1 < |v| && v[i + 1].isFree then v[i + 1].addr else NULL)
    {
      if p == NULL then NULL
      else
        RightOf(view, mem, p);
        var right := p + METADATA_SIZE + GetBlockSize(p) + FOOTER_SIZE;
        if right + METADATA_SIZE >= brk then NULL
        else if IsBlockFree(right) != 0 then right else NULL
    }

    /** remove_block_node: unlink the node `p` from the free list and clear its links. */
    method RemoveBlockNode(p: int)
      requires Links() && (p == NULL || p in view.freeList)
      modifies this`mem, this`head, this`view
      ensures Chain(mem, head) == Detach(old(mem), old(head), p)
      ensures p != NULL ==> Cell(mem, p + NEXT_FIELD) == NULL && Cell(mem, p + PREV_FIELD) == NULL
      ensures view == old(view).(freeList := Unlink(old(view).freeList, p))
      ensures Links() && AllKept(old(mem), mem, view.layout)
    {
      ghost var s := view;
      if p == NULL {
        NullUnlisted(s);
        view := s.(freeList := Unlink(s.freeList, p));
        return;
      }
      ghost var m0, h0 := mem, head;
      Unthreadable(s, mem, head, p);
      mem, head := Unthread(mem, head, p);
      Detached(s, m0, h0, p, mem, head);
      view := s.(freeList := Unlink(s.freeList, p));
    }

    /**
     * remove_block_node as its callers rely on it: the node leaves the free
     * list and every payload keeps its bytes.
     */
    method Unlist(p: int)
      requires Links() && p in view.freeList
      modifies this`mem, this`head, this`view
      ensures view == old(view).(freeList := Unlink(old(view).freeList, p))
      ensures Links() && AllKept(old(mem), mem, view.layout)
    {
      RemoveBlockNode(p);
    }

    /**
     * The tail of merge_block: mark the block free and push it on the
     * free list, its next field pointing at the old head and the old
     * head's prev field at it.
     */
    method PushBlock(p: int, ghost i: nat)
      requires Links() && i < |view.layout| && view.layout[i].addr == p && p !in view.freeList
      modifies this`mem, this`head, this`view
      ensures view == PushView(old(view), i) && Links()
      ensures AllKept(old(mem), mem, old(view).layout)
    {
      ghost var s, m, h := view, mem, head;
      PushBounds(s, m, h, i);
      ghost var m2 := if h != NULL then m[p + FLAG_FIELD := 1][p + NEXT_FIELD := h][h + PREV_FIELD := p]
                      else m[p + FLAG_FIELD := 1][p + NEXT_FIELD := h];
      Pushed(s, m, h, i, p, m2);
      LinkPush(p, PushView(s, i), m2);
    }

    /** The stores of the push, with the view `u` they leave behind. */
    method LinkPush(p: int, ghost u: HeapView, ghost m2: seq<int>)
      requires |mem| == brk && u.start == heapStart && u.top == brk
      requires HeaderIn(p) && (head != NULL ==> HeaderIn(head))
      requires m2 == (if head != NULL then mem[p + FLAG_FIELD := 1][p + NEXT_FIELD := head][head + PREV_FIELD := p]
                      else mem[p + FLAG_FIELD := 1][p + NEXT_FIELD := head])
      requires Bound(u, m2, p)
      modifies this`mem, this`head, this`view
      ensures Links() && view == u && mem == m2
    {
      MarkBlockFree(p);
      mem := mem[p + NEXT_FIELD := head];
      if head != NULL {
        mem := mem[head + PREV_FIELD := p];
      }
      head := p;
      view := u;
    }

    /**
     * The left branch of merge_block: the free neighbour `left` grows over
     * the block, header and footer included, by set_block_size.
     */
    method JoinLeft(left: int, p: int, ghost i: nat)
      requires Links() && 0 < i < |view.layout| && view.layout[i - 1].addr == left && view.layout[i].addr == p
      requires WellFormed(view, p) && LeftAbsorbs(view, i)
      modifies this`mem, this`view
      ensures view == MergeOutcome(old(view), i) && Links()
      ensures PayloadsKept(old(mem), mem, old(view).layout, p)
    {
      ghost var s, m := view, mem;
      Sides(s, i);
      var ns := GetBlockSize(p) + GetBlockSize(left) + METADATA_SIZE + FOOTER_SIZE;
      LeftJoined(s, m, head, i, left, ns);
      StoreSize(left, ns, s.(layout := Joint(s.layout, i - 1)));
    }

    /** set_block_size on a header, with the view `u` the stores leave behind. */
    method StoreSize(q: int, ns: nat, ghost u: HeapView)
      requires |mem| == brk && u.start == heapStart && u.top == brk
      requires 0 < q && q + METADATA_SIZE + ns < brk && Bound(u, SizeStores(mem, q, ns), head)
      modifies this`mem, this`view
      ensures Links() && view == u && mem == SizeStores(old(mem), q, ns)
    {
      SetBlockSize(q, ns);
      view := u;
    }

    /**
     * The right branch of merge_block: the free neighbour `right` leaves
     * the list and the block grows over it.
     */
    method AbsorbRight(p: int, right: int, ghost i: nat)
      requires Links() && i + 1 < |view.layout| && view.layout[i].addr == p && view.layout[i + 1].addr == right
      requires WellFormed(view, p) && !LeftAbsorbs(view, i) && RightAbsorbed(view, i)
      modifies this`mem, this`head, this`view
      ensures view == RightJoint(old(view), i) && Links()
      ensures PayloadsKept(old(mem), mem, old(view).layout, p)
    {
      ghost var s, m0 := view, mem;
      RightListedBefore(s, i);
      Unlist(right);
      GrowRight(p, right, s, m0, i);
    }

    /** ... and then grows over it by set_block_size. */
    method GrowRight(p: int, right: int, ghost s: HeapView, ghost m0: seq<int>, ghost i: nat)
      requires i < |s.layout| && WellFormed(s, s.layout[i].addr) && !LeftAbsorbs(s, i) && RightAbsorbed(s, i)
      requires p == s.layout[i].addr && right == s.layout[i + 1].addr
      requires Links() && view == s.(freeList := Unlink(s.freeList, right)) && AllKept(m0, mem, s.layout)
      modifies this`mem, this`view
      ensures view == RightJoint(s, i) && Links()
      ensures PayloadsKept(m0, mem, s.layout, p)
    {
      ghost var ns := s.layout[i].size + s.layout[i + 1].size + METADATA_SIZE + FOOTER_SIZE;
      ghost var m1 := mem;
      RightJoined(s, m0, m1, head, i, p, ns);
      GrowOver(p, right, ns);
      assert mem == SizeStores(m1, p, ns);
      assert Bound(RightJoint(s, i), mem, head);
      view := RightJoint(s, i);
    }

    /**
     * ... where set_block_size gives the block `p` the size `ns` of both
     * blocks and the metadata between them.
     */
    method GrowOver(p: int, right: int, ghost ns: int)
      requires |mem| == brk && HeaderIn(p) && HeaderIn(right)
      requires ns == mem[p + SIZE_FIELD] + mem[right + SIZE_FIELD] + METADATA_SIZE + FOOTER_SIZE
      requires 0 <= ns && p + METADATA_SIZE + ns < brk
      modifies this`mem
      ensures mem == SizeStores(old(mem), p, ns)
    {
      var size := GetBlockSize(p) + GetBlockSize(right) + METADATA_SIZE + FOOTER_SIZE;
      SetBlockSize(p, size);
    }

    /**
     * merge_block: join the block into its free left neighbour when that
     * one is at least as large; otherwise absorb its free right neighbour
     * when that one is at least as large, and push the block on the free
     * list.
     */
    method MergeBlock(p: int)
      requires Links() && p in Addrs(view.layout) && WellFormed(view, p)
      modifies this`mem, this`head, this`view
      ensures view == MergeOutcome(old(view), IndexOf(old(view).layout, p))
      ensures Valid()
      ensures PayloadsKept(old(mem), mem, old(view).layout, p)
    {
      ghost var s, m0 := view, mem;
      InAddrs(s.layout, p);
      ghost var i := IndexOf(s.layout, p);
      MergeSpec(s, i);
      Sides(s, i);
      var left := GetLeftBlock(p);
      var right := GetRightBlock(p);
      if left != NULL {
        if GetBlockSize(left) >= GetBlockSize(p) * MERGE_FACTOR {
          JoinLeft(left, p, i);
          return;
        }
      }
      assert !LeftAbsorbs(s, i);
      if right != NULL {
        if GetBlockSize(right) >= GetBlockSize(p) * MERGE_FACTOR {
          AbsorbRight(p, right, i);
          RightListed(s, i);
        }
      }
      assert view == (if RightAbsorbed(s, i) then RightJoint(s, i) else s);
      assert !RightAbsorbed(s, i) ==> mem == m0;
      ghost var m2 := mem;
      PushBlock(p, i);
      MergeTail(s, i, m0, m2, mem);
    }

    /** free: NULL is ignored; otherwise the block behind the pointer is merged. */
    method Free(ptr: nat)
      requires Valid() && (ptr == NULL || Allocated(view, ptr))
      modifies this`mem, this`head, this`view
      ensures view == FreeOutcome(old(view), ptr)
      ensures Valid()
      ensures ptr == NULL ==> mem == old(mem)
      ensures ptr != NULL ==> PayloadsKept(old(mem), mem, old(view).layout, BlockMetadata(ptr))
    {
      if ptr == NULL {
        return;
      }
      var p := BlockMetadata(ptr);
      Exempt(view, IndexOf(view.layout, p));
      MergeBlock(p);
    }

    /**
     * split_block: a NULL block or a zero trim is ignored; otherwise the
     * block keeps `trim` bytes, a new block right after it takes the rest,
     * and the new block is released, as free does, by merge_block.
     */
    method SplitBlock(p: int, trim: nat)
      requires Valid()
      requires p != NULL && trim != 0 ==> p in Addrs(view.layout) && Splittable(view, IndexOf(view.layout, p), trim)
      modifies this`mem, this`head, this`view
      ensures Valid()
      ensures p == NULL || trim == 0 ==> view == old(view) && mem == old(mem)
      ensures p != NULL && trim != 0 ==> view == SplitOutcome(old(view), IndexOf(old(view).layout, p), trim)
      ensures p != NULL && trim != 0 ==>
        PayloadsKept(old(mem), mem, old(view).layout, p) && BlockKept(old(mem), mem, Block(p, trim, false))
    {
      if p == NULL || trim == 0 {
        return;
      }
      ghost var s, m0 := view, mem;
      InAddrs(s.layout, p);
      ghost var i := IndexOf(s.layout, p);
      var newBlock := p + METADATA_SIZE + trim + FOOTER_SIZE;
      ghost var flag := CarveBlock(p, newBlock, trim, s, i);
      ReleaseRemainder(newBlock, p, s, m0, i, trim, flag);
    }

    /**
     * The first steps of split_block: the block keeps `trim` bytes and the
     * new block right after it takes the rest, both stamped with their sizes.
     */
    method CarveBlock(p: int, newBlock: int, trim: int, ghost s: HeapView, ghost i: nat) returns (ghost flag: bool)
      requires Links() && view == s && Splittable(s, i, trim) && p == s.layout[i].addr
      requires newBlock == p + OVERHEAD + trim
      modifies this`mem, this`view
      ensures 0 < p && p + METADATA_SIZE + s.layout[i].size < |old(mem)|
      ensures Links() && view == Carve(s, i, trim, flag) && mem == CarveMem(old(mem), p, s.layout[i].size, trim)
      ensures WellFormed(view, newBlock) && newBlock in Addrs(view.layout) && IndexOf(view.layout, newBlock) == i + 1
      ensures MergeOutcome(view, i + 1) == SplitOutcome(s, i, trim)
    {
      flag := Cell(mem, newBlock + FLAG_FIELD) != 0;
      SplitCarved(s, mem, head, i, p, trim, flag);
      SplitRemainder(s, i, newBlock, trim, flag);
      StoreCarve(p, newBlock, trim, s, i, flag);
    }

    /** The stores of the sizes, with the view following them. */
    method StoreCarve(p: int, newBlock: int, trim: int, ghost s: HeapView, ghost i: nat, ghost flag: bool)
      requires |mem| == brk && heapStart == s.start && brk == s.top && Splittable(s, i, trim)
      requires p == s.layout[i].addr && newBlock == p + OVERHEAD + trim
      requires 0 < p && p + METADATA_SIZE + s.layout[i].size < |mem| && mem[p + SIZE_FIELD] == s.layout[i].size
      requires Bound(Carve(s, i, trim, flag), CarveMem(mem, p, s.layout[i].size, trim), head)
      modifies this`mem, this`view
      ensures Links() && view == Carve(s, i, trim, flag) && mem == CarveMem(old(mem), p, s.layout[i].size, trim)
    {
      CarveSizes(p, newBlock, trim, s.layout[i].size);
      view := Carve(s, i, trim, flag);
    }

    /**
     * The last step of split_block, free(new_block + 1): free finds the
     * header of the new block and hands it to merge_block.
     */
    method ReleaseRemainder(newBlock: int, ghost p: int, ghost s: HeapView, ghost m0: seq<int>, ghost i: nat,
                            ghost trim: int, ghost flag: bool)
      requires Laid(s, m0) && Splittable(s, i, trim) && p == s.layout[i].addr
      requires 0 < p && p + METADATA_SIZE + s.layout[i].size < |m0| && newBlock == p + OVERHEAD + trim
      requires Links() && view == Carve(s, i, trim, flag) && mem == CarveMem(m0, p, s.layout[i].size, trim)
      requires WellFormed(view, newBlock) && newBlock in Addrs(view.layout) && IndexOf(view.layout, newBlock) == i + 1
      requires MergeOutcome(view, i + 1) == SplitOutcome(s, i, trim)
      modifies this`mem, this`head, this`view
      ensures Valid() && view == SplitOutcome(s, i, trim)
      ensures PayloadsKept(m0, mem, s.layout, p) && BlockKept(m0, mem, Block(p, trim, false))
    {
      MergeBlock(newBlock);
      SplitKept(s, m0, i, trim, flag, mem);
    }

    /**
     * ... where the new block's size is computed from the old one, then
     * set_block_size gives the block `trim` bytes and the new block the rest.
     */
    method CarveSizes(p: int, newBlock: int, trim: nat, ghost size: int)
      requires |mem| == brk && HeaderIn(p) && mem[p + SIZE_FIELD] == size
      requires 0 < trim && trim + OVERHEAD < size && p + METADATA_SIZE + size < brk
      requires newBlock == p + METADATA_SIZE + trim + FOOTER_SIZE
      modifies this`mem
      ensures mem == CarveMem(old(mem), p, size, trim)
    {
      var newSize := GetBlockSize(p) - (trim + OVERHEAD);
      SetBlockSize(p, trim);
      SetBlockSize(newBlock, newSize);
    }

    /**
     * The stores of memset and memcpy into the payload of a block in use:
     * they keep the invariant and the payload of every other block.
     */
    method StorePayload(ghost i: nat, ghost lo: int, ghost hi: int, m2: seq<int>)
      requires Valid() && i < |view.layout| && !view.layout[i].isFree
      requires view.layout[i].addr + METADATA_SIZE <= lo <= hi <= FooterAt(view.layout[i])
      requires SameOutside(mem, m2, lo, hi)
      modifies this`mem
      ensures Valid() && mem == m2
      ensures PayloadsKept(old(mem), mem, view.layout, view.layout[i].addr)
    {
      Exempt(view, i);
      PayloadLaid(view, mem, i, m2, lo, hi);
      PayloadLinks(view, mem, head, i, m2, lo, hi);
      mem := m2;
    }

    /**
     * calloc: malloc of the size_t product `num * size`, which wraps around
     * modulo 2^32, and, when a block is found, memset of that many bytes of
     * it to zero.
     */
    method Calloc(num: nat, size: nat, grows: bool) returns (ptr: int)
      requires Valid() && (num * size) % SIZE_T_LIMIT <= MAX_MALLOC
      modifies this`mem, this`brk, this`heapStart, this`head, this`view
      ensures Valid()
      ensures Outcome(view, ptr) == MallocOutcome(old(view), (num * size) % SIZE_T_LIMIT, grows)
      ensures PayloadsKept(old(mem), mem, old(view).layout, NULL)
      ensures ptr != NULL ==> 0 < ptr && ptr + (num * size) % SIZE_T_LIMIT <= |mem|
      ensures ptr != NULL ==> forall x :: ptr <= x < ptr + (num * size) % SIZE_T_LIMIT ==> mem[x] == 0
    {
      var allocationSize := (num * size) % SIZE_T_LIMIT;
      ghost var s, m0 := view, mem;
      ptr := Malloc(allocationSize, grows);
      if ptr == NULL {
        return NULL;
      }
      ghost var t, m1 := view, mem;
      MallocSpec(s, allocationSize, grows);
      AllocatedHeader(t, m1, ptr);
      ghost var i := IndexOf(t.layout, ptr - METADATA_SIZE);
      StorePayload(i, ptr, ptr + allocationSize, Fill(mem, ptr, allocationSize, 0));
      KeptPast(s, t, ptr - METADATA_SIZE, m0, m1, mem);
    }

    /**
     * realloc: malloc for a NULL pointer; free and NULL for a zero size; the
     * same pointer when the block already holds `size` bytes; otherwise a
     * new block from malloc, the old bytes copied into it and the old block
     * freed, or NULL with every block left in place when malloc fails.
     */
    method Realloc(ptr: nat, size: nat, grows: bool) returns (newptr: int)
      requires Valid() && (ptr == NULL || Allocated(view, ptr)) && size <= MAX_MALLOC
      modifies this`mem, this`brk, this`heapStart, this`head, this`view
      ensures Valid()
      ensures Outcome(view, newptr) == ReallocOutcome(old(view), ptr, size, grows)
      ensures ptr == NULL ==> PayloadsKept(old(mem), mem, old(view).layout, NULL)
      ensures ptr != NULL && size == 0 ==> PayloadsKept(old(mem), mem, old(view).layout, BlockMetadata(ptr))
      ensures ptr != NULL && newptr == ptr ==> mem == old(mem)
      ensures ptr != NULL && size > 0 && newptr == NULL ==> PayloadsKept(old(mem), mem, old(view).layout, NULL)
      ensures ptr != NULL && newptr != NULL && newptr != ptr ==>
        && PayloadsKept(old(mem), mem, old(view).layout, BlockMetadata(ptr))
        && CopiedTo(old(mem), mem, old(view).layout[IndexOf(old(view).layout, BlockMetadata(ptr))], newptr - METADATA_SIZE)
    {
      ghost var s := view;
      ReallocSpec(s, ptr, size, grows);
      if ptr == NULL {
        newptr := Malloc(size, grows);
        return;
      }
      if size == 0 {
        Free(ptr);
        return NULL;
      }
      AllocatedHeader(view, mem, ptr);
      var oldSize := GetBlockSize(BlockMetadata(ptr));
      if oldSize >= size {
        assert ReallocOutcome(s, ptr, size, grows) == Outcome(s, ptr);
        return ptr;
      }
      newptr := MoveBlock(ptr, size, oldSize, grows);
    }

    /** The last branch of realloc: malloc, then the copy and the free when it succeeds. */
    method MoveBlock(ptr: nat, size: nat, oldSize: int, grows: bool) returns (newptr: int)
      requires Valid() && Allocated(view, ptr) && ptr != NULL && 0 < size <= MAX_MALLOC
      requires oldSize == SizeAt(view.layout, BlockMetadata(ptr)) < size
      modifies this`mem, this`brk, this`heapStart, this`head, this`view
      ensures Valid() && Outcome(view, newptr) == ReallocOutcome(old(view), ptr, size, grows)
      ensures newptr == NULL ==> PayloadsKept(old(mem), mem, old(view).layout, NULL)
      ensures newptr != NULL ==>
        && newptr != ptr && PayloadsKept(old(mem), mem, old(view).layout, BlockMetadata(ptr))
        && CopiedTo(old(mem), mem, old(view).layout[IndexOf(old(view).layout, BlockMetadata(ptr))], newptr - METADATA_SIZE)
    {
      ghost var s, m0 := view, mem;
      newptr := Malloc(size, grows);
      if newptr == NULL {
        return;
      }
      CopyAndFree(ptr, newptr, oldSize, s, m0, size, grows);
    }

    /** ... memcpy of the old block's bytes to the front of the new one, then free of the old block. */
    method CopyAndFree(ptr: nat, newptr: int, oldSize: int, ghost s: HeapView, ghost m0: seq<int>,
                       ghost size: nat, ghost grows: bool)
      requires WellFormed(s, NULL) && Allocated(s, ptr) && ptr != NULL && 0 < size <= MAX_MALLOC
      requires oldSize == SizeAt(s.layout, BlockMetadata(ptr)) < size
      requires Valid() && newptr != NULL && Outcome(view, newptr) == MallocOutcome(s, size, grows)
      requires PayloadsKept(m0, mem, s.layout, NULL)
      modifies this`mem, this`head, this`view
      ensures Valid() && Outcome(view, newptr) == ReallocOutcome(s, ptr, size, grows)
      ensures newptr != ptr && PayloadsKept(m0, mem, s.layout, BlockMetadata(ptr))
      ensures CopiedTo(m0, mem, s.layout[IndexOf(s.layout, BlockMetadata(ptr))], newptr - METADATA_SIZE)
    {
      ghost var t, m1 := view, mem;
      MoveSetup(s, t, m0, m1, ptr, newptr, size, grows);
      ghost var q := IndexOf(t.layout, newptr - METADATA_SIZE);
      StorePayload(q, newptr, newptr + oldSize, Copy(mem, newptr, ptr, oldSize));
      ghost var m2 := mem;
      Free(ptr);
      MoveDone(s, t, m0, m1, m2, mem, ptr, newptr, oldSize, size, grows);
    }

    /**
     * malloc: NULL for a zero request; otherwise the heap start is recorded,
     * the request is rounded up to a multiple of the header width, and the
     * first free-list block that fits is taken (and split when it is at
     * least SPLIT_FACTOR times the request); when none fits, sbrk appends a
     * new block, and NULL is returned when sbrk refuses.
     */
    method Malloc(request: nat, grows: bool) returns (ptr: int)
      requires Valid() && request <= MAX_MALLOC
      modifies this`mem, this`brk, this`heapStart, this`head, this`view
      ensures Valid()
      ensures Outcome(view, ptr) == MallocOutcome(old(view), request, grows)
      ensures PayloadsKept(old(mem), mem, old(view).layout, NULL)
    {
      if request == 0 {
        return NULL;
      }
      ghost var orig := view;
      if heapStart == NULL {
        heapStart := brk;
        view := Capture(view);
      }
      var r := RoundRequest(request);
      RoundedPositive(request);
      ghost var s := view;
      var chosen := FirstFitNode(r);
      if chosen != NULL {
        OnList(s, Chosen(s, r));
        TakeBlock(chosen, r, s, IndexOf(s.layout, chosen));
        MallocIsReuse(orig, request, grows);
        return BlockAddress(chosen);
      }
      MallocMiss(orig, request, grows);
      ptr := GrowHeap(r, grows);
    }

    /**
     * The search loop of malloc: walk the free list from its head and take
     * the first block of at least `r` bytes off the list.
     */
    method FirstFitNode(r: int) returns (chosen: int)
      requires Valid()
      modifies this`mem, this`head, this`view
      ensures var k := Chosen(old(view), r);
        chosen == if k < |old(view).freeList| then old(view).freeList[k] else NULL
      ensures chosen == NULL ==> view == old(view) && mem == old(mem) && head == old(head)
      ensures chosen != NULL ==> view == old(view).(freeList := Unlink(old(view).freeList, chosen))
      ensures Links() && AllKept(old(mem), mem, old(view).layout)
    {
      ghost var s, m0, h0 := view, mem, head;
      var p := head;
      chosen := NULL;
      ghost var k: nat := 0;
      NullUnlisted(s);
      while p != NULL
        invariant view == s && mem == m0 && head == h0 && Links()
        invariant Bound(s, m0, h0) && NULL !in s.freeList
        invariant k <= Chosen(s, r) && chosen == NULL
        invariant p == (if k < |s.freeList| then s.freeList[k] else NULL)
        decreases |s.freeList| - k
      {
        SearchStep(s, mem, head, k, r);
        if GetBlockSize(p) >= r {
          chosen := p;
          Unlist(p);
          return;
        }
        p := mem[p + NEXT_FIELD];
        k := k + 1;
      }
    }

    /**
     * malloc's use of the chosen block `j`, already off the list: mark it
     * used, and split it when it is at least SPLIT_FACTOR times the request.
     */
    method TakeBlock(chosen: int, r: int, ghost s: HeapView, ghost j: nat)
      requires WellFormed(s, NULL) && j < |s.layout| && s.layout[j].addr == chosen && s.layout[j].isFree
      requires Links() && view == s.(freeList := Unlink(s.freeList, chosen)) && r >= METADATA_SIZE
      modifies this`mem, this`head, this`view
      ensures Valid() && view == Reuse(s, j, r)
      ensures PayloadsKept(old(mem), mem, s.layout, NULL)
    {
      ghost var m1 := mem;
      Taken(s, m1, head, j);
      MarkBlockUsed(chosen);
      view := Take(s, j);
      ghost var m2 := mem;
      if GetBlockSize(chosen) >= r * SPLIT_FACTOR {
        SplitBlock(chosen, r);
      }
      ReuseKept(s, j, m1, m2, mem);
    }

    /**
     * The tail of malloc when no free block fits: the block goes at the old
     * break, sbrk extends the heap by its size, and the block's size and
     * flag are written; NULL when sbrk refuses.
     */
    method GrowHeap(r: int, grows: bool) returns (ptr: int)
      requires Valid() && heapStart != NULL && r > 0
      modifies this`mem, this`brk, this`view
      ensures grows ==> view == Grown(old(view), r) && ptr == BlockAddress(old(view).top)
      ensures !grows ==> view == old(view) && mem == old(mem) && ptr == NULL
      ensures Valid() && AllKept(old(mem), mem, old(view).layout)
    {
      ghost var s, m0 := view, mem;
      var chosen := brk;
      var prev := Sbrk(METADATA_SIZE + FOOTER_SIZE + r, grows);
      if prev == -1 {
        return NULL;
      }
      GrownBound(s, m0, head, r);
      StampGrown(chosen, r, m0);
      view := Grown(s, r);
      return BlockAddress(chosen);
    }

    /** ... where the new block's size and flag are written into the fresh memory. */
    method StampGrown(chosen: int, r: int, ghost m0: seq<int>)
      requires r > 0 && 0 < chosen == |m0| && mem == m0 + Zeros(OVERHEAD + r) && |mem| == brk
      modifies this`mem
      ensures mem == GrowMem(m0, r)
    {
      SetBlockSize(chosen, r);
      MarkBlockUsed(chosen);
    }
  }
}
