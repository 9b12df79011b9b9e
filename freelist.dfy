/**
 * The free list as a sequence of header addresses, head first: unlinking a
 * node (remove_block_node) and the first-fit scan of malloc.
 */
module FreeList {
  import opened Layout

  /**
   * The list without its first occurrence of `x`; on a list without
   * duplicates that is the list with the node `x` deleted.
   */
  function Unlink(xs: seq<int>, x: int): (r: seq<int>)
    ensures x in xs ==> |r| == |xs| - 1
    ensures x !in xs ==> r == xs
    ensures forall y :: y in r ==> y in xs
    ensures NoDup(xs) ==> NoDup(r) && x !in r
    ensures NoDup(xs) ==> forall y :: y in xs && y != x ==> y in r
  {
    if xs == [] then []
    else if xs[0] == x then xs[1..]
    else
      var rest := Unlink(xs[1..], x);
      assert NoDup(xs) ==> NoDup(xs[1..]);
      assert NoDup(xs) ==> xs[0] !in xs[1..];
      [xs[0]] + rest
  }

  /** Unlinking keeps the other nodes in their order. */
  lemma {:induction false} UnlinkAt(xs: seq<int>, k: int)
    requires NoDup(xs) && 0 <= k < |xs|
    ensures Unlink(xs, xs[k]) == xs[..k] + xs[k + 1..]
  {
    if k > 0 {
      assert xs[0] != xs[k];
      assert NoDup(xs[1..]) && xs[1..][k - 1] == xs[k];
      UnlinkAt(xs[1..], k - 1);
      assert xs[..k] == [xs[0]] + xs[1..][..k - 1];
      assert xs[k + 1..] == xs[1..][k..];
    }
  }

  /**
   * The position of the first entry of `sizes` that is at least `request`,
   * or |sizes| when there is none.
   */
  function FirstFit(sizes: seq<int>, request: int): (k: nat)
    ensures k <= |sizes|
    ensures forall j :: 0 <= j < k ==> sizes[j] < request
    ensures k < |sizes| ==> sizes[k] >= request
  {
    if sizes == [] then 0
    else if sizes[0] >= request then 0
    else 1 + FirstFit(sizes[1..], request)
  }

  /** The payload sizes of the free list's blocks, head first. */
  function ListSizes(s: HeapView): (sizes: seq<int>)
    ensures |sizes| == |s.freeList|
    ensures forall k :: 0 <= k < |s.freeList| ==> sizes[k] == SizeAt(s.layout, s.freeList[k])
  {
    seq(|s.freeList|, k requires 0 <= k < |s.freeList| => SizeAt(s.layout, s.freeList[k]))
  }
}
