/**
 * Block metadata codec of the boundary-tag allocator: the fixed layout of a
 * block (header, payload, trailing footer), the conversions between a header
 * and the payload address handed to callers, and the rounding of requests.
 *
 * The model fixes a 32-bit target: the header record (an `int` size, an
 * `int` free flag and two link pointers) is 16 bytes, an `int` is 4 bytes
 * and `size_t` is a 32-bit unsigned word.
 */
module Codec {

  /** The null pointer; no header or payload ever sits at address 0. */
  const NULL: int := 0

  /** sizeof(metadata_entry_t) on a 32-bit target. */
  const METADATA_SIZE: int := 16
  /** sizeof(int): the footer holds one copy of the block size. */
  const FOOTER_SIZE: int := 4
  /** A found block is split when it is at least this many times the request. */
  const SPLIT_FACTOR: int := 40
  /** A neighbour is absorbed when its size is at least this many times the block's. */
  const MERGE_FACTOR: int := 1

  /** Byte offsets of the header fields. */
  const SIZE_FIELD: int := 0
  const FLAG_FIELD: int := 4
  const NEXT_FIELD: int := 8
  const PREV_FIELD: int := 12

  /** 2^32: the number of values of a 32-bit size_t. */
  const SIZE_T_LIMIT: int := 0x1_0000_0000
  /** Largest request whose rounding does not wrap around. */
  const MAX_REQUEST: int := SIZE_T_LIMIT - METADATA_SIZE

  /**
   * The largest request this model admits: beyond it the size_t product
   * `request * SPLIT_FACTOR` in malloc's split test would wrap around.
   */
  const MAX_MALLOC: int := SIZE_T_LIMIT / SPLIT_FACTOR - METADATA_SIZE

  /** The bytes a block occupies besides its payload. */
  const OVERHEAD: int := METADATA_SIZE + FOOTER_SIZE

  /** get_block_address: the payload starts right after the header. */
  function BlockAddress(p: nat): (a: nat)
    ensures (a == NULL) == (p == NULL)
    ensures p != NULL ==> a > METADATA_SIZE
  {
    if p == NULL then NULL else p + METADATA_SIZE
  }

  /** get_block_metadata: the header starts one header width before the payload. */
  function BlockMetadata(a: nat): (p: int)
    ensures a == NULL ==> p == NULL
    ensures a > METADATA_SIZE ==> p > NULL
  {
    if a == NULL then NULL else a - METADATA_SIZE
  }

  /** A header and its payload address determine each other. */
  lemma AddressRoundTrip(p: nat, a: nat)
    ensures BlockMetadata(BlockAddress(p)) == p
    ensures a == NULL || a > METADATA_SIZE ==> BlockAddress(BlockMetadata(a) as nat) == a
  {
  }

  /** `r` is a whole number of `m`-byte units. */
  predicate Multiple(r: nat, m: nat)
    requires m > 0
  {
    r == 0 || (r >= m && Multiple(r - m, m))
  }

  /**
   * The least multiple of `m` that is at least `n`: what the rounding of a
   * request is meant to compute.
   */
  function RoundUpTo(n: nat, m: nat): (r: nat)
    requires m > 0
    ensures Multiple(r, m) && n <= r < n + m
    ensures n > 0 ==> r >= m
  {
    if n == 0 then 0
    else if n <= m then m
    else m + RoundUpTo(n - m, m)
  }

  /** No multiple of `m` at least `n` is below RoundUpTo(n, m). */
  lemma {:induction false} RoundUpToIsLeast(n: nat, m: nat, k: nat)
    requires m > 0 && Multiple(k, m) && n <= k
    ensures RoundUpTo(n, m) <= k
  {
    if n > m {
      RoundUpToIsLeast(n - m, m, k - m);
    }
  }

  /** Two multiples of `m` less than `m` apart are equal. */
  lemma {:induction false} MultiplesApart(a: nat, b: nat, m: nat)
    requires m > 0 && Multiple(a, m) && Multiple(b, m) && a <= b < a + m
    ensures a == b
  {
    if a > 0 {
      MultiplesApart(a - m, b - m, m);
    }
  }

  /** RoundUpTo(n, m) is the only multiple of `m` in [n, n + m). */
  lemma RoundUpToUnique(n: nat, m: nat, k: nat)
    requires m > 0 && Multiple(k, m) && n <= k < n + m
    ensures k == RoundUpTo(n, m)
  {
    RoundUpToIsLeast(n, m, k);
    MultiplesApart(RoundUpTo(n, m), k, m);
  }

  /** The difference of two multiples is a multiple. */
  lemma {:induction false} MultipleLess(a: nat, b: nat, m: nat)
    requires m > 0 && Multiple(a, m) && Multiple(b, m) && b <= a
    ensures Multiple(a - b, m)
  {
    if b > 0 {
      MultipleLess(a - m, b - m, m);
    }
  }

  /** Twice a multiple of `m` is a multiple of `2 * m`. */
  lemma {:induction false} MultipleDouble(y: nat, m: nat)
    requires m > 0 && Multiple(y, m)
    ensures Multiple(2 * y, 2 * m)
  {
    if y > 0 {
      MultipleDouble(y - m, m);
    }
  }

  lemma {:induction false} Times16(k: nat)
    ensures Multiple(16 * k, 16)
  {
    if k > 0 {
      Times16(k - 1);
    }
  }

  /** A header offset is a multiple of 16 exactly when it has no remainder modulo 16. */
  lemma {:induction false} MultipleOf16(r: nat)
    ensures Multiple(r, 16) <==> r % 16 == 0
  {
    if r >= 16 {
      MultipleOf16(r - 16);
    }
  }

  /** Unsigned subtraction and addition on a word of `modulus` values. */
  function WrapSub(a: nat, b: nat, modulus: nat): (r: nat)
    requires a < modulus && b < modulus
    ensures r < modulus && (r + b == a || r + b == a + modulus)
  {
    if b <= a then a - b else modulus + a - b
  }

  function WrapAdd(a: nat, b: nat, modulus: nat): (r: nat)
    requires a < modulus && b < modulus
    ensures r < modulus && (r == a + b || r == a + b - modulus)
  {
    if a + b < modulus then a + b else a + b - modulus
  }

  /** Bitwise and of two unsigned numbers, bit by bit from the lowest. */
  function BitAnd(x: nat, y: nat): (r: nat)
    ensures r <= y
    decreases y
  {
    if x == 0 || y == 0 then 0
    else 2 * BitAnd(x / 2, y / 2) + (if x % 2 == 1 && y % 2 == 1 then 1 else 0)
  }

  function Pow2(k: nat): (r: nat)
    ensures r >= 1
  {
    if k == 0 then 1 else 2 * Pow2(k - 1)
  }

  /** The number held in the `k` lowest bits of `x`. */
  function LowBits(x: nat, k: nat): (r: nat)
    ensures r < Pow2(k) && r <= x
  {
    if k == 0 then 0 else 2 * LowBits(x / 2, k - 1) + x % 2
  }

  /** A mask of `k` one bits keeps the `k` lowest bits. */
  lemma {:induction false} BitAndMask(x: nat, k: nat)
    ensures BitAnd(x, Pow2(k) - 1) == LowBits(x, k)
  {
    if k > 0 {
      BitAndMask(x / 2, k - 1);
    }
  }

  /** What lies above the `k` lowest bits is a multiple of 2^k. */
  lemma {:induction false} HighBits(x: nat, k: nat)
    ensures Multiple(x - LowBits(x, k), Pow2(k))
  {
    if k == 0 {
      Units(x);
    } else {
      HighBits(x / 2, k - 1);
      MultipleDouble(x / 2 - LowBits(x / 2, k - 1), Pow2(k - 1));
      assert x - LowBits(x, k) == 2 * (x / 2 - LowBits(x / 2, k - 1));
    }
  }

  lemma {:induction false} Units(x: nat)
    ensures Multiple(x, 1)
  {
    if x > 0 {
      Units(x - 1);
    }
  }

  /**
   * The rounding expression of malloc,
   * `request += (METADATA_SIZE - request) & (METADATA_SIZE - 1)`,
   * for a header width `m` and a size_t of `modulus` values.
   */
  function RoundBits(request: nat, m: nat, modulus: nat): nat
    requires 0 < m < modulus && request < modulus
  {
    WrapAdd(request, BitAnd(WrapSub(m, request, modulus), m - 1), modulus)
  }

  /** The number of values of a 64-bit size_t. */
  const SIZE_T_LIMIT_64: nat := 0x1_0000_0000_0000_0000

  /**
   * On a 64-bit target the header is 24 bytes, which is not a power of two,
   * and the expression then misses: a 33-byte request becomes 56 bytes,
   * which is not a multiple of 24 (the least multiple of 24 above 33 is 48).
   */
  lemma RoundBitsMissesFor24()
    ensures RoundBits(33, 24, SIZE_T_LIMIT_64) == 56
    ensures !Multiple(56, 24) && RoundUpTo(33, 24) == 48
  {
    assert WrapSub(24, 33, SIZE_T_LIMIT_64) == SIZE_T_LIMIT_64 - 9;
  }

  /**
   * malloc's rounding on the 32-bit size_t of this model. The header width 16
   * is a power of two, and the result is the least multiple of 16 that is at
   * least the request.
   */
  function RoundRequest(request: nat): (r: nat)
    requires request <= MAX_REQUEST
    ensures r == RoundUpTo(request, METADATA_SIZE)
  {
    var gap := WrapSub(METADATA_SIZE, request, SIZE_T_LIMIT);
    RoundsUp(request, gap);
    RoundBits(request, METADATA_SIZE, SIZE_T_LIMIT)
  }

  lemma RoundsUp(request: nat, gap: nat)
    requires request <= MAX_REQUEST && gap == WrapSub(METADATA_SIZE, request, SIZE_T_LIMIT)
    ensures request + BitAnd(gap, METADATA_SIZE - 1) == RoundUpTo(request, METADATA_SIZE)
  {
    assert Pow2(4) == METADATA_SIZE;
    BitAndMask(gap, 4);
    HighBits(gap, 4);
    var low := LowBits(gap, 4);
    var whole := if request <= METADATA_SIZE then METADATA_SIZE else METADATA_SIZE + SIZE_T_LIMIT;
    Times16(whole / 16);
    MultipleLess(whole, gap - low, METADATA_SIZE);
    assert whole - (gap - low) == request + low;
    RoundUpToUnique(request, METADATA_SIZE, request + low);
  }
}
