/**
 * The split of the residual positions `0 .. n-1` into `c` contiguous chunks: every
 * chunk holds `n // c` positions except the last, which runs to the end and so also
 * takes the remainder.
 */
module Chunking {

  /** Python's floor division `a // b`, which rounds towards negative infinity. */
  function FloorDiv(a: int, b: int): (q: int)
    requires b != 0
    ensures b > 0 ==> q * b <= a < q * b + b
    ensures b < 0 ==> q * b + b < a <= q * b
  {
    if b > 0 then a / b
    else
      var q := (-a) / (-b);
      assert q * (-b) <= -a < q * (-b) + (-b);
      q
  }

  /** First position of chunk `k` of `n` positions cut into `c` chunks. */
  function ChunkStart(n: nat, c: int, k: nat): nat
    requires c > 0
  {
    k * (n / c)
  }

  /** One past the last position of chunk `k`: the last chunk runs to `n`. */
  function ChunkEnd(n: nat, c: int, k: nat): nat
    requires c > 0
  {
    if k < c - 1 then ChunkStart(n, c, k) + n / c else n
  }

  lemma MulMono(a: int, b: int, m: nat)
    ensures a <= b ==> a * m <= b * m
  {
  }

  /** Every chunk is an in-order range inside `0 .. n`. */
  lemma ChunkBounds(n: nat, c: int, k: nat)
    requires 0 < c && k < c
    ensures 0 <= ChunkStart(n, c, k) <= ChunkEnd(n, c, k) <= n
  {
    var m := n / c;
    assert c * m <= n;
    MulMono(k + 1, c, m);
    assert (k + 1) * m == k * m + m;
  }

  /** All chunks but the last hold `n // c` positions; the last also holds the remainder. */
  lemma ChunkSizes(n: nat, c: int, k: nat)
    requires 0 < c && k < c
    ensures k < c - 1 ==> ChunkEnd(n, c, k) - ChunkStart(n, c, k) == n / c
    ensures k == c - 1 ==> ChunkEnd(n, c, k) - ChunkStart(n, c, k) == n / c + n % c
  {
    if k == c - 1 {
      assert (c - 1) * (n / c) + n / c == c * (n / c);
    }
  }

  /** The first chunk starts at 0, each chunk ends where the next begins, the last ends at `n`. */
  lemma ChunksContiguous(n: nat, c: int, k: nat)
    requires 0 < c && k < c
    ensures ChunkStart(n, c, 0) == 0
    ensures k + 1 < c ==> ChunkEnd(n, c, k) == ChunkStart(n, c, k + 1)
    ensures k == c - 1 ==> ChunkEnd(n, c, k) == n
  {
    assert (k + 1) * (n / c) == k * (n / c) + n / c;
  }

  /** With at least as many positions as chunks, every chunk is non-empty. */
  lemma ChunkNonEmpty(n: nat, c: int, k: nat)
    requires 0 < c <= n && k < c
    ensures ChunkStart(n, c, k) < ChunkEnd(n, c, k)
  {
    ChunkBounds(n, c, k);
    assert n / c >= 1 by {
      assert c * (n / c) + n % c == n && n % c < c;
    }
    if k == c - 1 {
      ChunkSizes(n, c, k);
    }
  }

  /**
   * For a non-empty series, the first chunk is empty exactly when there are more
   * chunks than positions.
   */
  lemma FirstChunkEmpty(n: nat, c: int)
    requires 0 < c && 0 < n
    ensures ChunkStart(n, c, 0) == ChunkEnd(n, c, 0) <==> n < c
  {
    if n >= c {
      ChunkNonEmpty(n, c, 0);
    } else {
      assert n / c == 0;
    }
  }

  /** The chunk that holds position `i`. */
  function ChunkOf(n: nat, c: int, i: nat): (k: nat)
    requires 0 < c
    ensures k < c
  {
    var m := n / c;
    if m == 0 then c - 1
    else if i / m < c - 1 then i / m
    else c - 1
  }

  /** Every position of the series lies in the chunk `ChunkOf` names ... */
  lemma ChunkOfContains(n: nat, c: int, i: nat)
    requires 0 < c && i < n
    ensures var k := ChunkOf(n, c, i); ChunkStart(n, c, k) <= i < ChunkEnd(n, c, k)
  {
    var m := n / c;
    var k := ChunkOf(n, c, i);
    if m > 0 {
      assert (i / m) * m <= i < (i / m) * m + m;
      MulMono(c - 1, i / m, m);
    }
  }

  /** ... and in no other chunk: the chunks are disjoint. */
  lemma ChunkOfUnique(n: nat, c: int, i: nat, k: nat)
    requires 0 < c && k < c
    requires ChunkStart(n, c, k) <= i < ChunkEnd(n, c, k)
    ensures k == ChunkOf(n, c, i)
  {
    var m := n / c;
    ChunkBounds(n, c, k);
    if m > 0 {
      if k < c - 1 {
        assert k * m <= i < k * m + m;
        assert i / m == k by {
          DivWithin(i, m, k);
        }
      } else {
        assert k * m <= i;
        DivAtLeast(i, m, k);
      }
    }
  }

  lemma DivWithin(i: nat, m: nat, k: nat)
    requires m > 0 && k * m <= i < k * m + m
    ensures i / m == k
  {
    var q := i / m;
    assert q * m <= i < q * m + m;
    assert (q + 1) * m == q * m + m && (k + 1) * m == k * m + m;
    MulMono(q + 1, k, m);
    MulMono(k + 1, q, m);
  }

  lemma DivAtLeast(i: nat, m: nat, k: nat)
    requires m > 0 && k * m <= i
    ensures i / m >= k
  {
    var q := i / m;
    assert q * m <= i < q * m + m;
    assert (q + 1) * m == q * m + m;
    MulMono(q + 1, k, m);
  }
}
