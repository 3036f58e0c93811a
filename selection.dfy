/**
 * Candidate selection: in every chunk of the baseline residuals, the positions at or
 * below a low percentile of the chunk (support candidates) and at or above a high
 * percentile (resistance candidates), concatenated across chunks in chunk order.
 */
module Selection {
  import opened Outcome
  import opened Stats
  import opened Chunking

  /** Which trend line a candidate is for: support follows the lows, resistance the highs. */
  datatype Side = Support | Resistance

  /** Support keeps residuals at or below the cutoff, resistance those at or above it. */
  predicate Keeps(side: Side, r: real, cutoff: real)
  {
    match side
    case Support => r <= cutoff
    case Resistance => r >= cutoff
  }

  /** Support uses the `q`-th percentile, resistance the `(100 - q)`-th. */
  function SidePercentile(side: Side, q: real): real
  {
    match side
    case Support => q
    case Resistance => 100.0 - q
  }

  predicate Increasing(s: seq<nat>)
  {
    forall i, j :: 0 <= i < j < |s| ==> s[i] < s[j]
  }

  /** Every entry lies in `[lo, hi)`. */
  predicate Within(s: seq<nat>, lo: nat, hi: nat)
  {
    forall j :: 0 <= j < |s| ==> lo <= s[j] < hi
  }

  /**
   * The boolean-mask filter: the positions in `[lo, hi)` whose residual the side
   * keeps, in ascending order.
   */
  function Select(rs: seq<real>, lo: nat, hi: nat, side: Side, cutoff: real): (r: seq<nat>)
    requires lo <= hi <= |rs|
    ensures forall i :: i in r <==> lo <= i < hi && Keeps(side, rs[i], cutoff)
    ensures Increasing(r) && Within(r, lo, hi)
    decreases hi - lo
  {
    if lo == hi then []
    else
      var rest := Select(rs, lo + 1, hi, side, cutoff);
      if Keeps(side, rs[lo], cutoff) then [lo] + rest else rest
  }

  /** The percentile cutoff of chunk `k` for one side. */
  function ChunkCutoff(rs: seq<real>, c: int, q: real, side: Side, k: nat): real
    requires 0 < c <= |rs| && k < c && 0.0 <= q <= 100.0
  {
    ChunkNonEmpty(|rs|, c, k);
    ChunkBounds(|rs|, c, k);
    var lo, hi := ChunkStart(|rs|, c, k), ChunkEnd(|rs|, c, k);
    Percentile(rs[lo..hi], SidePercentile(side, q))
  }

  /** The candidates one chunk contributes for one side. */
  function ChunkCandidates(rs: seq<real>, c: int, q: real, side: Side, k: nat): seq<nat>
    requires 0 < c <= |rs| && k < c && 0.0 <= q <= 100.0
  {
    ChunkBounds(|rs|, c, k);
    Select(rs, ChunkStart(|rs|, c, k), ChunkEnd(|rs|, c, k), side, ChunkCutoff(rs, c, q, side, k))
  }

  /** The candidate lists of the first `k` chunks, as the chunk loop appends them. */
  function Lists(rs: seq<real>, c: int, q: real, side: Side, k: nat): (ls: seq<seq<nat>>)
    requires 0 < c <= |rs| && k <= c && 0.0 <= q <= 100.0
    ensures |ls| == k
    ensures forall j :: 0 <= j < k ==> ls[j] == ChunkCandidates(rs, c, q, side, j)
  {
    if k == 0 then [] else Lists(rs, c, q, side, k - 1) + [ChunkCandidates(rs, c, q, side, k - 1)]
  }

  /** Concatenation of a list of position lists, in order. */
  function Flatten(ls: seq<seq<nat>>): seq<nat>
  {
    if |ls| == 0 then [] else Flatten(ls[..|ls| - 1]) + ls[|ls| - 1]
  }

  /** The support and resistance candidates of a whole series. */
  datatype Picked = Picked(support: seq<nat>, resistance: seq<nat>)

  /**
   * What the chunk loop produces for residuals `rs`, `c` chunks and percentile `q`,
   * including the failures in the order the code meets them.
   */
  function Candidates(rs: seq<real>, c: int, q: real): Result<Picked, Error>
    requires |rs| > 0
  {
    if c == 0 then Err(DivisionByZero)
    else if c < 0 then Err(NothingToConcatenate)
    else if !(0.0 <= q <= 100.0) then Err(PercentileOutOfRange)
    else if |rs| < c then Err(EmptyChunk)
    else Ok(Picked(Flatten(Lists(rs, c, q, Support, c)), Flatten(Lists(rs, c, q, Resistance, c))))
  }

  /**
   * The chunk loop: cut the residuals into `c` chunks, compute both cutoffs of each
   * chunk, keep the positions each mask selects, and concatenate the kept lists.
   */
  method SelectCandidates(rs: seq<real>, c: int, q: real) returns (r: Result<Picked, Error>)
    requires |rs| > 0
    ensures r == Candidates(rs, c, q)
  {
    var n := |rs|;
    if c == 0 {
      return Err(DivisionByZero);
    }
    var perChunk := FloorDiv(n, c);
    assert c > 0 ==> perChunk == n / c;
    var supportLists: seq<seq<nat>> := [];
    var resistanceLists: seq<seq<nat>> := [];
    var k := 0;
    while k < c
      invariant 0 <= k && (c > 0 ==> k <= c) && (c < 0 ==> k == 0)
      invariant k > 0 ==> 0.0 <= q <= 100.0 && c <= n
      invariant k == 0 ==> supportLists == [] && resistanceLists == []
      invariant k > 0 ==> supportLists == Lists(rs, c, q, Support, k)
      invariant k > 0 ==> resistanceLists == Lists(rs, c, q, Resistance, k)
      decreases c - k
    {
      var start := k * perChunk;
      var end := if k < c - 1 then start + perChunk else n;
      assert start == ChunkStart(n, c, k) && end == ChunkEnd(n, c, k);
      ChunkBounds(n, c, k);
      EmptyChunkMeansFew(n, c, k);
      if !(0.0 <= q <= 100.0) {
        return Err(PercentileOutOfRange);
      }
      if end <= start {
        return Err(EmptyChunk);
      }
      var chunk := rs[start..end];
      var supportCutoff := Percentile(chunk, q);
      var resistanceCutoff := Percentile(chunk, 100.0 - q);
      var supportIndices := Select(rs, start, end, Support, supportCutoff);
      var resistanceIndices := Select(rs, start, end, Resistance, resistanceCutoff);
      assert supportIndices == ChunkCandidates(rs, c, q, Support, k);
      assert resistanceIndices == ChunkCandidates(rs, c, q, Resistance, k);
      supportLists := supportLists + [supportIndices];
      resistanceLists := resistanceLists + [resistanceIndices];
      k := k + 1;
    }
    if |supportLists| == 0 {
      return Err(NothingToConcatenate);
    }
    r := Ok(Picked(Flatten(supportLists), Flatten(resistanceLists)));
  }

  /**
   * A chunk can be empty only when there are more chunks than positions, and then
   * the first chunk is.
   */
  lemma EmptyChunkMeansFew(n: nat, c: int, k: nat)
    requires 0 < c && 0 < n && k < c
    ensures ChunkEnd(n, c, k) <= ChunkStart(n, c, k) ==> n < c
    ensures k == 0 ==> (ChunkEnd(n, c, k) <= ChunkStart(n, c, k) <==> n < c)
  {
    FirstChunkEmpty(n, c);
    if c <= n {
      ChunkNonEmpty(n, c, k);
    }
  }

  /** The candidates of one side. */
  function Of(p: Picked, side: Side): seq<nat>
  {
    match side
    case Support => p.support
    case Resistance => p.resistance
  }

  /** Where the first `k` chunks end: the start of chunk `k`, or `n` once all are in. */
  function Boundary(n: nat, c: int, k: nat): nat
    requires 0 < c && k <= c
  {
    if k < c then ChunkStart(n, c, k) else n
  }

  /** Joining two increasing lists separated by `mid` gives an increasing list. */
  lemma JoinIncreasing(a: seq<nat>, b: seq<nat>, lo: nat, mid: nat, hi: nat)
    requires Increasing(a) && Within(a, lo, mid)
    requires Increasing(b) && Within(b, mid, hi)
    requires lo <= mid <= hi
    ensures Increasing(a + b) && Within(a + b, lo, hi)
  {
    var ab := a + b;
    forall i, j | 0 <= i < j < |ab|
      ensures ab[i] < ab[j]
    {
      if j < |a| {
        assert ab[i] == a[i] && ab[j] == a[j];
      } else if i < |a| {
        assert ab[i] == a[i] && ab[j] == b[j - |a|];
      } else {
        assert ab[i] == b[i - |a|] && ab[j] == b[j - |a|];
      }
    }
  }

  lemma BoundaryStep(n: nat, c: int, k: nat)
    requires 0 < c && k < c
    ensures Boundary(n, c, k) == ChunkStart(n, c, k)
    ensures Boundary(n, c, k + 1) == ChunkEnd(n, c, k)
    ensures ChunkStart(n, c, k) <= ChunkEnd(n, c, k) <= n
  {
    ChunksContiguous(n, c, k);
    ChunkBounds(n, c, k);
  }

  /** One chunk's candidates are increasing positions of that chunk. */
  lemma ChunkCandidatesSorted(rs: seq<real>, c: int, q: real, side: Side, k: nat)
    requires 0 < c <= |rs| && k < c && 0.0 <= q <= 100.0
    ensures Increasing(ChunkCandidates(rs, c, q, side, k))
    ensures Within(ChunkCandidates(rs, c, q, side, k), ChunkStart(|rs|, c, k), ChunkEnd(|rs|, c, k))
  {
  }

  /** The lists of the first `k` chunks concatenate to an increasing list below their boundary. */
  lemma FlattenIncreasing(rs: seq<real>, c: int, q: real, side: Side, k: nat)
    requires 0 < c <= |rs| && k <= c && 0.0 <= q <= 100.0
    ensures Increasing(Flatten(Lists(rs, c, q, side, k)))
    ensures Within(Flatten(Lists(rs, c, q, side, k)), 0, Boundary(|rs|, c, k))
  {
    var ls := Lists(rs, c, q, side, k);
    forall j | 0 <= j < k
      ensures Increasing(ls[j]) && Within(ls[j], Boundary(|rs|, c, j), Boundary(|rs|, c, j + 1))
    {
      ChunkCandidatesSorted(rs, c, q, side, j);
      BoundaryStep(|rs|, c, j);
    }
    SortedBlocks(ls, |rs|, c);
  }

  /**
   * Increasing blocks, each inside its own span between consecutive boundaries,
   * concatenate to an increasing list below the last boundary.
   */
  lemma {:induction false} SortedBlocks(ls: seq<seq<nat>>, n: nat, c: int)
    requires 0 < c && |ls| <= c
    requires forall j :: 0 <= j < |ls| ==> Increasing(ls[j]) && Within(ls[j], Boundary(n, c, j), Boundary(n, c, j + 1))
    ensures Increasing(Flatten(ls)) && Within(Flatten(ls), 0, Boundary(n, c, |ls|))
  {
    if |ls| > 0 {
      var k := |ls|;
      var init := ls[..k - 1];
      assert forall j :: 0 <= j < |init| ==> init[j] == ls[j];
      SortedBlocks(init, n, c);
      BoundaryStep(n, c, k - 1);
      JoinIncreasing(Flatten(init), ls[k - 1], 0, Boundary(n, c, k - 1), Boundary(n, c, k));
    }
  }

  /**
   * A position is among the candidates of the first `k` chunks exactly when it lies
   * below their boundary and its own chunk's cutoff keeps it.
   */
  lemma FlattenMembers(rs: seq<real>, c: int, q: real, side: Side, k: nat, x: nat)
    requires 0 < c <= |rs| && k <= c && 0.0 <= q <= 100.0 && x < |rs|
    ensures x in Flatten(Lists(rs, c, q, side, k))
        <==> x < Boundary(|rs|, c, k) && Keeps(side, rs[x], ChunkCutoff(rs, c, q, side, ChunkOf(|rs|, c, x)))
  {
    var ls := Lists(rs, c, q, side, k);
    var home := ChunkOf(|rs|, c, x);
    FlattenHas(ls, x);
    BoundaryOrder(|rs|, c, k, x);
    ChunkOfContains(|rs|, c, x);
    if x in Flatten(ls) {
      var j :| 0 <= j < k && x in ls[j];
      assert ChunkStart(|rs|, c, j) <= x < ChunkEnd(|rs|, c, j);
      ChunkOfUnique(|rs|, c, x, j);
    } else if home < k {
      assert x !in ls[home];
    }
  }

  /** A position is in a concatenation exactly when it is in one of the joined lists. */
  lemma {:induction false} FlattenHas(ls: seq<seq<nat>>, x: nat)
    ensures x in Flatten(ls) <==> exists j :: 0 <= j < |ls| && x in ls[j]
  {
    if |ls| > 0 {
      var init := ls[..|ls| - 1];
      FlattenHas(init, x);
      assert forall j :: 0 <= j < |init| ==> init[j] == ls[j];
    }
  }

  /** Boundaries never decrease. */
  lemma BoundaryMono(n: nat, c: int, a: nat, b: nat)
    requires 0 < c && a <= b <= c
    ensures Boundary(n, c, a) <= Boundary(n, c, b)
  {
    if b < c {
      MulMono(a, b, n / c);
    } else if a < c {
      ChunkBounds(n, c, a);
    }
  }

  /** A position lies below the boundary of the first `k` chunks exactly when its chunk is one of them. */
  lemma BoundaryOrder(n: nat, c: int, k: nat, x: nat)
    requires 0 < c && k <= c && x < n
    ensures x < Boundary(n, c, k) <==> ChunkOf(n, c, x) < k
  {
    var j := ChunkOf(n, c, x);
    ChunkOfContains(n, c, x);
    BoundaryStep(n, c, j);
    if j < k {
      BoundaryMono(n, c, j + 1, k);
    } else {
      BoundaryMono(n, c, k, j);
    }
  }

  /**
   * The selected candidates of each side are strictly increasing (so free of
   * duplicates), all inside the series, and are exactly the positions whose residual
   * their own chunk's cutoff keeps.
   */
  lemma CandidatesExact(rs: seq<real>, c: int, q: real, side: Side)
    requires |rs| > 0 && Candidates(rs, c, q).Ok?
    ensures var s := Of(Candidates(rs, c, q).value, side);
      Increasing(s) && Within(s, 0, |rs|) &&
      forall x: nat :: x in s <==> x < |rs| && Keeps(side, rs[x], ChunkCutoff(rs, c, q, side, ChunkOf(|rs|, c, x)))
  {
    FlattenIncreasing(rs, c, q, side, c);
    forall x: nat
      ensures x in Flatten(Lists(rs, c, q, side, c))
          <==> x < |rs| && Keeps(side, rs[x], ChunkCutoff(rs, c, q, side, ChunkOf(|rs|, c, x)))
    {
      if x < |rs| {
        FlattenMembers(rs, c, q, side, c, x);
      }
    }
  }

  /**
   * Within a chunk `[lo, hi)`, whatever the percentile, the position of the smallest
   * residual is always a support candidate and that of the largest a resistance
   * candidate.
   */
  lemma ExtremesKept(rs: seq<real>, lo: nat, hi: nat, p: real, i: nat)
    requires lo <= i < hi <= |rs| && 0.0 <= p <= 100.0
    ensures rs[i] == Min(rs[lo..hi]) ==> i in Select(rs, lo, hi, Support, Percentile(rs[lo..hi], p))
    ensures rs[i] == Max(rs[lo..hi]) ==> i in Select(rs, lo, hi, Resistance, Percentile(rs[lo..hi], p))
  {
    var v := rs[lo..hi];
    PercentileBounds(v, p);
    KeptWhenBeyond(rs, lo, hi, Support, Percentile(v, p), i, Min(v));
    KeptWhenBeyond(rs, lo, hi, Resistance, Percentile(v, p), i, Max(v));
  }

  lemma KeptWhenBeyond(rs: seq<real>, lo: nat, hi: nat, side: Side, cutoff: real, i: nat, e: real)
    requires lo <= i < hi <= |rs| && Keeps(side, e, cutoff)
    ensures rs[i] == e ==> i in Select(rs, lo, hi, side, cutoff)
  {
  }

  /** Every chunk contributes at least one candidate to each side. */
  lemma ChunkContributes(rs: seq<real>, c: int, q: real, side: Side, k: nat)
    requires 0 < c <= |rs| && k < c && 0.0 <= q <= 100.0
    ensures |ChunkCandidates(rs, c, q, side, k)| > 0
  {
    ChunkBounds(|rs|, c, k);
    ChunkNonEmpty(|rs|, c, k);
    var lo, hi := ChunkStart(|rs|, c, k), ChunkEnd(|rs|, c, k);
    var p := SidePercentile(side, q);
    assert ChunkCutoff(rs, c, q, side, k) == Percentile(rs[lo..hi], p);
    SelectNonEmpty(rs, lo, hi, side, p);
  }

  /** In a non-empty range, the mask at any percentile of that range keeps some position. */
  lemma SelectNonEmpty(rs: seq<real>, lo: nat, hi: nat, side: Side, p: real)
    requires lo < hi <= |rs| && 0.0 <= p <= 100.0
    ensures |Select(rs, lo, hi, side, Percentile(rs[lo..hi], p))| > 0
  {
    var v := rs[lo..hi];
    var cutoff := Percentile(v, p);
    PercentileBounds(v, p);
    if side == Support {
      var j :| 0 <= j < |v| && v[j] == Min(v);
      assert rs[lo + j] == v[j];
      KeptWhenBeyond(rs, lo, hi, Support, cutoff, lo + j, Min(v));
    } else {
      var j :| 0 <= j < |v| && v[j] == Max(v);
      assert rs[lo + j] == v[j];
      KeptWhenBeyond(rs, lo, hi, Resistance, cutoff, lo + j, Max(v));
    }
  }

  /** With a percentile of at most 50, a chunk's support cutoff never exceeds its resistance cutoff. */
  lemma CutoffsOrdered(rs: seq<real>, c: int, q: real, k: nat)
    requires 0 < c <= |rs| && k < c && 0.0 <= q <= 50.0
    ensures ChunkCutoff(rs, c, q, Support, k) <= ChunkCutoff(rs, c, q, Resistance, k)
  {
    ChunkBounds(|rs|, c, k);
    ChunkNonEmpty(|rs|, c, k);
    var lo, hi := ChunkStart(|rs|, c, k), ChunkEnd(|rs|, c, k);
    PercentileMonotone(rs[lo..hi], q, 100.0 - q);
  }

  /**
   * A successful selection yields, on each side, a non-empty list of positions inside
   * the series: the trend fits that follow always have samples.
   */
  lemma CandidatesFound(rs: seq<real>, c: int, q: real)
    requires |rs| > 0 && Candidates(rs, c, q).Ok?
    ensures var p := Candidates(rs, c, q).value;
      Within(p.support, 0, |rs|) && Within(p.resistance, 0, |rs|) &&
      |p.support| > 0 && |p.resistance| > 0
  {
    CandidatesExact(rs, c, q, Support);
    CandidatesExact(rs, c, q, Resistance);
    FlattenGrows(rs, c, q, Support);
    FlattenGrows(rs, c, q, Resistance);
  }

  /** The concatenated list of one side is non-empty, since its last chunk contributes. */
  lemma FlattenGrows(rs: seq<real>, c: int, q: real, side: Side)
    requires 0 < c <= |rs| && 0.0 <= q <= 100.0
    ensures |Flatten(Lists(rs, c, q, side, c))| > 0
  {
    var ls := Lists(rs, c, q, side, c);
    assert ls[c - 1] == ChunkCandidates(rs, c, q, side, c - 1);
    ChunkContributes(rs, c, q, side, c - 1);
    assert Flatten(ls) == Flatten(ls[..c - 1]) + ls[c - 1];
  }

  /** A chunk whose residuals all equal `e` has `e` as its cutoff, whatever the percentile. */
  lemma LevelChunkCutoff(rs: seq<real>, c: int, q: real, side: Side, k: nat, e: real)
    requires 0 < c <= |rs| && k < c && 0.0 <= q <= 100.0
    requires forall i :: 0 <= i < |rs| && ChunkStart(|rs|, c, k) <= i < ChunkEnd(|rs|, c, k) ==> rs[i] == e
    ensures ChunkCutoff(rs, c, q, side, k) == e
  {
    ChunkBounds(|rs|, c, k);
    ChunkNonEmpty(|rs|, c, k);
    var lo, hi := ChunkStart(|rs|, c, k), ChunkEnd(|rs|, c, k);
    var v := rs[lo..hi];
    forall j | 0 <= j < |v|
      ensures v[j] == e
    {
      assert v[j] == rs[lo + j];
    }
    ConstPercentile(v, SidePercentile(side, q), e);
  }

  /**
   * Raising the percentile never drops a support candidate of a chunk: the support
   * cutoff can only rise.
   */
  lemma SupportGrowsWithPercentile(rs: seq<real>, c: int, q1: real, q2: real, k: nat)
    requires 0 < c <= |rs| && k < c && 0.0 <= q1 <= q2 <= 100.0
    ensures forall i :: i in ChunkCandidates(rs, c, q1, Support, k) ==> i in ChunkCandidates(rs, c, q2, Support, k)
  {
    ChunkBounds(|rs|, c, k);
    ChunkNonEmpty(|rs|, c, k);
    var lo, hi := ChunkStart(|rs|, c, k), ChunkEnd(|rs|, c, k);
    assert ChunkCutoff(rs, c, q1, Support, k) == Percentile(rs[lo..hi], q1);
    assert ChunkCutoff(rs, c, q2, Support, k) == Percentile(rs[lo..hi], q2);
    PercentileMonotone(rs[lo..hi], q1, q2);
  }

  /**
   * Raising the percentile never drops a resistance candidate of a chunk: the
   * resistance cutoff, at `100 - q`, can only fall.
   */
  lemma ResistanceGrowsWithPercentile(rs: seq<real>, c: int, q1: real, q2: real, k: nat)
    requires 0 < c <= |rs| && k < c && 0.0 <= q1 <= q2 <= 100.0
    ensures forall i :: i in ChunkCandidates(rs, c, q1, Resistance, k) ==> i in ChunkCandidates(rs, c, q2, Resistance, k)
  {
    ChunkBounds(|rs|, c, k);
    ChunkNonEmpty(|rs|, c, k);
    var lo, hi := ChunkStart(|rs|, c, k), ChunkEnd(|rs|, c, k);
    var p1, p2 := 100.0 - q1, 100.0 - q2;
    assert ChunkCutoff(rs, c, q1, Resistance, k) == Percentile(rs[lo..hi], p1);
    assert ChunkCutoff(rs, c, q2, Resistance, k) == Percentile(rs[lo..hi], p2);
    PercentileMonotone(rs[lo..hi], p2, p1);
  }
}
