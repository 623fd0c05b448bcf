/**
 * The balanced row-major partition of `total` cells into `n` regions: region i (1-based)
 * owns a contiguous run of total / n cells, plus one more when i <= total % n.
 */
module Partitions {

  /** The number of cells region i receives. */
  function Quota(total: nat, n: nat, i: int): nat
    requires n > 0
  {
    total / n + (if i <= total % n then 1 else 0)
  }

  /** `len` copies of the region id. */
  function Run(id: int, len: nat): seq<int>
  {
    seq(len, _ => id)
  }

  /** The runs of regions `from`..n, concatenated in id order. */
  function Layout(total: nat, n: nat, from: nat): seq<int>
    requires n > 0 && from >= 1
    decreases n + 1 - from
  {
    if from > n then [] else Run(from, Quota(total, n, from)) + Layout(total, n, from + 1)
  }

  /** The runs of regions 1..c-1, concatenated: the cells assigned before region c starts. */
  function Prefix(total: nat, n: nat, c: nat): seq<int>
    requires n > 0
  {
    if c <= 1 then [] else Prefix(total, n, c - 1) + Run(c - 1, Quota(total, n, c - 1))
  }

  /** The whole partition of the grid. */
  function Partition(total: nat, n: nat): seq<int>
    requires n > 0
  {
    Layout(total, n, 1)
  }

  /** The sizes of regions `from`..n add up to their share of `total`. */
  lemma {:induction false} LayoutLength(total: nat, n: nat, from: nat)
    requires n > 0 && 1 <= from <= n + 1
    ensures |Layout(total, n, from)|
         == (n + 1 - from) * (total / n) + (if from <= total % n then total % n + 1 - from else 0)
    decreases n + 1 - from
  {
    if from <= n {
      LayoutLength(total, n, from + 1);
      assert (n + 1 - from) * (total / n) == (total / n) + (n - from) * (total / n);
    }
  }

  /** The regions together cover exactly the `total` cells. */
  lemma PartitionLength(total: nat, n: nat)
    requires n > 0
    ensures |Partition(total, n)| == total
  {
    LayoutLength(total, n, 1);
    assert n * (total / n) + total % n == total;
  }

  /** Layout starting at region c is what remains after Prefix(c). */
  lemma {:induction false} PrefixThenLayout(total: nat, n: nat, c: nat)
    requires n > 0 && 1 <= c <= n + 1
    ensures Prefix(total, n, c) + Layout(total, n, c) == Partition(total, n)
    decreases c
  {
    if c > 1 {
      PrefixThenLayout(total, n, c - 1);
      assert Layout(total, n, c - 1) == Run(c - 1, Quota(total, n, c - 1)) + Layout(total, n, c);
    }
  }

  /** Every id in the runs of regions `from`..n lies in [from, n]. */
  lemma {:induction false} LayoutRange(total: nat, n: nat, from: nat, k: int)
    requires n > 0 && from >= 1 && 0 <= k < |Layout(total, n, from)|
    ensures from <= Layout(total, n, from)[k] <= n
    decreases n + 1 - from
  {
    var q := Quota(total, n, from);
    if k >= q {
      LayoutRange(total, n, from + 1, k - q);
    }
  }

  /** Every cell is assigned a region id in [1, n]. */
  lemma PartitionRange(total: nat, n: nat, k: int)
    requires n > 0 && 0 <= k < |Partition(total, n)|
    ensures 1 <= Partition(total, n)[k] <= n
  {
    LayoutRange(total, n, 1, k);
  }

  /** Ids never decrease along the row-major order, so every region is one contiguous run. */
  lemma {:induction false} LayoutSorted(total: nat, n: nat, from: nat, j: int, k: int)
    requires n > 0 && from >= 1 && 0 <= j <= k < |Layout(total, n, from)|
    ensures Layout(total, n, from)[j] <= Layout(total, n, from)[k]
    decreases n + 1 - from
  {
    var q := Quota(total, n, from);
    if j >= q {
      LayoutSorted(total, n, from + 1, j - q, k - q);
    } else if k >= q {
      LayoutRange(total, n, from + 1, k - q);
    }
  }

  /** Region i occurs exactly Quota(i) times among regions `from`..n when from <= i <= n, else never. */
  lemma {:induction false} LayoutCount(total: nat, n: nat, from: nat, i: int)
    requires n > 0 && from >= 1
    ensures multiset(Layout(total, n, from))[i] == if from <= i <= n then Quota(total, n, i) else 0
    decreases n + 1 - from
  {
    if from <= n {
      var q := Quota(total, n, from);
      LayoutCount(total, n, from + 1, i);
      assert multiset(Run(from, q))[i] == if i == from then q else 0 by {
        RunCount(from, q, i);
      }
    }
  }

  /** A run holds its id `len` times and nothing else. */
  lemma {:induction false} RunCount(id: int, len: nat, i: int)
    ensures multiset(Run(id, len))[i] == if i == id then len else 0
    decreases len
  {
    if len > 0 {
      RunCount(id, len - 1, i);
      assert Run(id, len) == Run(id, len - 1) + [id];
    } else {
      assert Run(id, len) == [];
    }
  }

  /** Region i owns exactly Quota(i) cells of the partition. */
  lemma PartitionCount(total: nat, n: nat, i: int)
    requires n > 0
    ensures multiset(Partition(total, n))[i] == if 1 <= i <= n then Quota(total, n, i) else 0
  {
    LayoutCount(total, n, 1, i);
  }

  /** Region sizes are total / n or total / n + 1, so any two differ by at most one. */
  lemma QuotaBalanced(total: nat, n: nat, i: int, j: int)
    requires n > 0
    ensures Quota(total, n, i) == total / n || Quota(total, n, i) == total / n + 1
    ensures -1 <= Quota(total, n, i) - Quota(total, n, j) <= 1
  {
  }

  /** The quotas of regions 1..m, summed. */
  function QuotaSum(total: nat, n: nat, m: nat): nat
    requires n > 0
  {
    if m == 0 then 0 else QuotaSum(total, n, m - 1) + Quota(total, n, m)
  }

  /** The cells assigned before region c number the quotas of regions 1..c-1. */
  lemma {:induction false} PrefixLength(total: nat, n: nat, c: nat)
    requires n > 0 && c >= 1
    ensures |Prefix(total, n, c)| == QuotaSum(total, n, c - 1)
    decreases c
  {
    if c > 1 {
      PrefixLength(total, n, c - 1);
    }
  }

  /** The quotas of all n regions sum to `total`. */
  lemma QuotaSumTotal(total: nat, n: nat)
    requires n > 0
    ensures QuotaSum(total, n, n) == total
  {
    PrefixLength(total, n, n + 1);
    PrefixThenLayout(total, n, n + 1);
    PartitionLength(total, n);
  }

  /** Once a region gets no cell (or all regions are used up), every cell is already assigned. */
  lemma PrefixFull(total: nat, n: nat, c: nat)
    requires n > 0 && 1 <= c <= n + 1
    requires c == n + 1 || Quota(total, n, c) == 0
    ensures |Prefix(total, n, c)| == total
  {
    PrefixThenLayout(total, n, c);
    PartitionLength(total, n);
    LayoutLength(total, n, c);
  }

  /** The t-th cell of region c sits at offset |Prefix(c)| + t of the partition. */
  lemma PartitionAt(total: nat, n: nat, c: nat, t: nat)
    requires n > 0 && 1 <= c <= n && t < Quota(total, n, c)
    ensures |Prefix(total, n, c)| + t < |Partition(total, n)|
    ensures Partition(total, n)[|Prefix(total, n, c)| + t] == c
  {
    PrefixThenLayout(total, n, c);
  }

  /**
   * The state of a row-major sweep after k cells: region c is current and already holds t of its cells,
   * and a region is only current while it still has room, unless every cell is assigned.
   */
  ghost predicate SweepState(total: nat, n: nat, k: int, c: int, t: int)
  {
    && n > 0 && 1 <= c <= n + 1 && 0 <= t && 0 <= k <= total
    && |Partition(total, n)| == total
    && k == |Prefix(total, n, c)| + t
    && (c <= n ==> t < Quota(total, n, c) || k == total)
  }

  /** The sweep begins with region 1 and no cells. */
  lemma SweepStart(total: nat, n: nat)
    requires n > 0
    ensures SweepState(total, n, 0, 1, 0)
  {
    PartitionLength(total, n);
    if Quota(total, n, 1) == 0 {
      PrefixFull(total, n, 1);
    }
  }

  /**
   * One sweep step: while cells remain, cell k goes to the current region, and that region is left as soon
   * as its count reaches its quota.
   */
  lemma SweepStep(total: nat, n: nat, k: int, c: int, t: int)
    requires SweepState(total, n, k, c, t) && k < total
    ensures c <= n && k < |Partition(total, n)| && Partition(total, n)[k] == c
    ensures t + 1 >= Quota(total, n, c) ==> SweepState(total, n, k + 1, c + 1, 0)
    ensures t + 1 < Quota(total, n, c) ==> SweepState(total, n, k + 1, c, t + 1)
  {
    if c == n + 1 {
      PrefixFull(total, n, c);
    }
    PartitionAt(total, n, c, t);
    PartitionLength(total, n);
    if t + 1 >= Quota(total, n, c) {
      assert Prefix(total, n, c + 1) == Prefix(total, n, c) + Run(c, Quota(total, n, c));
      if c + 1 <= n && Quota(total, n, c + 1) == 0 {
        PrefixFull(total, n, c + 1);
      }
    }
  }

  /** The scenario of the region tests: 100 × 100 cells in 10 regions of exactly 1000 cells each. */
  lemma TenRegionsOfHundredSquare(i: int)
    requires 1 <= i <= 10
    ensures multiset(Partition(10000, 10))[i] == 1000
  {
    PartitionCount(10000, 10, i);
  }
}
