/** batchAdjointJacobian: the observables are split into one contiguous
    shard per device, each shard's Jacobian block is computed on its own, and
    the blocks are copied back into the caller's Jacobian in shard order.

    Only the shard arithmetic and the copy loop are modelled; the threads,
    futures and the device pool are not. The copy loop places block `i` at
    offset `first_i`; a row-major placement needs `first_i * tp_size`, the
    number of entries of all earlier blocks. Both are modelled: the loop as
    written, and the row-major placement with its correctness proof. */
module Batch {
  import opened Failures
  import opened AdjointOps

  // ---------------------------------------------------------------------------
  // Shard bounds

  /** The first observable of shard `i` of `k`, out of `n`: shard 0 starts
      at the first observable, and no shard up to `k` starts past the last. */
  function ShardFirst(n: nat, k: nat, i: nat): (r: nat)
    requires k > 0
    ensures i == 0 ==> r == 0
    ensures i <= k ==> r <= n
    ensures i == k ==> r == n
  {
    assert i <= k ==> n * i / k <= n by {
      if i <= k {
        MulMonotone(i, k, n);
        assert i * n == n * i && k * n == n * k;
        DivMonotone(n * i, n * k, k);
        DivModUnique(n * k, k, n, 0);
      }
    }
    assert n * k / k == n by {
      DivModUnique(n * k, k, n, 0);
    }
    n * i / k
  }

  /** The last observable of shard `i` of `k`, out of `n`: the observable
      just before the next shard starts, so -1 for a shard that would end
      before the first observable (where the source's unsigned subtraction
      wraps around). */
  function ShardLast(n: nat, k: nat, i: nat): (r: int)
    requires k > 0
    ensures r + 1 == ShardFirst(n, k, i + 1)
    ensures -1 <= r
    ensures i < k ==> r < n
  {
    n * (i + 1) / k - 1
  }

  /** The number of entries of shard `i`'s Jacobian block: `tpSize` for each
      observable between this shard's start and the next one's. */
  function BlockSize(n: nat, k: nat, i: nat, tpSize: nat): (r: int)
    requires k > 0
    ensures r == (ShardFirst(n, k, i + 1) - ShardFirst(n, k, i)) * tpSize
    ensures 0 <= r
  {
    ShardFirstMonotone(n, k, i, i + 1);
    (ShardLast(n, k, i) - ShardFirst(n, k, i) + 1) * tpSize
  }

  lemma DivMonotone(a: nat, b: nat, k: nat)
    requires a <= b && k > 0
    ensures a / k <= b / k
  {
    if a / k > b / k {
      MulMonotone(b / k + 1, a / k, k);
      assert false;
    }
  }

  /** With at least as many observables as shards, `n / k >= 1` observables
      separate consecutive shard starts. */
  lemma DivStep(a: nat, n: nat, k: nat)
    requires 0 < k <= n
    ensures (a + n) / k >= a / k + 1
  {
    DivMonotone(a + k, a + n, k);
    assert (a + k) / k == a / k + 1 by {
      DivModUnique(a + k, k, a / k + 1, a % k);
    }
  }

  /** The first shard starts at observable 0 and the last one ends at n - 1. */
  lemma ShardEnds(n: nat, k: nat)
    requires 0 < k
    ensures ShardFirst(n, k, 0) == 0
    ensures ShardLast(n, k, k - 1) == n - 1
  {
    assert n * (k - 1 + 1) == n * k;
    DivModUnique(n * k, k, n, 0);
  }

  /** Every shard is non-empty when there are at least as many observables as shards. */
  lemma ShardNonEmpty(n: nat, k: nat, i: nat)
    requires 0 < k <= n
    ensures ShardFirst(n, k, i) <= ShardLast(n, k, i)
    ensures BlockSize(n, k, i, 1) >= 1
  {
    assert n * (i + 1) == n * i + n;
    DivStep(n * i, n, k);
  }

  /** Each shard starts right after the previous one ends. */
  lemma ShardContiguous(n: nat, k: nat, i: nat)
    requires 0 < k
    ensures ShardLast(n, k, i) + 1 == ShardFirst(n, k, i + 1)
  {
  }

  lemma ShardFirstMonotone(n: nat, k: nat, i: nat, j: nat)
    requires 0 < k && i <= j
    ensures ShardFirst(n, k, i) <= ShardFirst(n, k, j)
  {
    MulMonotone(i, j, n);
    assert i * n == n * i && j * n == n * j;
    DivMonotone(n * i, n * j, k);
  }

  /** Distinct shards do not overlap: an earlier shard ends before a later one starts. */
  lemma ShardsDisjoint(n: nat, k: nat, i: nat, j: nat)
    requires 0 < k && i < j
    ensures ShardLast(n, k, i) < ShardFirst(n, k, j)
  {
    ShardFirstMonotone(n, k, i + 1, j);
  }

  /** Every shard's slice `obs[first .. last + 1]` lies within the observables;
      it is empty exactly when its two bounds meet, which fewer observables
      than shards allow. */
  lemma ShardInRange(n: nat, k: nat, i: nat)
    requires 0 < k && i < k
    ensures ShardFirst(n, k, i) <= ShardLast(n, k, i) + 1 <= n
    ensures BlockSize(n, k, i, 1) >= 0
  {
    ShardFirstMonotone(n, k, i, i + 1);
    ShardFirstMonotone(n, k, i + 1, k);
    assert ShardFirst(n, k, k) == n by {
      DivModUnique(n * k, k, n, 0);
    }
  }

  /** Every observable below n lies in some shard below k. */
  lemma ShardOf(n: nat, k: nat, x: nat) returns (i: nat)
    requires 0 < k && x < n
    ensures i < k && ShardFirst(n, k, i) <= x <= ShardLast(n, k, i)
  {
    ShardEnds(n, k);
    assert ShardFirst(n, k, k) == n by {
      DivModUnique(n * k, k, n, 0);
    }
    i := k - 1;
    while ShardFirst(n, k, i) > x
      invariant i < k && x < ShardFirst(n, k, i + 1)
      decreases i
    {
      i := i - 1;
    }
  }

  // ---------------------------------------------------------------------------
  // Copying the blocks back

  /** The outcome of the copy loop and the Jacobian it leaves. */
  datatype Merged = Merged(outcome: Outcome, jac: seq<real>)

  /** `jac` with `block` written from position `off` on, as far as `jac`
      reaches. */
  function Place(jac: seq<real>, block: seq<real>, off: nat): (r: seq<real>)
    ensures |r| == |jac|
  {
    seq(|jac|, p requires 0 <= p < |jac| => if off <= p < off + |block| then block[p - off] else jac[p])
  }

  /** The copy loop over the first `m` blocks, block `i` written from
      `ShardFirst(n, k, i) * stride` on with the bounds-checked `jac.at`: the
      first out-of-range position throws, after the in-range ones were written. */
  function MergeSpec(jac0: seq<real>, blocks: seq<seq<real>>, n: nat, k: nat, stride: nat, m: nat): (r: Merged)
    requires 0 < k && m <= |blocks|
    ensures |r.jac| == |jac0|
  {
    if m == 0 then Merged(Pass, jac0)
    else
      var prev := MergeSpec(jac0, blocks, n, k, stride, m - 1);
      if prev.outcome.Fail? then prev
      else
        var off := ShardFirst(n, k, m - 1) * stride;
        var block := blocks[m - 1];
        Merged(if |block| == 0 || off + |block| <= |prev.jac| then Pass else Fail(IndexOutOfRange), Place(prev.jac, block, off))
  }

  /** The inner copy loop: `block` written entry by entry from `off` on with
      `jac.at`, stopping at the first position past the end. */
  method CopyBlock(jac: array<real>, block: seq<real>, off: nat) returns (o: Outcome)
    modifies jac
    ensures o == (if |block| == 0 || off + |block| <= jac.Length then Pass else Fail(IndexOutOfRange))
    ensures jac[..] == Place(old(jac[..]), block, off)
  {
    var j := 0;
    while j < |block|
      invariant 0 <= j <= |block|
      invariant jac[..] == Place(old(jac[..]), block[..j], off)
      invariant j == 0 || off + j <= jac.Length
    {
      if off + j >= jac.Length {
        assert Place(old(jac[..]), block[..j], off) == Place(old(jac[..]), block, off);
        return Fail(IndexOutOfRange);
      }
      jac[off + j] := block[j];
      assert jac[..] == Place(old(jac[..]), block[..j + 1], off);
      j := j + 1;
    }
    assert block[..j] == block;
    o := Pass;
  }

  /** The copy loop with block `i` placed from `ShardFirst(n, k, i) * stride` on. */
  method MergeShards(jac: array<real>, blocks: seq<seq<real>>, n: nat, k: nat, stride: nat) returns (o: Outcome)
    requires 0 < k
    modifies jac
    ensures Merged(o, jac[..]) == MergeSpec(old(jac[..]), blocks, n, k, stride, |blocks|)
  {
    var i := 0;
    while i < |blocks|
      invariant 0 <= i <= |blocks|
      invariant MergeSpec(old(jac[..]), blocks, n, k, stride, i) == Merged(Pass, jac[..])
    {
      var first := ShardFirst(n, k, i);
      MulMonotone(0, first, stride);
      o := CopyBlock(jac, blocks[i], first * stride);
      assert MergeSpec(old(jac[..]), blocks, n, k, stride, i + 1) == Merged(o, jac[..]);
      if o.Fail? {
        MergeStopsAtFailure(old(jac[..]), blocks, n, k, stride, i + 1, |blocks|);
        return;
      }
      i := i + 1;
    }
    o := Pass;
  }

  /** Once a copy has thrown, the later blocks are not copied. */
  lemma {:induction false} MergeStopsAtFailure(jac0: seq<real>, blocks: seq<seq<real>>, n: nat, k: nat, stride: nat, m: nat, m': nat)
    requires 0 < k && m <= m' <= |blocks|
    requires MergeSpec(jac0, blocks, n, k, stride, m).outcome.Fail?
    ensures MergeSpec(jac0, blocks, n, k, stride, m') == MergeSpec(jac0, blocks, n, k, stride, m)
    decreases m' - m
  {
    if m < m' {
      MergeStopsAtFailure(jac0, blocks, n, k, stride, m, m' - 1);
    }
  }

  /** The copy loop of batchAdjointJacobian as written: block `i` goes to
      offset `first_i`. */
  method MergeAsWritten(jac: array<real>, blocks: seq<seq<real>>, n: nat, k: nat) returns (o: Outcome)
    requires 0 < k
    modifies jac
    ensures Merged(o, jac[..]) == MergeSpec(old(jac[..]), blocks, n, k, 1, |blocks|)
  {
    o := MergeShards(jac, blocks, n, k, 1);
  }

  /** The copy loop with row-major placement: block `i` goes to offset
      `first_i * tp_size`, right after the entries of all earlier blocks. */
  method MergeRowMajor(jac: array<real>, blocks: seq<seq<real>>, n: nat, k: nat, tpSize: nat) returns (o: Outcome)
    requires 0 < k
    modifies jac
    ensures Merged(o, jac[..]) == MergeSpec(old(jac[..]), blocks, n, k, tpSize, |blocks|)
  {
    o := MergeShards(jac, blocks, n, k, tpSize);
  }

  // ---------------------------------------------------------------------------
  // What the placement amounts to

  /** The blocks laid end to end. */
  function Flatten(blocks: seq<seq<real>>): (r: seq<real>)
  {
    if blocks == [] then [] else Flatten(blocks[..|blocks| - 1]) + blocks[|blocks| - 1]
  }

  /** The blocks of a run over n observables in k shards: block `i` has the
      size its shard and `tpSize` give it. */
  predicate ShardBlocks(blocks: seq<seq<real>>, n: nat, k: nat, tpSize: nat)
    requires 0 < k
  {
    && |blocks| == k
    && forall i | 0 <= i < k :: |blocks[i]| == BlockSize(n, k, i, tpSize)
  }

  lemma MulDistributes(a: int, b: int, c: int)
    ensures a * c + b * c == (a + b) * c
  {
  }

  /** The offset of shard `m`'s block lies within the Jacobian. */
  lemma ShardOffsetBound(n: nat, k: nat, tpSize: nat, m: nat)
    requires 0 < k && m <= k
    ensures ShardFirst(n, k, m) * tpSize <= n * tpSize
  {
    ShardFirstMonotone(n, k, m, k);
    assert ShardFirst(n, k, k) == n by {
      DivModUnique(n * k, k, n, 0);
    }
    MulMonotone(ShardFirst(n, k, m), n, tpSize);
  }

  /** Block `m - 1` of a run spans from its shard's offset to the next one's. */
  lemma BlockSpan(blocks: seq<seq<real>>, n: nat, k: nat, tpSize: nat, m: nat)
    requires 0 < k && ShardBlocks(blocks, n, k, tpSize) && 0 < m <= k
    ensures ShardFirst(n, k, m - 1) * tpSize + |blocks[m - 1]| == ShardFirst(n, k, m) * tpSize
  {
    ShardContiguous(n, k, m - 1);
    var a := ShardFirst(n, k, m - 1);
    var b := ShardFirst(n, k, m);
    assert |blocks[m - 1]| == (b - a) * tpSize;
    MulDistributes(a, b - a, tpSize);
  }

  lemma FlattenSnoc(blocks: seq<seq<real>>, m: nat)
    requires 0 < m <= |blocks|
    ensures Flatten(blocks[..m]) == Flatten(blocks[..m - 1]) + blocks[m - 1]
  {
    assert blocks[..m][..m - 1] == blocks[..m - 1];
  }

  lemma {:induction false} FlattenLength(blocks: seq<seq<real>>, n: nat, k: nat, tpSize: nat, m: nat)
    requires 0 < k && ShardBlocks(blocks, n, k, tpSize) && m <= k
    ensures |Flatten(blocks[..m])| == ShardFirst(n, k, m) * tpSize
  {
    if m == 0 {
      assert blocks[..0] == [];
      ShardEnds(n, k);
    } else {
      FlattenLength(blocks, n, k, tpSize, m - 1);
      FlattenSnoc(blocks, m);
      BlockSpan(blocks, n, k, tpSize, m);
    }
  }

  /** Writing a block right after a prefix replaces as many of the following entries. */
  lemma PlaceAfter(prefix: seq<real>, block: seq<real>, rest: seq<real>)
    requires |block| <= |rest|
    ensures Place(prefix + rest, block, |prefix|) == prefix + block + rest[|block|..]
  {
    var lhs := Place(prefix + rest, block, |prefix|);
    var rhs := prefix + block + rest[|block|..];
    assert |lhs| == |rhs|;
    forall p | 0 <= p < |lhs| ensures lhs[p] == rhs[p] {
      if p < |prefix| {
      } else if p < |prefix| + |block| {
      } else {
      }
    }
  }

  /** Placing the blocks of a run row by row, each right after the previous
      one, fills the whole Jacobian with the blocks' entries in order. */
  lemma {:induction false} RowMajorMergePrefix(jac0: seq<real>, blocks: seq<seq<real>>, n: nat, k: nat, tpSize: nat, m: nat)
    requires 0 < k && ShardBlocks(blocks, n, k, tpSize) && m <= k && |jac0| == n * tpSize
    ensures ShardFirst(n, k, m) * tpSize <= |jac0|
    ensures MergeSpec(jac0, blocks, n, k, tpSize, m)
         == Merged(Pass, Flatten(blocks[..m]) + jac0[ShardFirst(n, k, m) * tpSize..])
  {
    ShardOffsetBound(n, k, tpSize, m);
    if m == 0 {
      assert blocks[..0] == [];
      ShardEnds(n, k);
    } else {
      RowMajorMergePrefix(jac0, blocks, n, k, tpSize, m - 1);
      FlattenLength(blocks, n, k, tpSize, m - 1);
      FlattenSnoc(blocks, m);
      BlockSpan(blocks, n, k, tpSize, m);
      var off := ShardFirst(n, k, m - 1) * tpSize;
      var end := ShardFirst(n, k, m) * tpSize;
      var block := blocks[m - 1];
      var prefix := Flatten(blocks[..m - 1]);
      PlaceAfter(prefix, block, jac0[off..]);
      assert jac0[off..][|block|..] == jac0[end..];
      assert off + |block| <= |prefix + jac0[off..]|;
    }
  }

  /** The corrected copy loop leaves the concatenation of the blocks. */
  lemma RowMajorMerge(jac0: seq<real>, blocks: seq<seq<real>>, n: nat, k: nat, tpSize: nat)
    requires 0 < k && ShardBlocks(blocks, n, k, tpSize) && |jac0| == n * tpSize
    ensures MergeSpec(jac0, blocks, n, k, tpSize, k) == Merged(Pass, Flatten(blocks))
  {
    RowMajorMergePrefix(jac0, blocks, n, k, tpSize, k);
    assert blocks[..k] == blocks;
    ShardEnds(n, k);
    assert ShardFirst(n, k, k) == n by {
      DivModUnique(n * k, k, n, 0);
    }
  }

  /** Block `i` of the concatenation starts after all earlier blocks. */
  lemma {:induction false} FlattenIndex(blocks: seq<seq<real>>, i: nat, j: nat)
    requires i < |blocks| && j < |blocks[i]|
    ensures |Flatten(blocks[..i])| + j < |Flatten(blocks)|
    ensures Flatten(blocks)[|Flatten(blocks[..i])| + j] == blocks[i][j]
    decreases |blocks|
  {
    var last := |blocks| - 1;
    var init := blocks[..last];
    if i == last {
      assert init == blocks[..i];
    } else {
      FlattenIndex(init, i, j);
      assert init[..i] == blocks[..i];
      assert |Flatten(init)| <= |Flatten(blocks)|;
    }
  }

  /** Row-major placement: after the corrected copy, entry (x, c) of the
      Jacobian is entry (x - first_i, c) of the block of the shard holding
      observable x. */
  lemma RowMajorPlacement(jac0: seq<real>, blocks: seq<seq<real>>, n: nat, k: nat, tpSize: nat, x: nat, c: nat)
      returns (i: nat)
    requires 0 < k <= n && ShardBlocks(blocks, n, k, tpSize) && |jac0| == n * tpSize
    requires x < n && c < tpSize
    ensures i < k && ShardFirst(n, k, i) <= x <= ShardLast(n, k, i)
    ensures JacIndex(x, c, tpSize) < |jac0|
    ensures JacIndex(x - ShardFirst(n, k, i), c, tpSize) < |blocks[i]|
    ensures MergeSpec(jac0, blocks, n, k, tpSize, k).jac[JacIndex(x, c, tpSize)]
         == blocks[i][JacIndex(x - ShardFirst(n, k, i), c, tpSize)]
  {
    i := ShardOf(n, k, x);
    var first := ShardFirst(n, k, i);
    var rows := ShardLast(n, k, i) - first + 1;
    var j := JacIndex(x - first, c, tpSize);
    JacIndexInverse(x - first, c, tpSize, rows);
    JacIndexInverse(x, c, tpSize, n);
    RowMajorMerge(jac0, blocks, n, k, tpSize);
    FlattenLength(blocks, n, k, tpSize, i);
    ShiftRow(first, x - first, c, tpSize);
    FlattenIndex(blocks, i, j);
  }

  lemma ShiftRow(first: nat, r: nat, c: nat, tpSize: nat)
    ensures first * tpSize + JacIndex(r, c, tpSize) == JacIndex(first + r, c, tpSize)
  {
    assert (first + r) * tpSize == first * tpSize + r * tpSize;
  }

  // ---------------------------------------------------------------------------
  // The loop as written

  /** With a single shard, or a single trainable parameter, the loop as
      written and the row-major placement agree. */
  lemma AsWrittenAgreesWhen(jac0: seq<real>, blocks: seq<seq<real>>, n: nat, k: nat, tpSize: nat, m: nat)
    requires 0 < k && |blocks| == k && m <= k && (k == 1 || tpSize == 1)
    ensures MergeSpec(jac0, blocks, n, k, 1, m) == MergeSpec(jac0, blocks, n, k, tpSize, m)
  {
    if m > 0 {
      AsWrittenAgreesWhen(jac0, blocks, n, k, tpSize, m - 1);
      if k == 1 {
        assert ShardFirst(n, k, m - 1) == 0;
      }
    }
  }

  /** Two observables on two devices with two trainable parameters: the
      blocks [a, b] and [c, d] must become the row-major [a, b, c, d], but the
      loop as written copies the second block to offset 1, over b, and
      leaves the last entry untouched: [a, c, d, 0]. */
  lemma AsWrittenMisplaces()
    ensures MergeSpec([0.0, 0.0, 0.0, 0.0], [[1.0, 2.0], [3.0, 4.0]], 2, 2, 1, 2) == Merged(Pass, [1.0, 3.0, 4.0, 0.0])
    ensures MergeSpec([0.0, 0.0, 0.0, 0.0], [[1.0, 2.0], [3.0, 4.0]], 2, 2, 2, 2) == Merged(Pass, [1.0, 2.0, 3.0, 4.0])
  {
    var jac0 := [0.0, 0.0, 0.0, 0.0];
    var blocks := [[1.0, 2.0], [3.0, 4.0]];
    assert ShardFirst(2, 2, 0) == 0 && ShardFirst(2, 2, 1) == 1;
    var one := MergeSpec(jac0, blocks, 2, 2, 1, 1);
    assert one == Merged(Pass, Place(jac0, [1.0, 2.0], 0));
    assert Place(jac0, [1.0, 2.0], 0) == [1.0, 2.0, 0.0, 0.0];
    assert Place([1.0, 2.0, 0.0, 0.0], [3.0, 4.0], 1) == [1.0, 3.0, 4.0, 0.0];
    var two := MergeSpec(jac0, blocks, 2, 2, 2, 1);
    assert two == Merged(Pass, Place(jac0, [1.0, 2.0], 0));
    assert Place([1.0, 2.0, 0.0, 0.0], [3.0, 4.0], 2) == [1.0, 2.0, 3.0, 4.0];
  }
}
