/** Splitting a long list of claimants into several trees. */
module Sharding {
  import opened Primitives
  import opened AirdropTree

  /** Rows cut into runs of k; only the last may be shorter. */
  function Shards(rows: seq<TreeNode>, k: nat): seq<seq<TreeNode>>
    requires k > 0
  {
    if rows == [] then []
    else if |rows| <= k then [rows]
    else [rows[..k]] + Shards(rows[k..], k)
  }

  function Concat(shards: seq<seq<TreeNode>>): seq<TreeNode> {
    if shards == [] then [] else shards[0] + Concat(shards[1..])
  }

  predicate Buildable(nodes: seq<TreeNode>) {
    nodes != [] && Total(nodes) <= U64_MAX && |FirstSeen(nodes)| <= MAX_NODES
  }

  /** The tree of one shard, with the shard's position as its version. */
  ghost predicate TreeOfShard(H: Hasher, shard: seq<TreeNode>, index: nat, tree: Airdrop) {
    && Consistent(H, tree) && tree.airdropVersion == index
    && MergedFrom(shard, tree.treeNodes) && tree.maxTotalClaim == Total(shard)
  }

  /**
   * `process_create_merkle_tree`; None stands for the panic of `unwrap` on a shard that cannot be built.
   * With a limit of zero the first shard is empty and cannot be built. A Rust vector holds at most
   * isize::MAX rows.
   */
  method CreateTrees(H: Hasher, rows: seq<TreeNode>, maxNodesPerTree: nat) returns (r: Option<seq<Airdrop>>)
    requires |rows| <= I64_MAX
    ensures maxNodesPerTree == 0 ==> (r.None? <==> rows != [])
    ensures maxNodesPerTree > 0 ==>
      (r.Some? <==> forall i :: 0 <= i < |Shards(rows, maxNodesPerTree)| ==>
                      Buildable(Shards(rows, maxNodesPerTree)[i]))
    ensures maxNodesPerTree > 0 && r.Some? ==>
      && |r.value| == |Shards(rows, maxNodesPerTree)|
      && forall i :: 0 <= i < |r.value| ==> TreeOfShard(H, Shards(rows, maxNodesPerTree)[i], i, r.value[i])
  {
    var csvEntries := rows;
    var index := 0;
    var trees: seq<Airdrop> := [];
    ghost var k := if maxNodesPerTree > 0 then maxNodesPerTree else 1;
    ghost var shards := Shards(rows, k);
    while csvEntries != []
      invariant index == |trees| <= |shards| && index + |csvEntries| <= |rows|
      invariant maxNodesPerTree == 0 ==> index == 0 && csvEntries == rows
      invariant shards[index..] == Shards(csvEntries, k)
      invariant forall i :: 0 <= i < index ==> Buildable(shards[i]) && TreeOfShard(H, shards[i], i, trees[i])
      decreases |csvEntries|
    {
      var lastIndex := if maxNodesPerTree < |csvEntries| then maxNodesPerTree else |csvEntries|;
      var subTree := csvEntries[..lastIndex];
      ghost var left := csvEntries;
      csvEntries := csvEntries[lastIndex..];
      var built := Build(H, subTree, index);
      assert maxNodesPerTree > 0 ==> subTree == Shards(left, k)[0] == shards[index];
      if !built.Done? {
        return None;
      }
      assert Shards(left, k)[1..] == Shards(csvEntries, k);
      assert shards[index + 1..] == shards[index..][1..];
      trees := trees + [built.value];
      index := index + 1;
    }
    return Some(trees);
  }

  // ----- sharding conserves the list -----

  lemma {:induction false} ShardsConcatenate(rows: seq<TreeNode>, k: nat)
    requires k > 0
    ensures Concat(Shards(rows, k)) == rows
  {
    if |rows| > k {
      ShardsConcatenate(rows[k..], k);
    } else if rows != [] {
      assert Concat([rows]) == rows + Concat([]);
    }
  }

  /** All shards but the last hold exactly k rows, and the last at least one. */
  lemma {:induction false} ShardSizes(rows: seq<TreeNode>, k: nat, i: nat)
    requires k > 0 && i < |Shards(rows, k)|
    ensures 0 < |Shards(rows, k)[i]| <= k
    ensures i < |Shards(rows, k)| - 1 ==> |Shards(rows, k)[i]| == k
  {
    if |rows| > k && i > 0 {
      ShardSizes(rows[k..], k, i - 1);
    }
  }

  lemma {:induction false} SumsOfConcat(a: seq<TreeNode>, b: seq<TreeNode>, c: Pubkey)
    ensures Total(a + b) == Total(a) + Total(b)
    ensures SumFor(a + b, c) == SumFor(a, c) + SumFor(b, c)
  {
    if b == [] {
      assert a + b == a;
    } else {
      var n := |b| - 1;
      assert (a + b)[..|a + b| - 1] == a + b[..n];
      SumsOfConcat(a, b[..n], c);
    }
  }

  function TotalMaxClaim(trees: seq<Airdrop>): nat {
    if trees == [] then 0 else TotalMaxClaim(trees[..|trees| - 1]) + trees[|trees| - 1].maxTotalClaim
  }

  /** What a claimant gets from all trees together. */
  function AmountFrom(trees: seq<Airdrop>, c: Pubkey): nat {
    if trees == [] then 0 else AmountFrom(trees[..|trees| - 1], c) + SumFor(trees[|trees| - 1].treeNodes, c)
  }

  lemma {:induction false} SumForDistinct(nodes: seq<TreeNode>, i: nat)
    requires i < |nodes| && Distinct(Claimants(nodes))
    ensures SumFor(nodes, nodes[i].claimant) == nodes[i].amount
  {
    var n := |nodes| - 1;
    var front := nodes[..n];
    assert Claimants(front) == Claimants(nodes)[..n];
    if i < n {
      SumForDistinct(front, i);
      assert Claimants(nodes)[i] != Claimants(nodes)[n];
    } else {
      forall k | 0 <= k < n
        ensures front[k].claimant != nodes[n].claimant
      {
        assert Claimants(nodes)[k] != Claimants(nodes)[n];
      }
      SumForAbsent(front, nodes[n].claimant);
    }
  }

  /** Merging keeps every claimant's amount. */
  lemma MergedSumFor(nodes: seq<TreeNode>, merged: seq<TreeNode>, c: Pubkey)
    requires MergedFrom(nodes, merged)
    ensures SumFor(merged, c) == SumFor(nodes, c)
  {
    FirstSeenExact(nodes);
    if c in FirstSeen(nodes) {
      var i :| 0 <= i < |merged| && Claimants(merged)[i] == c;
      SumForDistinct(merged, i);
    } else {
      forall k | 0 <= k < |merged|
        ensures merged[k].claimant != c
      {
        assert Claimants(merged)[k] in FirstSeen(nodes);
      }
      SumForAbsent(merged, c);
      forall k | 0 <= k < |nodes|
        ensures nodes[k].claimant != c
      {
      }
      SumForAbsent(nodes, c);
    }
  }

  lemma {:induction false} ConcatLast(shards: seq<seq<TreeNode>>)
    requires shards != []
    ensures Concat(shards) == Concat(shards[..|shards| - 1]) + shards[|shards| - 1]
  {
    if |shards| > 1 {
      ConcatLast(shards[1..]);
      assert shards[1..][..|shards| - 2] == shards[..|shards| - 1][1..];
    }
  }

  lemma {:induction false} TreesConserve(H: Hasher, shards: seq<seq<TreeNode>>, trees: seq<Airdrop>, c: Pubkey)
    requires |trees| == |shards|
    requires forall i :: 0 <= i < |trees| ==> TreeOfShard(H, shards[i], i, trees[i])
    ensures TotalMaxClaim(trees) == Total(Concat(shards))
    ensures AmountFrom(trees, c) == SumFor(Concat(shards), c)
  {
    if trees != [] {
      var n := |trees| - 1;
      TreesConserve(H, shards[..n], trees[..n], c);
      ConcatLast(shards);
      SumsOfConcat(Concat(shards[..n]), shards[n], c);
      MergedSumFor(shards[n], trees[n].treeNodes, c);
    }
  }

  /** The shards' trees award every claimant, and in all, exactly what the rows do. */
  lemma ShardingConserves(H: Hasher, rows: seq<TreeNode>, k: nat, trees: seq<Airdrop>, c: Pubkey)
    requires k > 0 && |trees| == |Shards(rows, k)|
    requires forall i :: 0 <= i < |trees| ==> TreeOfShard(H, Shards(rows, k)[i], i, trees[i])
    ensures TotalMaxClaim(trees) == Total(rows)
    ensures AmountFrom(trees, c) == SumFor(rows, c)
  {
    TreesConserve(H, Shards(rows, k), trees, c);
    ShardsConcatenate(rows, k);
  }
}
