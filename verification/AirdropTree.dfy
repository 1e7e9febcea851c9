/** The airdrop tree: merging duplicate claimants, attaching proofs, totalling, validating. */
module AirdropTree {
  import opened Primitives
  import opened MerkleTrees
  import opened MerkleProofs
  import opened LeafEncoding

  datatype TreeNode = TreeNode(claimant: Pubkey, amount: u64, proof: Option<seq<Digest>>) {
    function Hash(H: Hasher): Digest {
      H(claimant + U64LeBytes(amount) + U64LeBytes(0))
    }
  }

  datatype Airdrop = Airdrop(
    merkleRoot: Digest, airdropVersion: u64, maxNumNodes: nat, maxTotalClaim: u64, treeNodes: seq<TreeNode>)

  datatype TreeError = RootError | TooManyNodes | LengthMismatch | DuplicateClaimants | SumMismatch | InvalidProof

  /** A call returns a value, returns an error, or panics (unwrap, assert_eq, checked arithmetic). */
  datatype Outcome<+T> = Done(value: T) | Failed(error: TreeError) | Panicked

  const MAX_NODES: nat := 0xFFFF_FFFF

  // ----- what merging must conserve -----

  /** Claimants in the order they are first seen. */
  function FirstSeen(nodes: seq<TreeNode>): seq<Pubkey> {
    if nodes == [] then []
    else
      var before, c := FirstSeen(nodes[..|nodes| - 1]), nodes[|nodes| - 1].claimant;
      if c in before then before else before + [c]
  }

  function SumFor(nodes: seq<TreeNode>, c: Pubkey): nat {
    if nodes == [] then 0
    else
      var last := nodes[|nodes| - 1];
      SumFor(nodes[..|nodes| - 1], c) + if last.claimant == c then last.amount else 0
  }

  function Total(nodes: seq<TreeNode>): nat {
    if nodes == [] then 0 else Total(nodes[..|nodes| - 1]) + nodes[|nodes| - 1].amount
  }

  function Claimants(nodes: seq<TreeNode>): (cs: seq<Pubkey>)
    ensures |cs| == |nodes|
    ensures forall i :: 0 <= i < |cs| ==> cs[i] == nodes[i].claimant
  {
    seq(|nodes|, i requires 0 <= i < |nodes| => nodes[i].claimant)
  }

  lemma {:induction false} FirstSeenExact(nodes: seq<TreeNode>)
    ensures Distinct(FirstSeen(nodes))
    ensures forall c :: c in FirstSeen(nodes) <==> exists k :: 0 <= k < |nodes| && nodes[k].claimant == c
    ensures nodes != [] <==> FirstSeen(nodes) != []
  {
    if nodes != [] {
      var n := |nodes| - 1;
      var prefix := nodes[..n];
      FirstSeenExact(prefix);
      forall c
        ensures c in FirstSeen(nodes) <==> exists k :: 0 <= k < |nodes| && nodes[k].claimant == c
      {
        if c in FirstSeen(nodes) && c != nodes[n].claimant {
          var k :| 0 <= k < n && prefix[k].claimant == c;
          assert nodes[k].claimant == c;
        }
        if k :| 0 <= k < |nodes| && nodes[k].claimant == c {
          if k < n {
            assert prefix[k].claimant == c;
          }
        }
      }
    }
  }

  /** Merged order is the order of first appearance: ki is the first position of claimant i, kj any of claimant j. */
  lemma {:induction false} FirstSeenInOrder(nodes: seq<TreeNode>, i: nat, j: nat, ki: nat, kj: nat)
    requires i < j < |FirstSeen(nodes)|
    requires ki < |nodes| && nodes[ki].claimant == FirstSeen(nodes)[i]
    requires forall k :: 0 <= k < ki ==> nodes[k].claimant != nodes[ki].claimant
    requires kj < |nodes| && nodes[kj].claimant == FirstSeen(nodes)[j]
    ensures ki < kj
  {
    var n := |nodes| - 1;
    var prefix := nodes[..n];
    FirstSeenExact(prefix);
    assert FirstSeen(prefix)[i] in FirstSeen(prefix);
    var k :| 0 <= k < n && prefix[k].claimant == FirstSeen(prefix)[i];
    assert nodes[k].claimant == nodes[ki].claimant;
    if kj < n {
      assert prefix[kj].claimant in FirstSeen(prefix);
      FirstSeenInOrder(prefix, i, j, ki, kj);
    }
  }

  function SumOver(nodes: seq<TreeNode>, cs: seq<Pubkey>): nat {
    if cs == [] then 0 else SumOver(nodes, cs[..|cs| - 1]) + SumFor(nodes, cs[|cs| - 1])
  }

  lemma {:induction false} SumOverGrows(nodes: seq<TreeNode>, cs: seq<Pubkey>)
    requires nodes != [] && Distinct(cs)
    ensures SumOver(nodes, cs) == SumOver(nodes[..|nodes| - 1], cs)
              + if nodes[|nodes| - 1].claimant in cs then nodes[|nodes| - 1].amount else 0
  {
    if cs != [] {
      SumOverGrows(nodes, cs[..|cs| - 1]);
      assert cs == cs[..|cs| - 1] + [cs[|cs| - 1]];
    }
  }

  lemma {:induction false} SumForAbsent(nodes: seq<TreeNode>, c: Pubkey)
    requires forall k :: 0 <= k < |nodes| ==> nodes[k].claimant != c
    ensures SumFor(nodes, c) == 0
  {
    if nodes != [] {
      SumForAbsent(nodes[..|nodes| - 1], c);
    }
  }

  /** The per-claimant sums over the merged order add up to the whole input. */
  lemma {:induction false} MergingConserves(nodes: seq<TreeNode>)
    ensures SumOver(nodes, FirstSeen(nodes)) == Total(nodes)
  {
    if nodes != [] {
      var n := |nodes| - 1;
      var prefix, last := nodes[..n], nodes[n];
      MergingConserves(prefix);
      FirstSeenExact(prefix);
      var seen := FirstSeen(prefix);
      SumOverGrows(nodes, seen);
      if last.claimant !in seen {
        forall k | 0 <= k < n
          ensures prefix[k].claimant != last.claimant
        {
          assert prefix[k].claimant in seen;
        }
        SumForAbsent(prefix, last.claimant);
        assert (seen + [last.claimant])[..|seen|] == seen;
      }
    }
  }

  lemma {:induction false} SumForAtMostTotal(nodes: seq<TreeNode>, c: Pubkey)
    ensures SumFor(nodes, c) <= Total(nodes)
  {
    if nodes != [] {
      SumForAtMostTotal(nodes[..|nodes| - 1], c);
    }
  }

  lemma {:induction false} PrefixSums(nodes: seq<TreeNode>, k: nat, c: Pubkey)
    requires k <= |nodes|
    ensures SumFor(nodes[..k], c) <= SumFor(nodes, c)
    ensures Total(nodes[..k]) <= Total(nodes)
  {
    if k < |nodes| {
      var n := |nodes| - 1;
      assert nodes[..k] == nodes[..n][..k];
      PrefixSums(nodes[..n], k, c);
    } else {
      assert nodes[..k] == nodes;
    }
  }

  /** `merged` holds each claimant once, in first-seen order, with the sum of its amounts. */
  predicate MergedFrom(nodes: seq<TreeNode>, merged: seq<TreeNode>) {
    && Claimants(merged) == FirstSeen(nodes)
    && forall i :: 0 <= i < |merged| ==> merged[i].amount == SumFor(nodes, merged[i].claimant)
  }

  lemma {:induction false} TotalIsSumOver(nodes: seq<TreeNode>, part: seq<TreeNode>)
    requires forall i :: 0 <= i < |part| ==> part[i].amount == SumFor(nodes, part[i].claimant)
    ensures Total(part) == SumOver(nodes, Claimants(part))
  {
    if part != [] {
      var n := |part| - 1;
      TotalIsSumOver(nodes, part[..n]);
      assert Claimants(part)[..n] == Claimants(part[..n]);
    }
  }

  lemma MergedTotal(nodes: seq<TreeNode>, merged: seq<TreeNode>)
    requires MergedFrom(nodes, merged)
    ensures Total(merged) == Total(nodes)
    ensures Distinct(Claimants(merged))
    ensures merged == [] <==> nodes == []
  {
    TotalIsSumOver(nodes, merged);
    MergingConserves(nodes);
    FirstSeenExact(nodes);
  }

  // ----- the steps of the builder -----

  /** Combines nodes of the same claimant, keeping the original order; None stands for the panic of `checked_add`. */
  method CombineDuplicates(nodes: seq<TreeNode>) returns (merged: Option<seq<TreeNode>>)
    ensures merged.None? <==> exists c :: SumFor(nodes, c) > U64_MAX
    ensures merged.Some? ==> MergedFrom(nodes, merged.value)
  {
    // an insertion-ordered map: the keys in order, and the entry of each
    var order: seq<Pubkey> := [];
    var entries: map<Pubkey, TreeNode> := map[];
    for k := 0 to |nodes|
      invariant order == FirstSeen(nodes[..k])
      invariant forall c :: c in entries <==> c in order
      invariant forall c :: c in entries ==> entries[c].claimant == c && entries[c].amount == SumFor(nodes[..k], c)
      invariant forall c :: c !in entries ==> SumFor(nodes[..k], c) == 0
    {
      var treeNode := nodes[k];
      var claimant := treeNode.claimant;
      assert nodes[..k + 1][..k] == nodes[..k];
      if claimant in entries {
        var sum := entries[claimant].amount + treeNode.amount;
        if sum > U64_MAX {
          assert SumFor(nodes[..k + 1], claimant) == sum;
          PrefixSums(nodes, k + 1, claimant);
          return None;
        }
        entries := entries[claimant := entries[claimant].(amount := sum)];
      } else {
        order := order + [claimant];
        entries := entries[claimant := treeNode];
      }
    }
    assert nodes[..|nodes|] == nodes;
    var values := seq(|order|, i requires 0 <= i < |order| && order[i] in entries => entries[order[i]]);
    assert Claimants(values) == order;
    return Some(values);
  }

  /** `get_max_total_claim`; None stands for its panic on overflow. */
  method GetMaxTotalClaim(nodes: seq<TreeNode>) returns (total: Option<u64>)
    ensures total == if Total(nodes) <= U64_MAX then Some(Total(nodes)) else None
  {
    var acc: u64 := 0;
    for k := 0 to |nodes|
      invariant acc == Total(nodes[..k])
    {
      assert nodes[..k + 1][..k] == nodes[..k];
      if acc + nodes[k].amount > U64_MAX {
        PrefixSums(nodes, k + 1, nodes[k].claimant);
        return None;
      }
      acc := acc + nodes[k].amount;
    }
    assert nodes[..|nodes|] == nodes;
    return Some(acc);
  }

  /** The entries a list of tree nodes commits to: nothing is locked. */
  function EntriesOf(nodes: seq<TreeNode>): (entries: seq<Entry>)
    ensures |entries| == |nodes|
    ensures forall i :: 0 <= i < |entries| ==> entries[i] == Entry(nodes[i].claimant, nodes[i].amount, 0)
  {
    seq(|nodes|, i requires 0 <= i < |nodes| => Entry(nodes[i].claimant, nodes[i].amount, 0))
  }

  method HashNodes(H: Hasher, nodes: seq<TreeNode>) returns (hashes: seq<Bytes>)
    ensures hashes == Items(H, EntriesOf(nodes))
  {
    hashes := seq(|nodes|, i requires 0 <= i < |nodes| => nodes[i].Hash(H));
  }

  /** `verify_proof`: rebuild the tree, compare roots (a mismatch panics), check every node's proof. */
  method VerifyProof(H: Hasher, tree: Airdrop) returns (r: Outcome<()>)
    ensures r == if tree.treeNodes == [] then Failed(InvalidProof)
                 else if tree.merkleRoot != CommitRoot(H, EntriesOf(tree.treeNodes)) then Panicked
                 else Done(())
  {
    var hashedNodes := HashNodes(H, tree.treeNodes);
    var mk := New(H, hashedNodes, true);
    RootIsLast(H, hashedNodes, true);
    var root := GetRoot(mk);
    if root.None? {
      return Failed(InvalidProof);
    }
    if root.value != tree.merkleRoot {
      return Panicked;
    }
    var allAccepted := true;
    for i := 0 to |hashedNodes|
      invariant allAccepted
    {
      var node := HashLeaf(H, hashedNodes[i]);
      var proof := GetProof(mk, i, PairHash(H, true), Leaves(H, hashedNodes));
      var accepted := Verify(H, proof.value, tree.merkleRoot, node);
      Completeness(H, hashedNodes, i);
      allAccepted := allAccepted && accepted;
    }
    return if allAccepted then Done(()) else Failed(InvalidProof);
  }

  lemma {:induction false} SetSizeMeansDistinct<T>(s: seq<T>)
    ensures |set x | x in s| <= |s|
    ensures |set x | x in s| == |s| <==> Distinct(s)
  {
    if s != [] {
      var n := |s| - 1;
      var front, last := s[..n], s[n];
      SetSizeMeansDistinct(front);
      var members := set x | x in front;
      assert s == front + [last];
      assert (set x | x in s) == members + {last};
      if last in front {
        var i :| 0 <= i < n && front[i] == last;
        assert s[i] == s[n];
      } else {
        assert forall i :: 0 <= i < n ==> s[i] == front[i];
      }
    }
  }

  /** As many nodes as the tree says, within the limit, of different claimants. */
  predicate Countable(tree: Airdrop) {
    |tree.treeNodes| == tree.maxNumNodes <= MAX_NODES && Distinct(Claimants(tree.treeNodes))
  }

  /** `validate`: what it answers about any tree, consistent or not. */
  method Validate(H: Hasher, tree: Airdrop) returns (r: Outcome<()>)
    ensures r == Failed(TooManyNodes) <==> tree.maxNumNodes > 0xFFFF_FFFF
    ensures r == Failed(LengthMismatch) <==> tree.maxNumNodes <= 0xFFFF_FFFF && |tree.treeNodes| != tree.maxNumNodes
    ensures r == Failed(DuplicateClaimants) <==>
              |tree.treeNodes| == tree.maxNumNodes <= 0xFFFF_FFFF && !Distinct(Claimants(tree.treeNodes))
    ensures r == Failed(SumMismatch) <==> Countable(tree) && tree.maxTotalClaim != Total(tree.treeNodes) <= U64_MAX
    ensures r == Failed(InvalidProof) <==>
              Countable(tree) && tree.maxTotalClaim == Total(tree.treeNodes) && tree.treeNodes == []
    ensures r == Panicked <==>
              && Countable(tree)
              && (Total(tree.treeNodes) > U64_MAX
                  || (tree.maxTotalClaim == Total(tree.treeNodes) && tree.treeNodes != []
                      && tree.merkleRoot != CommitRoot(H, EntriesOf(tree.treeNodes))))
    ensures r == Done(()) <==>
              && Countable(tree) && tree.maxTotalClaim == Total(tree.treeNodes) && tree.treeNodes != []
              && tree.merkleRoot == CommitRoot(H, EntriesOf(tree.treeNodes))
  {
    if tree.maxNumNodes > MAX_NODES {
      return Failed(TooManyNodes);
    }
    if |tree.treeNodes| != tree.maxNumNodes {
      return Failed(LengthMismatch);
    }
    var claimants := Claimants(tree.treeNodes);
    var uniqueNodes := set c | c in claimants;
    SetSizeMeansDistinct(claimants);
    if |uniqueNodes| != |tree.treeNodes| {
      return Failed(DuplicateClaimants);
    }
    var sum := GetMaxTotalClaim(tree.treeNodes);
    if sum.None? {
      return Panicked;
    }
    if sum.value != tree.maxTotalClaim {
      return Failed(SumMismatch);
    }
    r := VerifyProof(H, tree);
  }

  /** A tree whose parts agree: distinct claimants, true totals, the committed root, a stored proof per node. */
  ghost predicate Consistent(H: Hasher, tree: Airdrop) {
    var nodes := tree.treeNodes;
    && nodes != [] && |nodes| == tree.maxNumNodes <= MAX_NODES
    && Distinct(Claimants(nodes))
    && Total(nodes) == tree.maxTotalClaim
    && tree.merkleRoot == CommitRoot(H, EntriesOf(nodes))
    && forall i :: 0 <= i < |nodes| ==> nodes[i].proof == Some(EntryProof(H, EntriesOf(nodes), i))
  }

  lemma SameEntries(nodes: seq<TreeNode>, merged: seq<TreeNode>, proved: seq<TreeNode>)
    requires MergedFrom(nodes, merged) && |proved| == |merged|
    requires forall i :: 0 <= i < |merged| ==>
      proved[i].claimant == merged[i].claimant && proved[i].amount == merged[i].amount
    ensures MergedFrom(nodes, proved) && EntriesOf(proved) == EntriesOf(merged)
  {
    assert Claimants(proved) == Claimants(merged);
  }

  /** Writes each node's proof into it. */
  method AttachProofs(mt: MerkleTree, nodes: seq<TreeNode>, ghost H: Hasher) returns (proved: seq<TreeNode>)
    requires mt == TreeOf(H, Items(H, EntriesOf(nodes)), true)
    ensures |proved| == |nodes|
    ensures forall k :: 0 <= k < |nodes| ==>
      proved[k] == nodes[k].(proof := Some(EntryProof(H, EntriesOf(nodes), k)))
  {
    ghost var items := Items(H, EntriesOf(nodes));
    proved := nodes;
    for i := 0 to |nodes|
      invariant |proved| == |nodes|
      invariant forall k :: 0 <= k < i ==>
        proved[k] == nodes[k].(proof := Some(EntryProof(H, EntriesOf(nodes), k)))
      invariant forall k :: i <= k < |nodes| ==> proved[k] == nodes[k]
    {
      var proof := GetProof(mt, i, PairHash(H, true), Leaves(H, items));
      proved := proved[i := proved[i].(proof := proof)];
    }
  }

  /** `AirdropMerkleTree::new`: which inputs build, which are refused, which panic, and what is built. */
  method Build(H: Hasher, nodes: seq<TreeNode>, version: u64) returns (r: Outcome<Airdrop>)
    ensures r == Panicked <==> Total(nodes) > U64_MAX
    ensures r == Failed(RootError) <==> nodes == []
    ensures r == Failed(TooManyNodes) <==> Total(nodes) <= U64_MAX && |FirstSeen(nodes)| > MAX_NODES
    ensures r.Done? <==> nodes != [] && Total(nodes) <= U64_MAX && |FirstSeen(nodes)| <= MAX_NODES
    ensures r.Done? ==> Consistent(H, r.value) && r.value.airdropVersion == version
    ensures r.Done? ==> MergedFrom(nodes, r.value.treeNodes) && r.value.maxTotalClaim == Total(nodes)
  {
    var combined := CombineDuplicates(nodes);
    if combined.None? {
      var c :| SumFor(nodes, c) > U64_MAX;
      SumForAtMostTotal(nodes, c);
      return Panicked;
    }
    var merged := combined.value;
    MergedTotal(nodes, merged);

    var hashedNodes := HashNodes(H, merged);
    var mt := New(H, hashedNodes, true);
    RootIsLast(H, hashedNodes, true);

    var treeNodes := AttachProofs(mt, merged, H);
    SameEntries(nodes, merged, treeNodes);
    MergedTotal(nodes, treeNodes);

    var maxTotalClaim := GetMaxTotalClaim(treeNodes);
    if maxTotalClaim.None? {
      return Panicked;
    }
    var root := GetRoot(mt);
    if root.None? {
      return Failed(RootError);
    }
    var tree := Airdrop(root.value, version, |treeNodes|, maxTotalClaim.value, treeNodes);
    var validation := Validate(H, tree);
    match validation
    case Done(_) => return Done(tree);
    case Failed(error) => return Failed(error);
    case Panicked => return Panicked;
  }
}
