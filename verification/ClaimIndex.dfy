/** The lookup table the service builds from all trees. */
module ClaimIndex {
  import opened Primitives
  import opened LeafEncoding
  import opened AirdropTree
  import opened Sharding

  /** The claimant index and the rolled-up totals. */
  datatype Index = Index(
    tree: map<Pubkey, (Pubkey, TreeNode)>, maxNumNodes: nat, maxTotalClaim: nat, distributors: seq<SingleDistributor>)

  datatype SingleDistributor = SingleDistributor(
    distributorKey: Pubkey, airdropVersion: u64, maxNumNodes: nat, maxTotalClaim: u64)

  function TotalMaxNodes(trees: seq<Airdrop>): nat {
    if trees == [] then 0 else TotalMaxNodes(trees[..|trees| - 1]) + trees[|trees| - 1].maxNumNodes
  }

  lemma {:induction false} PrefixTotals(trees: seq<Airdrop>, k: nat)
    requires k <= |trees|
    ensures TotalMaxClaim(trees[..k]) <= TotalMaxClaim(trees)
    ensures TotalMaxNodes(trees[..k]) <= TotalMaxNodes(trees)
  {
    if k < |trees| {
      var n := |trees| - 1;
      assert trees[..k] == trees[..n][..k];
      PrefixTotals(trees[..n], k);
    } else {
      assert trees[..k] == trees;
    }
  }

  /** The last node of a claimant in a list. */
  function LastNode(nodes: seq<TreeNode>, c: Pubkey): Option<TreeNode> {
    if nodes == [] then None
    else if nodes[|nodes| - 1].claimant == c then Some(nodes[|nodes| - 1])
    else LastNode(nodes[..|nodes| - 1], c)
  }

  /** What a lookup must return: the claimant's node in the last tree that has one, with that tree's distributor. */
  function Lookup(trees: seq<Airdrop>, pda: u64 -> Pubkey, c: Pubkey): Option<(Pubkey, TreeNode)> {
    if trees == [] then None
    else
      var last := trees[|trees| - 1];
      match LastNode(last.treeNodes, c)
      case Some(node) => Some((pda(last.airdropVersion), node))
      case None => Lookup(trees[..|trees| - 1], pda, c)
  }

  predicate Answers(tree: map<Pubkey, (Pubkey, TreeNode)>, c: Pubkey, answer: Option<(Pubkey, TreeNode)>) {
    if c in tree then answer == Some(tree[c]) else answer == None
  }

  /** The loading loop; None stands for the panic on an overflowing total. The address derivation is an argument. */
  method Load(trees: seq<Airdrop>, pda: u64 -> Pubkey) returns (r: Option<Index>)
    ensures r.None? <==> TotalMaxClaim(trees) > U64_MAX || TotalMaxNodes(trees) > U64_MAX
    ensures r.Some? ==>
      && (forall c :: Answers(r.value.tree, c, Lookup(trees, pda, c)))
      && r.value.maxTotalClaim == TotalMaxClaim(trees) && r.value.maxNumNodes == TotalMaxNodes(trees)
      && |r.value.distributors| == |trees|
      && forall k :: 0 <= k < |trees| ==>
           && r.value.distributors[k].distributorKey == pda(trees[k].airdropVersion)
           && r.value.distributors[k].airdropVersion == trees[k].airdropVersion
           && r.value.distributors[k].maxNumNodes == trees[k].maxNumNodes
           && r.value.distributors[k].maxTotalClaim == trees[k].maxTotalClaim
  {
    var tree: map<Pubkey, (Pubkey, TreeNode)> := map[];
    var maxNumNodes, maxTotalClaim := 0, 0;
    var distributors: seq<SingleDistributor> := [];
    for k := 0 to |trees|
      invariant forall c :: Answers(tree, c, Lookup(trees[..k], pda, c))
      invariant maxTotalClaim == TotalMaxClaim(trees[..k]) <= U64_MAX
      invariant maxNumNodes == TotalMaxNodes(trees[..k]) <= U64_MAX
      invariant |distributors| == k
      invariant forall j :: 0 <= j < k ==>
        distributors[j] == SingleDistributor(pda(trees[j].airdropVersion), trees[j].airdropVersion,
                                             trees[j].maxNumNodes, trees[j].maxTotalClaim)
    {
      var single := trees[k];
      var distributorKey := pda(single.airdropVersion);
      assert trees[..k + 1][..k] == trees[..k];
      PrefixTotals(trees, k + 1);
      if maxTotalClaim + single.maxTotalClaim > U64_MAX {
        return None;
      }
      maxTotalClaim := maxTotalClaim + single.maxTotalClaim;
      if maxNumNodes + single.maxNumNodes > U64_MAX {
        return None;
      }
      maxNumNodes := maxNumNodes + single.maxNumNodes;
      var summary := SingleDistributor(
        distributorKey, single.airdropVersion, single.maxNumNodes, single.maxTotalClaim);
      distributors := distributors + [summary];
      tree := InsertNodes(tree, single.treeNodes, distributorKey);
    }
    assert trees[..|trees|] == trees;
    return Some(Index(tree, maxNumNodes, maxTotalClaim, distributors));
  }

  /** The inner loop: later nodes overwrite earlier ones. */
  method InsertNodes(tree: map<Pubkey, (Pubkey, TreeNode)>, nodes: seq<TreeNode>, key: Pubkey)
    returns (after: map<Pubkey, (Pubkey, TreeNode)>)
    ensures forall c :: match LastNode(nodes, c)
                        case Some(node) => c in after && after[c] == (key, node)
                        case None => (c in after <==> c in tree) && (c in tree ==> after[c] == tree[c])
  {
    after := tree;
    for k := 0 to |nodes|
      invariant forall c :: match LastNode(nodes[..k], c)
                            case Some(node) => c in after && after[c] == (key, node)
                            case None => (c in after <==> c in tree) && (c in tree ==> after[c] == tree[c])
    {
      assert nodes[..k + 1][..k] == nodes[..k];
      after := after[nodes[k].claimant := (key, nodes[k])];
    }
    assert nodes[..|nodes|] == nodes;
  }

  // ----- what is served is accepted -----

  predicate Has(tree: Airdrop, c: Pubkey) {
    exists i :: 0 <= i < |tree.treeNodes| && tree.treeNodes[i].claimant == c
  }

  /** The node stands in the list, is the claimant's, and no later one is. */
  predicate LastAmong(nodes: seq<TreeNode>, c: Pubkey, node: TreeNode) {
    node.claimant == c
    && exists i :: 0 <= i < |nodes| && nodes[i] == node && forall j :: i < j < |nodes| ==> nodes[j].claimant != c
  }

  lemma {:induction false} LastNodeExact(nodes: seq<TreeNode>, c: Pubkey)
    ensures match LastNode(nodes, c)
            case Some(node) => LastAmong(nodes, c, node)
            case None => forall i :: 0 <= i < |nodes| ==> nodes[i].claimant != c
  {
    if nodes != [] {
      var n := |nodes| - 1;
      if nodes[n].claimant == c {
        assert nodes[n] == nodes[n] && forall j :: n < j < |nodes| ==> nodes[j].claimant != c;
      } else {
        var front := nodes[..n];
        LastNodeExact(front, c);
        if LastNode(front, c).Some? {
          var i :| 0 <= i < n && front[i] == LastNode(front, c).value
                   && forall j :: i < j < n ==> front[j].claimant != c;
          assert nodes[i] == front[i] && forall j :: i < j < |nodes| ==> nodes[j].claimant != c;
        }
      }
    }
  }

  /**
   * A lookup finds nothing exactly when no tree has the claimant; otherwise it answers with the last of its nodes
   * in the last tree that has one.
   */
  lemma {:induction false} LookupFindsLast(trees: seq<Airdrop>, pda: u64 -> Pubkey, c: Pubkey) returns (t: nat)
    ensures Lookup(trees, pda, c).None? <==> forall i :: 0 <= i < |trees| ==> !Has(trees[i], c)
    ensures Lookup(trees, pda, c).Some? ==>
      && t < |trees| && Has(trees[t], c) && (forall i :: t < i < |trees| ==> !Has(trees[i], c))
      && Lookup(trees, pda, c).value.0 == pda(trees[t].airdropVersion)
      && LastAmong(trees[t].treeNodes, c, Lookup(trees, pda, c).value.1)
  {
    t := 0;
    if trees != [] {
      var n := |trees| - 1;
      LastNodeExact(trees[n].treeNodes, c);
      match LastNode(trees[n].treeNodes, c)
      case Some(node) =>
        t := n;
        var i :| 0 <= i < |trees[n].treeNodes| && trees[n].treeNodes[i] == node;
        assert Has(trees[n], c);
      case None =>
        t := LookupFindsLast(trees[..n], pda, c);
        assert forall i :: 0 <= i < n ==> trees[..n][i] == trees[i];
        assert !Has(trees[n], c);
    }
  }

  lemma NodeAccepted(H: Hasher, tree: Airdrop, node: TreeNode)
    requires Consistent(H, tree) && node in tree.treeNodes
    ensures node.proof.Some?
    ensures ClaimAccepted(H, tree.merkleRoot, Entry(node.claimant, node.amount, 0), node.proof.value)
  {
    var i :| 0 <= i < |tree.treeNodes| && tree.treeNodes[i] == node;
    CommittedEntryAccepted(H, EntriesOf(tree.treeNodes), i);
  }

  /** What a lookup over built trees serves is accepted by the root of the tree it names. */
  lemma LookupServesAcceptedProof(H: Hasher, trees: seq<Airdrop>, pda: u64 -> Pubkey, c: Pubkey) returns (t: nat)
    requires forall i :: 0 <= i < |trees| ==> Consistent(H, trees[i])
    requires Lookup(trees, pda, c).Some?
    ensures var (key, node) := Lookup(trees, pda, c).value;
            && t < |trees| && key == pda(trees[t].airdropVersion) && node.proof.Some?
            && ClaimAccepted(H, trees[t].merkleRoot, Entry(c, node.amount, 0), node.proof.value)
  {
    t := LookupFindsLast(trees, pda, c);
    NodeAccepted(H, trees[t], Lookup(trees, pda, c).value.1);
  }

  /** All nodes of all trees. */
  function AllNodes(trees: seq<Airdrop>): seq<TreeNode> {
    if trees == [] then [] else AllNodes(trees[..|trees| - 1]) + trees[|trees| - 1].treeNodes
  }

  /** As of every tree the builder returns. */
  predicate HasTrueTotals(tree: Airdrop) {
    tree.treeNodes != [] && tree.maxNumNodes == |tree.treeNodes| && tree.maxTotalClaim == Total(tree.treeNodes)
  }

  /** The rolled-up totals count what is in the trees: their nodes, and the sum of their amounts. */
  lemma {:induction false} TotalsCountNodes(trees: seq<Airdrop>)
    requires forall i :: 0 <= i < |trees| ==> HasTrueTotals(trees[i])
    ensures TotalMaxNodes(trees) == |AllNodes(trees)|
    ensures TotalMaxClaim(trees) == Total(AllNodes(trees))
  {
    if trees != [] {
      var n := |trees| - 1;
      TotalsCountNodes(trees[..n]);
      assert HasTrueTotals(trees[n]);
      SumsOfConcat(AllNodes(trees[..n]), trees[n].treeNodes, trees[n].treeNodes[0].claimant);
    }
  }
}
