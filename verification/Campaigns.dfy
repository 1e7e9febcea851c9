/** A list too long for one tree: one distributor per shard, and what they pay together. */
module Campaigns {
  import opened Primitives
  import opened AirdropTree
  import opened Machine
  import opened Solvency
  import opened Payout
  import opened AirdropClaims
  import opened Sharding

  /** One shard's distributor: its birth, a run up to a funded state, and a run in which its members come. */
  datatype Campaign = Campaign(
    born: World, before: seq<Instruction>, run: seq<Instruction>, claimAt: seq<nat>, wallets: Pubkey -> Pubkey)

  function Funding(H: Hasher, campaign: Campaign): World {
    Run(H, campaign.born, campaign.before)
  }

  function End(H: Hasher, campaign: Campaign): World {
    Run(H, Funding(H, campaign), campaign.run)
  }

  /** A funded distributor created for the tree, at which every member comes, interleaved with anything. */
  ghost predicate Serves(H: Hasher, campaign: Campaign, tree: Airdrop) {
    && Consistent(H, tree) && Born(campaign.born) && CreatedFor(campaign.born.state.distributor.value, tree)
    && Funded(Funding(H, campaign).state) && |campaign.claimAt| == |tree.treeNodes|
    && forall i :: 0 <= i < |tree.treeNodes| ==>
         MemberComes(H, Funding(H, campaign), campaign.run, campaign.claimAt[i], tree.treeNodes[i], campaign.wallets)
  }

  ghost predicate CollisionAt(H: Hasher, campaign: Campaign, tree: Airdrop) {
    CollisionIn(H, End(H, campaign), EntriesOf(tree.treeNodes))
  }

  function ClaimedAt(H: Hasher, campaign: Campaign): nat {
    if End(H, campaign).state.distributor.Some? then End(H, campaign).state.distributor.value.totalAmountClaimed else 0
  }

  function TotalClaimed(H: Hasher, campaigns: seq<Campaign>): nat {
    if campaigns == [] then 0
    else TotalClaimed(H, campaigns[..|campaigns| - 1]) + ClaimedAt(H, campaigns[|campaigns| - 1])
  }

  /** What a claimant's own token accounts received from all distributors together. */
  function TotalReceived(H: Hasher, campaigns: seq<Campaign>, c: Pubkey): nat {
    if campaigns == [] then 0
    else
      var n := |campaigns| - 1;
      TotalReceived(H, campaigns[..n], c) + ReceivedBy(End(H, campaigns[n]).tally.received, c)
  }

  lemma MemberSums(nodes: seq<TreeNode>, received: map<Pubkey, nat>, c: Pubkey)
    requires Distinct(Claimants(nodes)) && MembersReceived(received, nodes)
    ensures ReceivedBy(received, c) == SumFor(nodes, c)
  {
    if c in received {
      var i :| 0 <= i < |nodes| && nodes[i].claimant == c;
      SumForDistinct(nodes, i);
    } else {
      SumForAbsent(nodes, c);
    }
  }

  predicate Paid(H: Hasher, campaign: Campaign, tree: Airdrop, c: Pubkey) {
    && ClaimedAt(H, campaign) == tree.maxTotalClaim
    && ReceivedBy(End(H, campaign).tally.received, c) == SumFor(tree.treeNodes, c)
  }

  /** The distributor of one shard pays its tree, in all and to each. */
  lemma ShardIsPaid(H: Hasher, campaign: Campaign, tree: Airdrop, c: Pubkey)
    requires Serves(H, campaign, tree) && !CollisionAt(H, campaign, tree)
    ensures Paid(H, campaign, tree, c)
  {
    AirdropServesEveryone(H, tree, campaign.born, campaign.before, campaign.run, campaign.claimAt, campaign.wallets);
    MemberSums(tree.treeNodes, End(H, campaign).tally.received, c);
  }

  lemma {:induction false} TreesArePaid(H: Hasher, campaigns: seq<Campaign>, trees: seq<Airdrop>, c: Pubkey)
    requires |campaigns| == |trees|
    requires forall i :: 0 <= i < |trees| ==> Paid(H, campaigns[i], trees[i], c)
    ensures TotalClaimed(H, campaigns) == TotalMaxClaim(trees)
    ensures TotalReceived(H, campaigns, c) == AmountFrom(trees, c)
  {
    if trees != [] {
      var n := |trees| - 1;
      TreesArePaid(H, campaigns[..n], trees[..n], c);
      assert Paid(H, campaigns[n], trees[n], c);
    }
  }

  /**
   * From the rows to the tokens: cut the rows into trees, create and fund one distributor per tree, and let all
   * members come, in any order and interleaved with anything. Together the distributors pay out exactly the rows'
   * total, and every claimant's own token accounts receive exactly the sum of its rows; or hashed bytes collide
   * at some shard.
   */
  lemma ShardedRowsArePaid(H: Hasher, rows: seq<TreeNode>, k: nat, trees: seq<Airdrop>, campaigns: seq<Campaign>,
                           c: Pubkey)
    requires k > 0 && |campaigns| == |trees| == |Shards(rows, k)|
    requires forall i :: 0 <= i < |trees| ==>
      TreeOfShard(H, Shards(rows, k)[i], i, trees[i]) && Serves(H, campaigns[i], trees[i])
    ensures || (exists i :: 0 <= i < |trees| && CollisionAt(H, campaigns[i], trees[i]))
            || (TotalClaimed(H, campaigns) == Total(rows) && TotalReceived(H, campaigns, c) == SumFor(rows, c))
  {
    if forall i :: 0 <= i < |trees| ==> !CollisionAt(H, campaigns[i], trees[i]) {
      forall i | 0 <= i < |trees|
        ensures Paid(H, campaigns[i], trees[i], c)
      {
        ShardIsPaid(H, campaigns[i], trees[i], c);
      }
      TreesArePaid(H, campaigns, trees, c);
      ShardingConserves(H, rows, k, trees, c);
    }
  }
}
