/** The airdrop builder's trees, run through the distributor: the locked = 0 instance of the join. */
module AirdropClaims {
  import opened Primitives
  import opened Accounts
  import opened LeafEncoding
  import opened MerkleProofs
  import opened AirdropTree
  import opened ClaimIndex
  import opened Machine
  import opened MapSums
  import opened Invariants
  import opened Solvency
  import opened Claimability
  import opened Payout
  import opened Permissions

  /** Off-chain and on-chain leaves agree: the builder hashes a node as the program hashes its claim. */
  lemma SameLeaf(H: Hasher, node: TreeNode)
    ensures node.Hash(H) == NodeHash(H, Entry(node.claimant, node.amount, 0))
  {
  }

  lemma {:induction false} TotalIsWorth(nodes: seq<TreeNode>)
    ensures TotalWorth(EntriesOf(nodes)) == Total(nodes)
  {
    if nodes != [] {
      var n := |nodes| - 1;
      TotalIsWorth(nodes[..n]);
      assert EntriesOf(nodes)[..n] == EntriesOf(nodes[..n]);
    }
  }

  /** The distributor was created with a tree's root and totals, and is not closable. */
  predicate CreatedFor(d: DistributorData, tree: Airdrop) {
    d.root == tree.merkleRoot && d.maxTotalClaim == tree.maxTotalClaim && d.maxNumNodes == tree.maxNumNodes
    && !d.closable
  }

  lemma MembersAreDistinct(H: Hasher, tree: Airdrop)
    requires Consistent(H, tree)
    ensures DistinctClaimants(EntriesOf(tree.treeNodes))
  {
    forall i, j | 0 <= i < j < |tree.treeNodes|
      ensures tree.treeNodes[i].claimant != tree.treeNodes[j].claimant
    {
      assert Claimants(tree.treeNodes)[i] != Claimants(tree.treeNodes)[j];
    }
  }

  lemma TreeCommits(H: Hasher, d: DistributorData, tree: Airdrop)
    requires Consistent(H, tree) && CreatedFor(d, tree)
    ensures Commits(H, d, EntriesOf(tree.treeNodes))
  {
    TotalIsWorth(tree.treeNodes);
    MembersAreDistinct(H, tree);
  }

  predicate Awards(tree: Airdrop, claimant: Pubkey, amount: u64) {
    exists i :: 0 <= i < |tree.treeNodes|
      && tree.treeNodes[i].claimant == claimant && tree.treeNodes[i].amount == amount
  }

  /**
   * Entitlement: against a built tree's root a claim passes only for a claimant of the tree, with its
   * merged amount and nothing locked, or hashed bytes collide.
   */
  lemma OnlyMergedAmounts(H: Hasher, tree: Airdrop, claimant: Pubkey, unlocked: u64, locked: u64, proof: seq<Digest>)
    requires Consistent(H, tree)
    requires ClaimAccepted(H, tree.merkleRoot, Entry(claimant, unlocked, locked), proof)
    ensures || (locked == 0 && Awards(tree, claimant, unlocked))
            || Collides(H, ClaimInputs(H, Entry(claimant, unlocked, locked), proof)
                           + CommitInputs(H, EntriesOf(tree.treeNodes)))
  {
    var entries, e := EntriesOf(tree.treeNodes), Entry(claimant, unlocked, locked);
    EntitlementAgreement(H, entries, e, proof);
    if e in entries {
      var i :| 0 <= i < |entries| && entries[i] == e;
      assert tree.treeNodes[i].claimant == claimant;
    }
  }

  /** The new_claim a member of the tree sends: its own amount and proof, nothing locked. */
  function MemberClaim(node: TreeNode, wallet: Pubkey): Instruction
    requires node.proof.Some?
  {
    NewClaim(node.claimant, wallet, node.amount, 0, node.proof.value)
  }

  lemma MemberClaimIsEntryClaim(H: Hasher, tree: Airdrop, i: nat, wallets: Pubkey -> Pubkey)
    requires Consistent(H, tree) && i < |tree.treeNodes|
    ensures tree.treeNodes[i].proof.Some?
    ensures ClaimOf(H, EntriesOf(tree.treeNodes), i, wallets)
         == MemberClaim(tree.treeNodes[i], wallets(tree.treeNodes[i].claimant))
  {
  }

  /** The claims of the listed members, in that order. */
  predicate MemberClaims(tree: Airdrop, order: seq<nat>, wallets: Pubkey -> Pubkey, claims: seq<Instruction>) {
    |order| == |claims| && forall k :: 0 <= k < |order| ==>
      order[k] < |tree.treeNodes| && tree.treeNodes[order[k]].proof.Some?
      && claims[k] == MemberClaim(tree.treeNodes[order[k]], wallets(tree.treeNodes[order[k]].claimant))
  }

  lemma MemberClaimsAreEntryClaims(H: Hasher, tree: Airdrop, order: seq<nat>, wallets: Pubkey -> Pubkey,
                                   claims: seq<Instruction>)
    requires Consistent(H, tree) && MemberClaims(tree, order, wallets, claims)
    ensures forall k :: 0 <= k < |order| ==> order[k] < |tree.treeNodes|
    ensures claims == ClaimsOf(H, EntriesOf(tree.treeNodes), order, wallets)
  {
  }

  lemma {:induction false} NothingLocked(register: map<Pubkey, Entry>)
    requires forall c :: c in register ==> register[c].locked == 0
    ensures Sum(register, LockedPart) == 0
    decreases |register|
  {
    if register != map[] {
      var c :| c in register;
      SumRemove(register, c, LockedPart);
      NothingLocked(register - {c});
    }
  }

  lemma TreeLocksNothing(tree: Airdrop)
    ensures Sum(Register(EntriesOf(tree.treeNodes)), LockedPart) == 0
  {
    RegisterExact(EntriesOf(tree.treeNodes));
    NothingLocked(Register(EntriesOf(tree.treeNodes)));
  }

  /** The tree's members, in their own words: what each received is the amount on its node, and nobody else anything. */
  predicate MembersReceived(received: map<Pubkey, nat>, nodes: seq<TreeNode>) {
    && (forall i :: 0 <= i < |nodes| ==>
          nodes[i].claimant in received && received[nodes[i].claimant] == nodes[i].amount)
    && forall c :: c in received ==> exists i :: 0 <= i < |nodes| && nodes[i].claimant == c
  }

  lemma ReceivedByMembers(H: Hasher, tree: Airdrop, received: map<Pubkey, nat>)
    requires Consistent(H, tree) && Received(received, EntriesOf(tree.treeNodes), UnlockedPart)
    ensures MembersReceived(received, tree.treeNodes)
  {
    var entries := EntriesOf(tree.treeNodes);
    MembersAreDistinct(H, tree);
    RegisterExact(entries);
    forall i | 0 <= i < |entries|
      ensures entries[i].claimant in received && received[entries[i].claimant] == entries[i].unlocked
    {
    }
    forall c | c in received
      ensures exists i :: 0 <= i < |tree.treeNodes| && tree.treeNodes[i].claimant == c
    {
      var i :| 0 <= i < |entries| && entries[i] == Register(entries)[c];
      assert tree.treeNodes[i].claimant == c;
    }
  }

  lemma MembersPaid(H: Hasher, tree: Airdrop, start: World, claims: seq<Instruction>)
    requires Consistent(H, tree) && AllClaimedAfter(H, start, claims, EntriesOf(tree.treeNodes))
    ensures var d := Run(H, start, claims).state.distributor;
            && d.Some? && d.value.numNodesClaimed == d.value.maxNumNodes
            && d.value.totalAmountClaimed == d.value.maxTotalClaim
    ensures MembersReceived(Run(H, start, claims).tally.received, tree.treeNodes)
  {
    TreeLocksNothing(tree);
    ReceivedByMembers(H, tree, Run(H, start, claims).tally.received);
  }

  /**
   * The whole way from the builder to the last claim: for a tree the builder returns, and a funded
   * distributor created for it, the members' claims succeed in every order and end with both counters
   * exactly at their maxima and every member paid its amount.
   */
  lemma AirdropClaimsInAnyOrder(H: Hasher, tree: Airdrop, w: World, before: seq<Instruction>, order: seq<nat>,
                                wallets: Pubkey -> Pubkey, claims: seq<Instruction>)
    requires Consistent(H, tree) && Born(w) && CreatedFor(w.state.distributor.value, tree)
    requires var s := Run(H, w, before).state;
             Open(s) && Funded(s) && s.statuses == map[] && WalletsReady(s, EntriesOf(tree.treeNodes), wallets)
    requires Distinct(order) && |order| == |tree.treeNodes| && MemberClaims(tree, order, wallets, claims)
    ensures var start := Run(H, w, before);
            && AllSucceed(H, start, claims)
            && var end := Run(H, start, claims).state;
               && end.distributor.Some?
               && end.distributor.value.numNodesClaimed == end.distributor.value.maxNumNodes
               && end.distributor.value.totalAmountClaimed == end.distributor.value.maxTotalClaim
    ensures MembersReceived(Run(H, Run(H, w, before), claims).tally.received, tree.treeNodes)
  {
    BirthIsValid(w);
    TreeCommits(H, w.state.distributor.value, tree);
    MemberClaimsAreEntryClaims(H, tree, order, wallets, claims);
    EveryoneClaimsInAnyOrder(H, w, before, EntriesOf(tree.treeNodes), order, wallets);
    MembersPaid(H, tree, Run(H, w, before), claims);
  }

  /** Nothing locked means nothing outstanding, and nothing withdrawn. */
  lemma NothingIsOutstanding(w: World, tree: Airdrop)
    requires Valid(w) && w.state.distributor.Some?
    requires Faithful(w.state.statuses, Register(EntriesOf(tree.treeNodes)))
    ensures Sum(w.state.statuses, Outstanding) == 0
    ensures forall c :: c in w.state.statuses ==> w.state.statuses[c].lockedAmountWithdrawn == 0
  {
    RegisterExact(EntriesOf(tree.treeNodes));
    NothingOutstanding(w.state.statuses);
    forall c | c in w.state.statuses
      ensures w.state.statuses[c].lockedAmountWithdrawn == 0
    {
      assert StatusOk(w, w.state.distributor.value, c);
    }
  }

  /** The member has its status, or submits the claim stored for it at an open moment. */
  predicate MemberComes(H: Hasher, w: World, run: seq<Instruction>, k: nat, node: TreeNode, wallets: Pubkey -> Pubkey)
    requires node.proof.Some?
  {
    || node.claimant in w.state.statuses
    || SubmittedWhileOpen(H, w, run, k, MemberClaim(node, wallets(node.claimant)))
  }

  lemma MemberComesAsEntry(H: Hasher, tree: Airdrop, w: World, run: seq<Instruction>, i: nat, k: nat,
                           wallets: Pubkey -> Pubkey)
    requires Consistent(H, tree) && i < |tree.treeNodes|
    requires MemberComes(H, w, run, k, tree.treeNodes[i], wallets)
    ensures || EntriesOf(tree.treeNodes)[i].claimant in w.state.statuses
            || SubmittedWhileOpen(H, w, run, k, ClaimOf(H, EntriesOf(tree.treeNodes), i, wallets))
  {
    MemberClaimIsEntryClaim(H, tree, i, wallets);
  }

  /** When every member has its status the tree's totals are paid, to each its amount. */
  lemma MembersServed(H: Hasher, tree: Airdrop, w: World)
    requires Consistent(H, tree) && Valid(w) && w.state.distributor.Some?
    requires Commits(H, w.state.distributor.value, EntriesOf(tree.treeNodes))
    requires Faithful(w.state.statuses, Register(EntriesOf(tree.treeNodes)))
    requires w.state.statuses.Keys == Register(EntriesOf(tree.treeNodes)).Keys
    requires var d := w.state.distributor.value;
             && d.numNodesClaimed == d.maxNumNodes
             && d.maxTotalClaim - d.totalAmountClaimed == Sum(w.state.statuses, Outstanding)
    ensures var d := w.state.distributor.value;
            && d.numNodesClaimed == tree.maxNumNodes && d.totalAmountClaimed == tree.maxTotalClaim
            && MembersReceived(w.tally.received, tree.treeNodes)
  {
    NothingIsOutstanding(w, tree);
    TotalIsWorth(tree.treeNodes);
    assert MembersReceived(w.tally.received, tree.treeNodes) by {
      UnlockedReceived(w, EntriesOf(tree.treeNodes));
      ReceivedByMembers(H, tree, w.tally.received);
    }
  }

  /**
   * The same with the members' claims interleaved with anything, for the members still missing in any funded
   * state of any run: both counters end exactly at the tree's totals and every member's own token accounts have
   * received its amount, or hashed bytes collide.
   */
  lemma AirdropServesEveryone(H: Hasher, tree: Airdrop, w: World, before: seq<Instruction>, run: seq<Instruction>,
                              claimAt: seq<nat>, wallets: Pubkey -> Pubkey)
    requires Consistent(H, tree) && Born(w) && CreatedFor(w.state.distributor.value, tree)
    requires Funded(Run(H, w, before).state) && |claimAt| == |tree.treeNodes|
    requires forall i :: 0 <= i < |claimAt| ==>
      MemberComes(H, Run(H, w, before), run, claimAt[i], tree.treeNodes[i], wallets)
    ensures var end := Run(H, Run(H, w, before), run);
            && end.state.distributor.Some?
            && (CollisionIn(H, end, EntriesOf(tree.treeNodes)) ||
                var d := end.state.distributor.value;
                && d.numNodesClaimed == tree.maxNumNodes && d.totalAmountClaimed == tree.maxTotalClaim
                && MembersReceived(end.tally.received, tree.treeNodes))
  {
    var entries, end := EntriesOf(tree.treeNodes), Run(H, Run(H, w, before), run);
    TreeCommits(H, w.state.distributor.value, tree);
    forall i | 0 <= i < |entries|
      ensures || entries[i].claimant in Run(H, w, before).state.statuses
              || SubmittedWhileOpen(H, Run(H, w, before), run, claimAt[i], ClaimOf(H, entries, i, wallets))
    {
      MemberComesAsEntry(H, tree, Run(H, w, before), run, i, claimAt[i], wallets);
    }
    EveryoneIsServed(H, w, before, entries, run, claimAt, wallets);
    if !CollisionIn(H, end, entries) {
      MembersServed(H, tree, end);
    }
  }

  /** Claims are open and funded, and the claimant is new and has a receiving account. */
  ghost predicate MayClaim(s: State, c: Pubkey, to: Pubkey) {
    Open(s) && Funded(s) && CanReceive(s, c, to) && c !in s.statuses
  }

  /**
   * Sent to the distributor created for the tree, the member's claim is paid whenever it may claim at the end of
   * a run, or hashed bytes collide.
   */
  ghost predicate ClaimSucceeds(H: Hasher, tree: Airdrop, node: TreeNode, w: World, run: seq<Instruction>, to: Pubkey)
    requires w.state.distributor.Some? && node.proof.Some?
  {
    CreatedFor(w.state.distributor.value, tree) && MayClaim(Run(H, w, run).state, node.claimant, to) ==>
      || CollisionIn(H, Run(H, w, run), EntriesOf(tree.treeNodes))
      || Exec(H, Run(H, w, run).state, MemberClaim(node, to)).Ok?
  }

  lemma MemberClaimSucceeds(H: Hasher, tree: Airdrop, i: nat, w: World, run: seq<Instruction>, to: Pubkey)
    requires Consistent(H, tree) && i < |tree.treeNodes| && Born(w)
    ensures ClaimSucceeds(H, tree, tree.treeNodes[i], w, run, to)
  {
    if CreatedFor(w.state.distributor.value, tree)
       && MayClaim(Run(H, w, run).state, tree.treeNodes[i].claimant, to) {
      assert Commits(H, w.state.distributor.value, EntriesOf(tree.treeNodes)) by {
        TreeCommits(H, w.state.distributor.value, tree);
      }
      ClaimableInEveryRun(H, w, EntriesOf(tree.treeNodes), run, i, to);
      MemberClaimIsEntryClaim(H, tree, i, SameWallet(to));
    }
  }

  /**
   * From the lookup service to the tokens: the amount and proof it serves for a key, sent to the distributor
   * created for the tree it names, are paid at every open, funded moment of every run at which the claimant has
   * no status and a receiving account; or hashed bytes collide.
   */
  lemma ServedClaimSucceeds(H: Hasher, trees: seq<Airdrop>, pda: u64 -> Pubkey, c: Pubkey, w: World,
                            run: seq<Instruction>, to: Pubkey)
    returns (t: nat)
    requires forall i :: 0 <= i < |trees| ==> Consistent(H, trees[i])
    requires Lookup(trees, pda, c).Some? && Born(w)
    ensures var (key, node) := Lookup(trees, pda, c).value;
            && t < |trees| && key == pda(trees[t].airdropVersion) && node.claimant == c && node.proof.Some?
            && ClaimSucceeds(H, trees[t], node, w, run, to)
  {
    t := LookupFindsLast(trees, pda, c);
    var node := Lookup(trees, pda, c).value.1;
    var i :| 0 <= i < |trees[t].treeNodes| && trees[t].treeNodes[i] == node;
    MemberClaimSucceeds(H, trees[t], i, w, run, to);
  }
}
