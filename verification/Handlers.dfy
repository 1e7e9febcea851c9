/**
 * The instruction handlers. Each has an effect function, which says what a successful call leaves in the
 * accounts and which error an unsuccessful one returns, and a method that updates the accounts in place,
 * in the program's order. On an error the method leaves its working copies half updated: it is the
 * runtime that throws them away (see Machine).
 */
module Handlers {
  import opened Primitives
  import opened Accounts
  import opened Vesting
  import opened LeafEncoding
  import opened MerkleProofs
  import opened MerkleTrees

  const SECONDS_PER_HOUR: i64 := 3600
  const HOURS_PER_DAY: i64 := 24
  const SECONDS_PER_DAY: i64 := SECONDS_PER_HOUR * HOURS_PER_DAY

  function CheckedAdd(a: u64, b: u64): Result<u64, Error> {
    if a + b <= U64_MAX then Ok(a + b) else Err(ArithmeticError)
  }

  function CheckedAddTs(a: i64, b: i64): Result<i64, Error> {
    if I64_MIN <= a + b <= I64_MAX then Ok(a + b) else Err(ArithmeticError)
  }

  datatype Effect = Effect(distributor: DistributorData, status: StatusData, tokens: TokenAccounts)

  // ----- new_claim -----

  function NewClaimEffect(H: Hasher, self: Pubkey, d: DistributorData, tokens: TokenAccounts,
                          to: Pubkey, entry: Entry, proof: seq<Digest>, clock: Clock): Result<Effect, Error>
  {
    var currSlot := clock.slot;
    :- Need(!d.clawedBack, ClaimExpired);
    :- Need(d.enableSlot <= currSlot, ClaimingIsNotStarted);
    var numNodes :- CheckedAdd(d.numNodesClaimed, 1);
    :- Need(numNodes <= d.maxNumNodes, MaxNodesExceeded);
    :- Need(ClaimAccepted(H, d.root, entry, proof), InvalidProof);
    var paid :- TransferTokens(tokens, d.tokenVault, to, self, entry.unlocked);
    var total :- CheckedAdd(d.totalAmountClaimed, entry.unlocked);
    :- Need(total <= d.maxTotalClaim, ExceededMaxClaim);
    Ok(Effect(d.(numNodesClaimed := numNodes, totalAmountClaimed := total),
              StatusData(entry.claimant, entry.locked, 0, entry.unlocked, d.closable, d.admin), paid))
  }

  /** The end of both claim handlers: the total is raised first and checked after. */
  method CountPaid(distributor: MerkleDistributor, amount: u64) returns (r: Result<(), Error>)
    modifies distributor`totalAmountClaimed
    ensures match CheckedAdd(old(distributor.totalAmountClaimed), amount)
            case Ok(total) =>
              && distributor.totalAmountClaimed == total
              && r == if total <= distributor.maxTotalClaim then Ok(()) else Err(ExceededMaxClaim)
            case Err(error) => r == Err(error) && unchanged(distributor)
  {
    var total :- CheckedAdd(distributor.totalAmountClaimed, amount);
    distributor.totalAmountClaimed := total;
    :- Need(distributor.totalAmountClaimed <= distributor.maxTotalClaim, ExceededMaxClaim);
    r := Ok(());
  }

  method SeedStatus(claimStatus: ClaimStatus, distributor: MerkleDistributor, claimant: Pubkey,
                    amountUnlocked: u64, amountLocked: u64)
    modifies claimStatus
    ensures claimStatus.Data()
         == StatusData(claimant, amountLocked, 0, amountUnlocked, distributor.closable, distributor.admin)
  {
    claimStatus.claimant := claimant;
    claimStatus.lockedAmount := amountLocked;
    claimStatus.unlockedAmount := amountUnlocked;
    claimStatus.lockedAmountWithdrawn := 0;
    claimStatus.closable := distributor.closable;
    claimStatus.admin := distributor.admin;
  }

  /** The leaf is hashed from the claim itself, under the leaf prefix. */
  method CheckProof(H: Hasher, root: Digest, claimant: Pubkey, amountUnlocked: u64, amountLocked: u64,
                    proof: seq<Digest>)
    returns (accepted: bool)
    ensures accepted <==> ClaimAccepted(H, root, Entry(claimant, amountUnlocked, amountLocked), proof)
  {
    var node := H(claimant + U64LeBytes(amountUnlocked) + U64LeBytes(amountLocked));
    var leaf := H(LEAF_PREFIX + node);
    accepted := Verify(H, proof, root, leaf);
  }

  method PayUnlocked(self: Pubkey, distributor: MerkleDistributor, tokenProgram: TokenProgram, to: Pubkey, amount: u64)
    returns (r: Result<(), Error>)
    modifies distributor`totalAmountClaimed, tokenProgram
    ensures match TransferTokens(old(tokenProgram.accounts), distributor.tokenVault, to, self, amount)
            case Err(error) =>
              r == Err(error) && unchanged(distributor) && tokenProgram.accounts == old(tokenProgram.accounts)
            case Ok(after) =>
              && tokenProgram.accounts == after
              && match CheckedAdd(old(distributor.totalAmountClaimed), amount)
                 case Err(error) => r == Err(error) && unchanged(distributor)
                 case Ok(total) =>
                   && distributor.totalAmountClaimed == total
                   && r == if total <= distributor.maxTotalClaim then Ok(()) else Err(ExceededMaxClaim)
  {
    var transferred := tokenProgram.Transfer(distributor.tokenVault, to, self, amount);
    var _ :- transferred;
    r := CountPaid(distributor, amount);
  }

  method HandleNewClaim(H: Hasher, self: Pubkey, distributor: MerkleDistributor, claimStatus: ClaimStatus,
                        tokenProgram: TokenProgram, to: Pubkey, claimant: Pubkey, clock: Clock,
                        amountUnlocked: u64, amountLocked: u64, proof: seq<Digest>)
    returns (r: Result<(), Error>)
    modifies distributor`numNodesClaimed, distributor`totalAmountClaimed, claimStatus, tokenProgram
    ensures match NewClaimEffect(H, self, old(distributor.Data()), old(tokenProgram.accounts), to,
                                 Entry(claimant, amountUnlocked, amountLocked), proof, clock)
            case Ok(e) => r == Ok(()) && distributor.Data() == e.distributor && claimStatus.Data() == e.status
                          && tokenProgram.accounts == e.tokens
            case Err(error) => r == Err(error)
    // the counter is raised before anything but the first two checks, so on every later error the copy stays raised
    ensures distributor.numNodesClaimed == old(distributor.numNodesClaimed)
              + if r == Err(ClaimExpired) || r == Err(ClaimingIsNotStarted)
                   || old(distributor.numNodesClaimed) == U64_MAX then 0 else 1
    // and on the last check's error the tokens have moved and the total is raised
    ensures r == Err(ExceededMaxClaim) ==>
      && distributor.totalAmountClaimed == old(distributor.totalAmountClaimed) + amountUnlocked
      && TransferTokens(old(tokenProgram.accounts), old(distributor.tokenVault), to, self, amountUnlocked)
         == Ok(tokenProgram.accounts)
  {
    var currSlot := clock.slot;
    :- Need(!distributor.clawedBack, ClaimExpired);
    :- Need(distributor.enableSlot <= currSlot, ClaimingIsNotStarted);

    distributor.numNodesClaimed :- CheckedAdd(distributor.numNodesClaimed, 1);
    :- Need(distributor.numNodesClaimed <= distributor.maxNumNodes, MaxNodesExceeded);

    var accepted := CheckProof(H, distributor.root, claimant, amountUnlocked, amountLocked, proof);
    :- Need(accepted, InvalidProof);

    SeedStatus(claimStatus, distributor, claimant, amountUnlocked, amountLocked);

    r := PayUnlocked(self, distributor, tokenProgram, to, claimStatus.unlockedAmount);
  }

  // ----- claim_locked -----

  function ClaimLockedEffect(self: Pubkey, d: DistributorData, status: StatusData, tokens: TokenAccounts,
                             to: Pubkey, clock: Clock): Result<Effect, Error>
  {
    var currSlot := clock.slot;
    :- Need(!d.clawedBack, ClaimExpired);
    :- Need(d.enableSlot <= currSlot, ClaimingIsNotStarted);
    var amount :- AmountWithdrawable(status, clock.ts, d.startTs, d.endTs);
    :- Need(amount > 0, InsufficientUnlockedTokens);
    var paid :- TransferTokens(tokens, d.tokenVault, to, self, amount);
    var withdrawn :- CheckedAdd(status.lockedAmountWithdrawn, amount);
    :- Need(withdrawn <= status.lockedAmount, ExceededMaxClaim);
    var total :- CheckedAdd(d.totalAmountClaimed, amount);
    :- Need(total <= d.maxTotalClaim, ExceededMaxClaim);
    Ok(Effect(d.(totalAmountClaimed := total), status.(lockedAmountWithdrawn := withdrawn), paid))
  }

  method HandleClaimLocked(self: Pubkey, distributor: MerkleDistributor, claimStatus: ClaimStatus,
                           tokenProgram: TokenProgram, to: Pubkey, clock: Clock)
    returns (r: Result<(), Error>)
    modifies distributor`totalAmountClaimed, claimStatus`lockedAmountWithdrawn, tokenProgram
    ensures match ClaimLockedEffect(self, old(distributor.Data()), old(claimStatus.Data()),
                                    old(tokenProgram.accounts), to, clock)
            case Ok(e) => r == Ok(()) && distributor.Data() == e.distributor && claimStatus.Data() == e.status
                          && tokenProgram.accounts == e.tokens
            case Err(error) => r == Err(error)
    // on this error the tokens have already moved and the status copy is raised by as much
    ensures r == Err(ExceededMaxClaim) ==>
      var amount := claimStatus.lockedAmountWithdrawn - old(claimStatus.lockedAmountWithdrawn);
      && 0 < amount <= U64_MAX
      && TransferTokens(old(tokenProgram.accounts), old(distributor.tokenVault), to, self, amount)
         == Ok(tokenProgram.accounts)
  {
    var currSlot := clock.slot;
    :- Need(!distributor.clawedBack, ClaimExpired);
    :- Need(distributor.enableSlot <= currSlot, ClaimingIsNotStarted);

    var amount :- AmountWithdrawable(claimStatus.Data(), clock.ts, distributor.startTs, distributor.endTs);
    :- Need(amount > 0, InsufficientUnlockedTokens);

    var transferred := tokenProgram.Transfer(distributor.tokenVault, to, self, amount);
    var _ :- transferred;

    claimStatus.lockedAmountWithdrawn :- CheckedAdd(claimStatus.lockedAmountWithdrawn, amount);
    :- Need(claimStatus.lockedAmountWithdrawn <= claimStatus.lockedAmount, ExceededMaxClaim);

    r := CountPaid(distributor, amount);
  }

  // ----- clawback -----

  function ClawbackEffect(self: Pubkey, d: DistributorData, tokens: TokenAccounts, to: Pubkey, clock: Clock)
    : Result<(DistributorData, TokenAccounts), Error>
  {
    var currTs := clock.ts;
    :- Need(d.tokenVault in tokens, AccountNotFound);
    :- Need(!d.clawedBack, ClawbackAlreadyClaimed);
    :- Need(currTs >= d.clawbackStartTs, ClawbackBeforeStart);
    var swept :- TransferTokens(tokens, d.tokenVault, to, self, tokens[d.tokenVault].amount);
    Ok((d.(clawedBack := true), swept))
  }

  method HandleClawback(self: Pubkey, distributor: MerkleDistributor, tokenProgram: TokenProgram,
                        to: Pubkey, clock: Clock)
    returns (r: Result<(), Error>)
    modifies distributor, tokenProgram
    ensures match ClawbackEffect(self, old(distributor.Data()), old(tokenProgram.accounts), to, clock)
            case Ok((d, tokens)) => r == Ok(()) && distributor.Data() == d && tokenProgram.accounts == tokens
            case Err(error) => r == Err(error)
  {
    var currTs := clock.ts;
    :- Need(distributor.tokenVault in tokenProgram.accounts, AccountNotFound);
    :- Need(!distributor.clawedBack, ClawbackAlreadyClaimed);
    if currTs < distributor.clawbackStartTs {
      return Err(ClawbackBeforeStart);
    }
    var balance := tokenProgram.accounts[distributor.tokenVault].amount;
    var transferred := tokenProgram.Transfer(distributor.tokenVault, to, self, balance);
    var _ :- transferred;
    distributor.clawedBack := true;
    r := Ok(());
  }

  // ----- new_distributor -----

  datatype DistributorArgs = DistributorArgs(
    version: u64, root: Digest, maxTotalClaim: u64, maxNumNodes: u64, startVestingTs: i64, endVestingTs: i64,
    clawbackStartTs: i64, enableSlot: u64, closable: bool)

  datatype DistributorKeys = DistributorKeys(
    base: Pubkey, mint: Pubkey, tokenVault: Pubkey, clawbackReceiver: Pubkey, admin: Pubkey)

  function InitialData(args: DistributorArgs, keys: DistributorKeys): DistributorData {
    DistributorData(
      version := args.version, root := args.root, mint := keys.mint, base := keys.base,
      tokenVault := keys.tokenVault, maxTotalClaim := args.maxTotalClaim, maxNumNodes := args.maxNumNodes,
      totalAmountClaimed := 0, numNodesClaimed := 0, startTs := args.startVestingTs,
      endTs := args.endVestingTs, clawbackStartTs := args.clawbackStartTs,
      clawbackReceiver := keys.clawbackReceiver, admin := keys.admin, clawedBack := false,
      enableSlot := args.enableSlot, closable := args.closable)
  }

  method SetTerms(distributor: MerkleDistributor, args: DistributorArgs, keys: DistributorKeys)
    modifies distributor`version, distributor`root, distributor`mint, distributor`tokenVault
    modifies distributor`maxTotalClaim, distributor`maxNumNodes
    modifies distributor`totalAmountClaimed, distributor`numNodesClaimed
    ensures distributor.Data()
         == old(distributor.Data()).(
              version := args.version, root := args.root, mint := keys.mint, tokenVault := keys.tokenVault,
              maxTotalClaim := args.maxTotalClaim, maxNumNodes := args.maxNumNodes,
              totalAmountClaimed := 0, numNodesClaimed := 0)
  {
    distributor.version := args.version;
    distributor.root := args.root;
    distributor.mint := keys.mint;
    distributor.tokenVault := keys.tokenVault;
    distributor.maxTotalClaim := args.maxTotalClaim;
    distributor.maxNumNodes := args.maxNumNodes;
    distributor.totalAmountClaimed := 0;
    distributor.numNodesClaimed := 0;
  }

  method SetConditions(distributor: MerkleDistributor, args: DistributorArgs, keys: DistributorKeys)
    modifies distributor`startTs, distributor`endTs, distributor`clawbackStartTs, distributor`clawbackReceiver
    modifies distributor`admin, distributor`clawedBack, distributor`enableSlot, distributor`closable, distributor`base
    ensures distributor.Data()
         == old(distributor.Data()).(
              startTs := args.startVestingTs, endTs := args.endVestingTs, clawbackStartTs := args.clawbackStartTs,
              clawbackReceiver := keys.clawbackReceiver, admin := keys.admin, clawedBack := false,
              enableSlot := args.enableSlot, closable := args.closable, base := keys.base)
  {
    distributor.startTs := args.startVestingTs;
    distributor.endTs := args.endVestingTs;
    distributor.clawbackStartTs := args.clawbackStartTs;
    distributor.clawbackReceiver := keys.clawbackReceiver;
    distributor.admin := keys.admin;
    distributor.clawedBack := false;
    distributor.enableSlot := args.enableSlot;
    distributor.closable := args.closable;
    distributor.base := keys.base;
  }

  method Initialize(distributor: MerkleDistributor, args: DistributorArgs, keys: DistributorKeys)
    modifies distributor
    ensures distributor.Data() == InitialData(args, keys)
  {
    SetTerms(distributor, args, keys);
    SetConditions(distributor, args, keys);
  }

  function NewDistributorEffect(args: DistributorArgs, keys: DistributorKeys, clock: Clock)
    : Result<DistributorData, Error>
  {
    var currTs := clock.ts;
    :- Need(args.startVestingTs < args.endVestingTs, StartTimestampAfterEnd);
    :- Need(args.startVestingTs > currTs && args.endVestingTs > currTs && args.clawbackStartTs > currTs,
            TimestampsNotInFuture);
    :- Need(args.clawbackStartTs > args.endVestingTs, ClawbackDuringVesting);
    var earliest :- CheckedAddTs(args.endVestingTs, SECONDS_PER_DAY);
    :- Need(args.clawbackStartTs >= earliest, InsufficientClawbackDelay);
    Ok(InitialData(args, keys))
  }

  method HandleNewDistributor(distributor: MerkleDistributor, args: DistributorArgs, keys: DistributorKeys,
                              clock: Clock)
    returns (r: Result<(), Error>)
    modifies distributor
    ensures match NewDistributorEffect(args, keys, clock)
            case Ok(d) => r == Ok(()) && distributor.Data() == d
            case Err(error) => r == Err(error) && unchanged(distributor)
  {
    var currTs := clock.ts;
    :- Need(args.startVestingTs < args.endVestingTs, StartTimestampAfterEnd);
    :- Need(args.startVestingTs > currTs && args.endVestingTs > currTs && args.clawbackStartTs > currTs,
            TimestampsNotInFuture);
    :- Need(args.clawbackStartTs > args.endVestingTs, ClawbackDuringVesting);
    var earliest :- CheckedAddTs(args.endVestingTs, SECONDS_PER_DAY);
    :- Need(args.clawbackStartTs >= earliest, InsufficientClawbackDelay);

    Initialize(distributor, args, keys);
    r := Ok(());
  }

  // ----- the setters -----

  function SetClawbackStartTsEffect(d: DistributorData, clawbackStartTs: i64, clock: Clock)
    : Result<DistributorData, Error>
  {
    var currTs := clock.ts;
    :- Need(clawbackStartTs > currTs, TimestampsNotInFuture);
    var earliest :- CheckedAddTs(d.endTs, SECONDS_PER_DAY);
    :- Need(clawbackStartTs >= earliest, InsufficientClawbackDelay);
    Ok(d.(clawbackStartTs := clawbackStartTs))
  }

  method HandleSetClawbackStartTs(distributor: MerkleDistributor, clawbackStartTs: i64, clock: Clock)
    returns (r: Result<(), Error>)
    modifies distributor`clawbackStartTs
    ensures match SetClawbackStartTsEffect(old(distributor.Data()), clawbackStartTs, clock)
            case Ok(d) => r == Ok(()) && distributor.Data() == d
            case Err(error) => r == Err(error) && unchanged(distributor)
  {
    var currTs := clock.ts;
    :- Need(clawbackStartTs > currTs, TimestampsNotInFuture);
    var earliest :- CheckedAddTs(distributor.endTs, SECONDS_PER_DAY);
    :- Need(clawbackStartTs >= earliest, InsufficientClawbackDelay);
    distributor.clawbackStartTs := clawbackStartTs;
    r := Ok(());
  }

  method HandleSetEnableSlot(distributor: MerkleDistributor, enableSlot: u64)
    modifies distributor`enableSlot
    ensures distributor.Data() == old(distributor.Data()).(enableSlot := enableSlot)
  {
    distributor.enableSlot := enableSlot;
  }

  function SetAdminEffect(d: DistributorData, admin: Pubkey, newAdmin: Pubkey): Result<DistributorData, Error> {
    if admin == newAdmin then Err(SameAdmin) else Ok(d.(admin := newAdmin))
  }

  method HandleSetAdmin(distributor: MerkleDistributor, admin: Pubkey, newAdmin: Pubkey)
    returns (r: Result<(), Error>)
    modifies distributor`admin
    ensures match SetAdminEffect(old(distributor.Data()), admin, newAdmin)
            case Ok(d) => r == Ok(()) && distributor.Data() == d
            case Err(error) => r == Err(error) && unchanged(distributor)
  {
    if admin == newAdmin {
      return Err(SameAdmin);
    }
    distributor.admin := newAdmin;
    r := Ok(());
  }

  function SetClawbackReceiverEffect(d: DistributorData, receiver: Pubkey): Result<DistributorData, Error> {
    if d.clawbackReceiver == receiver then Err(SameClawbackReceiver) else Ok(d.(clawbackReceiver := receiver))
  }

  method HandleSetClawbackReceiver(distributor: MerkleDistributor, receiver: Pubkey)
    returns (r: Result<(), Error>)
    modifies distributor`clawbackReceiver
    ensures match SetClawbackReceiverEffect(old(distributor.Data()), receiver)
            case Ok(d) => r == Ok(()) && distributor.Data() == d
            case Err(error) => r == Err(error) && unchanged(distributor)
  {
    if distributor.clawbackReceiver == receiver {
      return Err(SameClawbackReceiver);
    }
    distributor.clawbackReceiver := receiver;
    r := Ok(());
  }

  // ----- close_distributor -----

  function CloseDistributorEffect(self: Pubkey, d: DistributorData, tokens: TokenAccounts, destination: Pubkey)
    : Result<TokenAccounts, Error>
  {
    if d.tokenVault !in tokens then Err(AccountNotFound)
    else TransferTokens(tokens, d.tokenVault, destination, self, tokens[d.tokenVault].amount)
  }

  method HandleCloseDistributor(self: Pubkey, distributor: MerkleDistributor, tokenProgram: TokenProgram,
                                destination: Pubkey)
    returns (r: Result<(), Error>)
    modifies tokenProgram
    ensures match CloseDistributorEffect(self, distributor.Data(), old(tokenProgram.accounts), destination)
            case Ok(tokens) => r == Ok(()) && tokenProgram.accounts == tokens
            case Err(error) => r == Err(error)
  {
    if distributor.tokenVault !in tokenProgram.accounts {
      return Err(AccountNotFound);
    }
    var balance := tokenProgram.accounts[distributor.tokenVault].amount;
    r := tokenProgram.Transfer(distributor.tokenVault, destination, self, balance);
  }
}
