/** Exactly when an instruction succeeds, and who can move what. */
module Permissions {
  import opened Primitives
  import opened Accounts
  import opened Handlers
  import opened LeafEncoding
  import opened Machine
  import opened Vesting
  import opened Invariants
  import opened RunTheorems

  /** Claims are open: not clawed back, the enable slot reached. */
  predicate Open(s: State) {
    s.distributor.Some? && !s.distributor.value.clawedBack && s.distributor.value.enableSlot <= s.clock.slot
  }

  /** The claimant signs for itself and has a token account of the mint. */
  predicate CanReceive(s: State, claimant: Pubkey, to: Pubkey)
    requires s.distributor.Some?
  {
    claimant != s.self && IsTokenAccount(s.tokens, to, s.distributor.value.mint, claimant)
  }

  // ----- exactly when -----

  /** The creation checks come down to one chain of inequalities over unbounded integers. */
  lemma NewDistributorExactly(args: DistributorArgs, keys: DistributorKeys, clock: Clock)
    ensures NewDistributorEffect(args, keys, clock).Ok?
        <==> clock.ts < args.startVestingTs < args.endVestingTs
             && args.endVestingTs + SECONDS_PER_DAY <= args.clawbackStartTs
  {
  }

  lemma SetClawbackStartTsExactly(d: DistributorData, ts: i64, clock: Clock)
    ensures SetClawbackStartTsEffect(d, ts, clock).Ok? <==> clock.ts < ts && d.endTs + SECONDS_PER_DAY <= ts
  {
  }

  /** In a state with a sound vault, new_claim succeeds under these conditions and no others. */
  lemma NewClaimExactly(H: Hasher, s: State, to: Pubkey, entry: Entry, proof: seq<Digest>)
    requires s.distributor.Some? && TokensOk(s, s.distributor.value)
    ensures var d := s.distributor.value;
            ExecNewClaim(H, s, to, entry, proof).Ok? <==>
              && Open(s) && CanReceive(s, entry.claimant, to) && entry.claimant !in s.statuses
              && ClaimAccepted(H, d.root, entry, proof)
              && d.numNodesClaimed < d.maxNumNodes && d.totalAmountClaimed + entry.unlocked <= d.maxTotalClaim
              && entry.unlocked <= VaultBalance(s)
  {
    var d := s.distributor.value;
    if CanReceive(s, entry.claimant, to) && entry.unlocked <= VaultBalance(s) {
      TransferSucceeds(s.tokens, d.tokenVault, to, s.self, entry.unlocked);
    }
  }

  /** What claim_locked would pay now. */
  function Due(s: State, c: Pubkey): int
    requires s.distributor.Some? && c in s.statuses
  {
    var d, status := s.distributor.value, s.statuses[c];
    Vested(status.lockedAmount, s.clock.ts, d.startTs, d.endTs) - status.lockedAmountWithdrawn
  }

  /** In a reachable state, claim_locked succeeds under these conditions and no others. */
  lemma ClaimLockedExactly(w: World, c: Pubkey, to: Pubkey)
    requires Valid(w) && w.state.distributor.Some?
    ensures var s, d := w.state, w.state.distributor.value;
            ExecClaimLocked(s, c, to).Ok? <==>
              && Open(s) && CanReceive(s, c, to) && c in s.statuses && Due(s, c) > 0
              && d.totalAmountClaimed + Due(s, c) <= d.maxTotalClaim && Due(s, c) <= VaultBalance(s)
  {
    var s, d := w.state, w.state.distributor.value;
    if c in s.statuses {
      WithdrawableNow(w, c);
      if CanReceive(s, c, to) && 0 < Due(s, c) <= VaultBalance(s) {
        TransferSucceeds(s.tokens, d.tokenVault, to, s.self, Due(s, c));
      }
    }
  }

  /**
   * Why one claim each needs statuses that cannot be closed. After a claim the admin can close its status exactly
   * when the distributor is closable, and the same claim then succeeds again exactly when both caps and the vault
   * had room for two.
   */
  lemma ClaimTwiceExactly(H: Hasher, s: State, to: Pubkey, entry: Entry, proof: seq<Digest>)
    requires s.distributor.Some? && TokensOk(s, s.distributor.value)
    requires ExecNewClaim(H, s, to, entry, proof).Ok?
    ensures var d := s.distributor.value;
            var closed := ExecCloseClaimStatus(ExecNewClaim(H, s, to, entry, proof).value, d.admin, entry.claimant);
            && (closed.Ok? <==> d.closable)
            && (d.closable ==>
                  (ExecNewClaim(H, closed.value, to, entry, proof).Ok? <==>
                    && d.numNodesClaimed + 2 <= d.maxNumNodes
                    && d.totalAmountClaimed + 2 * entry.unlocked <= d.maxTotalClaim
                    && 2 * entry.unlocked <= VaultBalance(s)))
  {
    var d, claimed := s.distributor.value, ExecNewClaim(H, s, to, entry, proof).value;
    NewClaimStep(H, s, to, entry, proof);
    if d.closable {
      NewClaimExactly(H, s, to, entry, proof);
      NewClaimExactly(H, claimed.(statuses := claimed.statuses - {entry.claimant}), to, entry, proof);
    }
  }

  // ----- who -----

  /** The signer an administrative instruction names. */
  function Administrator(ins: Instruction): Option<Pubkey> {
    match ins
    case SetClawbackStartTs(admin, _) => Some(admin)
    case SetEnableSlot(admin, _) => Some(admin)
    case SetAdmin(admin, _) => Some(admin)
    case SetClawbackReceiver(admin, _) => Some(admin)
    case CloseDistributor(admin, _) => Some(admin)
    case _ => None
  }

  /** Administration needs the admin's signature: without it admin, receiver, times and slot stay, and the account. */
  lemma OnlyAdminAdministers(H: Hasher, s: State, ins: Instruction)
    requires s.distributor.Some? && Exec(H, s, ins).Ok?
    requires Administrator(ins) != Some(s.distributor.value.admin)
    ensures var after := Exec(H, s, ins).value.distributor;
            && after.Some?
            && var d, d' := s.distributor.value, after.value;
               && d'.admin == d.admin && d'.clawbackReceiver == d.clawbackReceiver
               && d'.clawbackStartTs == d.clawbackStartTs && d'.enableSlot == d.enableSlot
               && d'.startTs == d.startTs && d'.endTs == d.endTs && d'.tokenVault == d.tokenVault
  {
  }

  /** Tokens leave the vault only by a claim while claims are open, by clawback once it is due, or by closing. */
  lemma WhoEmptiesTheVault(H: Hasher, s: State, ins: Instruction)
    requires s.distributor.Some? && TokensOk(s, s.distributor.value) && Exec(H, s, ins).Ok?
    requires VaultBalance(Exec(H, s, ins).value) < VaultBalance(s)
    ensures var d := s.distributor.value;
            || ((ins.NewClaim? || ins.ClaimLocked?) && Open(s))
            || (ins.Clawback? && !d.clawedBack && s.clock.ts >= d.clawbackStartTs)
            || (ins.CloseDistributor? && d.closable && ins.admin == d.admin)
  {
  }

  /** Only its own admin removes a status, and only a closable one; nobody else's status is touched by a claim. */
  lemma WhoTouchesAStatus(H: Hasher, s: State, ins: Instruction, c: Pubkey)
    requires Exec(H, s, ins).Ok? && c in s.statuses
    requires c !in Exec(H, s, ins).value.statuses || Exec(H, s, ins).value.statuses[c] != s.statuses[c]
    ensures || (ins.CloseClaimStatus? && ins.claimant == c
                && s.statuses[c].closable && ins.admin == s.statuses[c].admin)
            || (ins.ClaimLocked? && ins.claimant == c)
  {
  }
}
