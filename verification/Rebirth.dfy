/**
 * Why the run theorems speak of one life: a closable distributor can be closed and created again at its
 * address, and claim statuses survive the account they were made under.
 */
module Rebirth {
  import opened Primitives
  import opened Accounts
  import opened Vesting
  import opened Handlers
  import opened LeafEncoding
  import opened Machine
  import opened Invariants
  import opened Permissions
  import opened Solvency
  import opened Claimability
  import opened Consequences

  /** After re-creation the count of claims agrees with the live statuses exactly when none survived. */
  lemma RebirthForgetsClaims(s: State, args: DistributorArgs, keys: DistributorKeys)
    requires ExecNewDistributor(s, args, keys).Ok?
    ensures var after := ExecNewDistributor(s, args, keys).value;
            after.distributor.value.numNodesClaimed == |after.statuses| <==> s.statuses == map[]
  {
  }

  /** So the invariant of the run theorems then holds exactly when no status survived. */
  lemma RebirthIsValidExactly(s: State, args: DistributorArgs, keys: DistributorKeys)
    requires ExecNewDistributor(s, args, keys).Ok?
    requires s.clock.ts >= 0 && SupplyOnRecord(s, keys.mint)
    ensures Valid(World(ExecNewDistributor(s, args, keys).value, BLANK)) <==> s.statuses == map[]
  {
    RebirthForgetsClaims(s, args, keys);
  }

  /**
   * A surviving status draws on the next life's vault, whatever root that life commits to. Once the new
   * life has vested and opened, its claim_locked succeeds exactly when something is outstanding that fits
   * the new cap and the new vault.
   */
  lemma SurvivorDrawsOnNextLife(s: State, args: DistributorArgs, keys: DistributorKeys, later: State,
                                c: Pubkey, to: Pubkey)
    requires ExecNewDistributor(s, args, keys).Ok?
    requires var reborn := ExecNewDistributor(s, args, keys).value;
             later == reborn.(tokens := later.tokens, mints := later.mints, clock := later.clock)
    requires TokensOk(later, later.distributor.value) && CanReceive(later, c, to) && c in later.statuses
    requires later.clock.ts >= args.endVestingTs && later.clock.slot >= args.enableSlot
    ensures var status := later.statuses[c];
            ExecClaimLocked(later, c, to).Ok? <==>
              0 < status.lockedAmount - status.lockedAmountWithdrawn <= args.maxTotalClaim
              && status.lockedAmount - status.lockedAmountWithdrawn <= VaultBalance(later)
  {
    var d, status := later.distributor.value, later.statuses[c];
    NewDistributorExactly(args, keys, s.clock);
    VestingExact(status.lockedAmount, later.clock.ts, d.startTs, d.endTs);
    var amount := status.lockedAmount - status.lockedAmountWithdrawn;
    if 0 < amount <= VaultBalance(later) {
      TransferSucceeds(later.tokens, d.tokenVault, to, later.self, amount);
    }
  }

  lemma RunOfThree(H: Hasher, w: World, a: Instruction, b: Instruction, c: Instruction)
    ensures Run(H, w, [a, b, c]) == Advance(H, Advance(H, Advance(H, w, a), b), c)
    ensures AllSucceed(H, w, [a, b, c]) <==>
      && Exec(H, w.state, a).Ok? && Exec(H, Advance(H, w, a).state, b).Ok?
      && Exec(H, Advance(H, Advance(H, w, a), b).state, c).Ok?
  {
    assert [a, b, c][..2] == [a, b] && [a, b][..1] == [a] && [a][..0] == [];
    assert Run(H, w, [a]) == Advance(H, w, a);
    assert Run(H, w, [a, b]) == Advance(H, Advance(H, w, a), b);
    assert AllSucceed(H, w, [a]) <==> Exec(H, w.state, a).Ok?;
    assert AllSucceed(H, w, [a, b]) <==> AllSucceed(H, w, [a]) && Exec(H, Advance(H, w, a).state, b).Ok?;
  }

  /** The creation arguments of a closable distributor for one entry. */
  function ClosableArgs(H: Hasher, e: Entry): DistributorArgs
    requires Worth(e) <= U64_MAX
  {
    DistributorArgs(0, CommitRoot(H, [e]), Worth(e), 1, 1, 2, 2 + SECONDS_PER_DAY, 0, true)
  }

  /** A closable distributor, funded for one entry and open. */
  lemma ClosableDistributorExists(H: Hasher, e: Entry, self: Pubkey, keys: DistributorKeys, wallet: Pubkey)
    returns (w: World)
    requires Worth(e) <= U64_MAX && keys.tokenVault != wallet && e.claimant != self
    requires keys.clawbackReceiver == wallet
    ensures Born(w) && w.state.statuses == map[] && w.state.self == self && w.state.clock == Clock(0, 0)
    ensures w.state.distributor == Some(InitialData(ClosableArgs(H, e), keys))
    ensures w.state.tokens == SampleTokens(self, keys.mint, keys.tokenVault, wallet, e)
    ensures TokensOk(w.state, w.state.distributor.value)
  {
    var tokens := SampleTokens(self, keys.mint, keys.tokenVault, wallet, e);
    var s := State(self, None, map[], tokens, map[keys.mint := U64_MAX], Clock(0, 0));
    SampleSupply(self, keys.mint, keys.tokenVault, wallet, e);
    w := World(ExecNewDistributor(s, ClosableArgs(H, e), keys).value, BLANK);
  }

  /** The admin can close a closable distributor into any account of the mint. */
  lemma CloseSucceeds(s: State, admin: Pubkey, to: Pubkey)
    requires s.distributor.Some? && TokensOk(s, s.distributor.value)
    requires s.distributor.value.closable && s.distributor.value.admin == admin
    requires HoldsMint(s.tokens, to, s.distributor.value.mint)
    ensures var closed := ExecCloseDistributor(s, admin, to);
            && closed.Ok? && closed.value.distributor.None? && closed.value.statuses == s.statuses
            && SameAccounts(s.tokens, closed.value.tokens)
            && closed.value == s.(distributor := None, tokens := closed.value.tokens)
  {
    CloseExactly(s, admin, to);
    CloseMovesEverything(s, admin, to);
  }

  /** Closed and created again, the account starts from zero over the statuses of before. */
  lemma CloseAndRecreate(H: Hasher, w: World, args: DistributorArgs, keys: DistributorKeys)
    requires w.state.distributor.Some? && TokensOk(w.state, w.state.distributor.value)
    requires var d := w.state.distributor.value;
             && d.closable && d.admin == keys.admin && d.mint == keys.mint && d.tokenVault == keys.tokenVault
             && HoldsMint(w.state.tokens, keys.clawbackReceiver, keys.mint)
    requires NewDistributorEffect(args, keys, w.state.clock).Ok?
    ensures var close := CloseDistributor(keys.admin, keys.clawbackReceiver);
            var closed := Advance(H, w, close);
            var end := Advance(H, closed, NewDistributor(args, keys)).state;
            && Exec(H, w.state, close).Ok? && Exec(H, closed.state, NewDistributor(args, keys)).Ok?
            && end.distributor == Some(InitialData(args, keys)) && end.statuses == w.state.statuses
  {
    CloseSucceeds(w.state, keys.admin, keys.clawbackReceiver);
  }

  lemma OneClaim(H: Hasher, w: World, e: Entry, wallet: Pubkey)
    requires Open(w.state) && TokensOk(w.state, w.state.distributor.value) && w.state.statuses == map[]
    requires CanReceive(w.state, e.claimant, wallet) && VaultBalance(w.state) == Worth(e)
    requires var d := w.state.distributor.value;
             && d.root == CommitRoot(H, [e]) && d.maxNumNodes == 1 && d.maxTotalClaim == Worth(e)
             && d.numNodesClaimed == 0 && d.totalAmountClaimed == 0
    ensures var claim := NewClaim(e.claimant, wallet, e.unlocked, e.locked, EntryProof(H, [e], 0));
            var d, after := w.state.distributor.value, Advance(H, w, claim).state;
            && Exec(H, w.state, claim).Ok?
            && after.distributor == Some(d.(numNodesClaimed := 1, totalAmountClaimed := e.unlocked))
            && after.statuses == map[e.claimant := StatusData(e.claimant, e.locked, 0, e.unlocked, d.closable, d.admin)]
            && TokensOk(after, d) && after.clock == w.state.clock && SameAccounts(w.state.tokens, after.tokens)
  {
    CommittedEntryAccepted(H, [e], 0);
    NewClaimExactly(H, w.state, wallet, e, EntryProof(H, [e], 0));
    NewClaimStep(H, w.state, wallet, e, EntryProof(H, [e], 0));
  }

  /** The three steps, one after the other. */
  lemma ClaimThenRebirth(H: Hasher, w: World, e: Entry, keys: DistributorKeys, wallet: Pubkey, args: DistributorArgs)
    requires Worth(e) <= U64_MAX && keys.tokenVault != wallet && e.claimant != w.state.self
    requires keys.clawbackReceiver == wallet && w.state.statuses == map[] && w.state.clock == Clock(0, 0)
    requires w.state.distributor == Some(InitialData(ClosableArgs(H, e), keys))
    requires w.state.tokens == SampleTokens(w.state.self, keys.mint, keys.tokenVault, wallet, e)
    requires TokensOk(w.state, w.state.distributor.value) && NewDistributorEffect(args, keys, w.state.clock).Ok?
    ensures var claim := NewClaim(e.claimant, wallet, e.unlocked, e.locked, EntryProof(H, [e], 0));
            var claimed := Advance(H, w, claim);
            var closed := Advance(H, claimed, CloseDistributor(keys.admin, wallet));
            var end := Advance(H, closed, NewDistributor(args, keys)).state;
            && Exec(H, w.state, claim).Ok? && Exec(H, claimed.state, CloseDistributor(keys.admin, wallet)).Ok?
            && Exec(H, closed.state, NewDistributor(args, keys)).Ok?
            && end.distributor == Some(InitialData(args, keys)) && end.statuses.Keys == {e.claimant}
            && Matches(end.statuses[e.claimant], e) && end.statuses[e.claimant].lockedAmountWithdrawn == 0
  {
    var claim := NewClaim(e.claimant, wallet, e.unlocked, e.locked, EntryProof(H, [e], 0));
    OneClaim(H, w, e, wallet);
    CloseAndRecreate(H, Advance(H, w, claim), args, keys);
  }

  /**
   * A surviving status is reachable: from the birth of a closable distributor, its one claim, its closing
   * and its re-creation with any root all succeed, and end with a count of 0 and a live status that still
   * has its whole locked amount to draw.
   */
  lemma StatusSurvivesRebirth(H: Hasher, e: Entry, self: Pubkey, keys: DistributorKeys, wallet: Pubkey, root: Digest)
    returns (w: World, run: seq<Instruction>)
    requires Worth(e) <= U64_MAX && keys.tokenVault != wallet && e.claimant != self
    requires keys.clawbackReceiver == wallet
    ensures Born(w) && |run| == 3 && run[0].NewClaim? && run[1].CloseDistributor? && run[2].NewDistributor?
    ensures AllSucceed(H, w, run)
    ensures var end := Run(H, w, run).state;
            && end.distributor.Some? && end.distributor.value.root == root
            && end.distributor.value.numNodesClaimed == 0 && end.statuses.Keys == {e.claimant}
            && Matches(end.statuses[e.claimant], e) && end.statuses[e.claimant].lockedAmountWithdrawn == 0
  {
    w := ClosableDistributorExists(H, e, self, keys, wallet);
    var claim := NewClaim(e.claimant, wallet, e.unlocked, e.locked, EntryProof(H, [e], 0));
    var args := ClosableArgs(H, e).(root := root);
    run := [claim, CloseDistributor(keys.admin, wallet), NewDistributor(args, keys)];
    RunOfThree(H, w, run[0], run[1], run[2]);
    ClaimThenRebirth(H, w, e, keys, wallet, args);
  }
}
