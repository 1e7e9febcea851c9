/** Consequences for every run: accounting, vesting, clawback. */
module RunTheorems {
  import opened Primitives
  import opened Accounts
  import opened Handlers
  import opened Machine
  import opened MapSums
  import opened Vesting
  import opened Invariants

  // ----- accounting -----

  /**
   * Claim accounting: after any run the counters equal what left the vault, what claimants' own accounts
   * received and what all statuses ever created were paid, and respect both caps.
   */
  lemma ClaimAccounting(H: Hasher, w: World, run: seq<Instruction>)
    requires Born(w) && OneLife(H, w, run)
    ensures var s, t := Run(H, w, run).state, Run(H, w, run).tally;
            s.distributor.Some? ==>
              var d := s.distributor.value;
              && d.totalAmountClaimed == t.paidOut == Sum(s.statuses, Paid) + t.closedPaid
              && d.totalAmountClaimed <= d.maxTotalClaim
              && d.numNodesClaimed == t.claims == |s.statuses| + t.closedCount
              && d.numNodesClaimed <= d.maxNumNodes
              && t.paidOut == Sum(t.received, Whole)
              && (!d.closable ==>
                    && d.numNodesClaimed == |s.statuses| && t.received.Keys == s.statuses.Keys
                    && forall c :: c in s.statuses ==> t.received[c] == Paid(s.statuses[c]))
  {
    BirthIsValid(w);
    EveryRunIsValid(H, w, run);
  }

  lemma ClaimsConserveSupply(H: Hasher, s: State, ins: Instruction, mint: Pubkey)
    requires (ins.NewClaim? || ins.ClaimLocked?) && Exec(H, s, ins).Ok?
    ensures Supply(Exec(H, s, ins).value.tokens, mint) == Supply(s.tokens, mint)
  {
    var d := s.distributor.value;
    if ins.NewClaim? {
      TransferConserves(s.tokens, d.tokenVault, ins.to, s.self, ins.amountUnlocked, mint);
    } else {
      var amount := AmountWithdrawable(s.statuses[ins.claimant], s.clock.ts, d.startTs, d.endTs).value;
      TransferConserves(s.tokens, d.tokenVault, ins.to, s.self, amount, mint);
    }
  }

  lemma SweepsConserveSupply(H: Hasher, s: State, ins: Instruction, mint: Pubkey)
    requires (ins.Clawback? || ins.CloseDistributor?) && Exec(H, s, ins).Ok?
    ensures Supply(Exec(H, s, ins).value.tokens, mint) == Supply(s.tokens, mint)
  {
    var d := s.distributor.value;
    var to := if ins.Clawback? then d.clawbackReceiver else ins.destination;
    TransferConserves(s.tokens, d.tokenVault, to, s.self, VaultBalance(s), mint);
  }

  /** What the mint has on record beyond the tokens its accounts hold: burnt or held elsewhere. */
  ghost function Unheld(s: State, mint: Pubkey): int
    requires mint in s.mints
  {
    s.mints[mint] - Supply(s.tokens, mint)
  }

  lemma OthersConserveSupply(H: Hasher, s: State, ins: Instruction, mint: Pubkey)
    requires ins.SendTokens? || ins.OpenTokenAccount? || ins.CloseTokenAccount? || ins.MintTokens?
    requires Exec(H, s, ins).Ok? && mint in s.mints
    ensures mint in Exec(H, s, ins).value.mints
    ensures Unheld(Exec(H, s, ins).value, mint) == Unheld(s, mint)
    ensures !ins.MintTokens? ==> Exec(H, s, ins).value.mints == s.mints
  {
    if ins.SendTokens? {
      TransferConserves(s.tokens, ins.from, ins.to, ins.authority, ins.amount, mint);
    } else if ins.OpenTokenAccount? {
      SumUpdate(s.tokens, ins.key, TokenAccount(ins.mint, ins.owner, 0), OfMint(mint));
    } else if ins.CloseTokenAccount? {
      SumRemove(s.tokens, ins.key, OfMint(mint));
    } else {
      MintingKeepsUnheld(s, ins.to, ins.amount, mint);
    }
  }

  lemma MintingKeepsUnheld(s: State, to: Pubkey, amount: u64, mint: Pubkey)
    requires ExecMintTokens(s, to, amount).Ok? && mint in s.mints
    ensures mint in ExecMintTokens(s, to, amount).value.mints
    ensures Unheld(ExecMintTokens(s, to, amount).value, mint) == Unheld(s, mint)
  {
    var account := s.tokens[to];
    SumUpdate(s.tokens, to, account.(amount := account.amount + amount), OfMint(mint));
  }

  lemma StepConservesSupply(H: Hasher, s: State, ins: Instruction, mint: Pubkey)
    requires Exec(H, s, ins).Ok? && mint in s.mints
    ensures mint in Exec(H, s, ins).value.mints
    ensures Unheld(Exec(H, s, ins).value, mint) == Unheld(s, mint)
    ensures !ins.MintTokens? ==> Exec(H, s, ins).value.mints == s.mints
  {
    match ins
    case NewClaim(_, _, _, _, _) => ClaimsConserveSupply(H, s, ins, mint);
    case ClaimLocked(_, _) => ClaimsConserveSupply(H, s, ins, mint);
    case Clawback => SweepsConserveSupply(H, s, ins, mint);
    case CloseDistributor(_, _) => SweepsConserveSupply(H, s, ins, mint);
    case SendTokens(_, _, _, _) => OthersConserveSupply(H, s, ins, mint);
    case OpenTokenAccount(_, _, _) => OthersConserveSupply(H, s, ins, mint);
    case CloseTokenAccount(_, _) => OthersConserveSupply(H, s, ins, mint);
    case MintTokens(_, _) => OthersConserveSupply(H, s, ins, mint);
    case _ =>
  }

  predicate NothingMinted(run: seq<Instruction>) {
    forall i :: 0 <= i < |run| ==> !run[i].MintTokens?
  }

  /**
   * No run, of any lives, creates or destroys tokens of a mint beside what the mint puts on record; and
   * only minting changes the record, so without it the supply stands still.
   */
  lemma {:induction false} SupplyConserved(H: Hasher, w: World, run: seq<Instruction>, mint: Pubkey)
    requires mint in w.state.mints
    ensures mint in Run(H, w, run).state.mints
    ensures Unheld(Run(H, w, run).state, mint) == Unheld(w.state, mint)
    ensures NothingMinted(run) ==> Supply(Run(H, w, run).state.tokens, mint) == Supply(w.state.tokens, mint)
  {
    if run != [] {
      var n := |run| - 1;
      SupplyConserved(H, w, run[..n], mint);
      var mid := Run(H, w, run[..n]);
      if Exec(H, mid.state, run[n]).Ok? {
        StepConservesSupply(H, mid.state, run[n], mint);
      }
    }
  }

  // ----- vesting -----

  /**
   * Path-independent vesting: whatever claims were made when, a claimant has withdrawn exactly the
   * schedule at the last claim, which is also what the vault paid for it; the next claim can be
   * computed without error, never exceeds the locked amount, and from end_ts on completes it.
   */
  lemma PathIndependentVesting(H: Hasher, w: World, run: seq<Instruction>, c: Pubkey)
    requires Born(w) && OneLife(H, w, run)
    requires Run(H, w, run).state.distributor.Some? && c in Run(H, w, run).state.statuses
    ensures var s, t := Run(H, w, run).state, Run(H, w, run).tally;
            var d, status := s.distributor.value, s.statuses[c];
            var withdrawn, next := status.lockedAmountWithdrawn,
                                   AmountWithdrawable(status, s.clock.ts, d.startTs, d.endTs);
            && withdrawn == (if c in t.vest
                             then Vested(status.lockedAmount, t.vest[c].lastTs, d.startTs, d.endTs) else 0)
            && withdrawn == (if c in t.vest then t.vest[c].paid else 0)
            && next.Ok? && withdrawn + next.value <= status.lockedAmount
            && withdrawn + next.value == Vested(status.lockedAmount, s.clock.ts, d.startTs, d.endTs)
            && (s.clock.ts >= d.endTs ==> withdrawn + next.value == status.lockedAmount)
  {
    BirthIsValid(w);
    EveryRunIsValid(H, w, run);
    WithdrawableNow(Run(H, w, run), c);
  }

  lemma WithdrawableNow(w: World, c: Pubkey)
    requires Valid(w) && w.state.distributor.Some? && c in w.state.statuses
    ensures var s, d, status := w.state, w.state.distributor.value, w.state.statuses[c];
            var vested := Vested(status.lockedAmount, s.clock.ts, d.startTs, d.endTs);
            && status.lockedAmountWithdrawn <= vested
            && AmountWithdrawable(status, s.clock.ts, d.startTs, d.endTs)
               == Ok(vested - status.lockedAmountWithdrawn)
  {
    var s, d, status := w.state, w.state.distributor.value, w.state.statuses[c];
    assert StatusOk(w, d, c);
    VestingExact(status.lockedAmount, s.clock.ts, d.startTs, d.endTs);
    if c in w.tally.vest {
      VestedMonotone(status.lockedAmount, w.tally.vest[c].lastTs, s.clock.ts, d.startTs, d.endTs);
    }
  }

  // ----- clawback -----

  /** In every reachable state the times are in order, whatever setters were called. */
  lemma TimesStayInOrder(H: Hasher, w: World, run: seq<Instruction>)
    requires Born(w) && OneLife(H, w, run)
    ensures var s := Run(H, w, run).state;
            s.distributor.Some? ==>
              var d := s.distributor.value;
              d.startTs < d.endTs && d.clawbackStartTs >= d.endTs + SECONDS_PER_DAY
  {
    BirthIsValid(w);
    EveryRunIsValid(H, w, run);
  }

  lemma ClawbackNeedsItsTime(s: State)
    requires ExecClawback(s).Ok?
    ensures s.distributor.Some? && !s.distributor.value.clawedBack
    ensures s.clock.ts >= s.distributor.value.clawbackStartTs
  {
  }

  /** A status is fully vested, and was already a day ago. */
  predicate LongVested(s: State, c: Pubkey)
    requires s.distributor.Some? && c in s.statuses
  {
    var d, locked := s.distributor.value, s.statuses[c].lockedAmount;
    Vested(locked, s.clock.ts - SECONDS_PER_DAY, d.startTs, d.endTs) == locked
  }

  /** Clawback is fair: when it succeeds everything has been vested for at least a day. */
  lemma ClawbackIsFair(H: Hasher, w: World, run: seq<Instruction>)
    requires Born(w) && OneLife(H, w, run)
    requires ExecClawback(Run(H, w, run).state).Ok?
    ensures var s := Run(H, w, run).state;
            s.distributor.Some? && forall c :: c in s.statuses ==> LongVested(s, c)
  {
    TimesStayInOrder(H, w, run);
    ClawbackNeedsItsTime(Run(H, w, run).state);
  }

  /** With a sound vault, clawback succeeds under these conditions and no others; nobody's signature is among them. */
  lemma ClawbackExactly(s: State)
    requires s.distributor.Some?
    requires var d := s.distributor.value;
             IsTokenAccount(s.tokens, d.tokenVault, d.mint, s.self) && SupplyOnRecord(s, d.mint)
    ensures var d := s.distributor.value;
            ExecClawback(s).Ok? <==>
              !d.clawedBack && s.clock.ts >= d.clawbackStartTs && HoldsMint(s.tokens, d.clawbackReceiver, d.mint)
  {
    var d := s.distributor.value;
    if HoldsMint(s.tokens, d.clawbackReceiver, d.mint) {
      TransferSucceeds(s.tokens, d.tokenVault, d.clawbackReceiver, s.self, VaultBalance(s));
    }
  }

  /**
   * In a reachable state a clawback that is due succeeds exactly when the receiver's account still exists with
   * the mint; should it not, the admin can name any account that does.
   */
  lemma DueClawbackSucceeds(H: Hasher, w: World, run: seq<Instruction>)
    requires Born(w) && OneLife(H, w, run) && Run(H, w, run).state.distributor.Some?
    ensures var s := Run(H, w, run).state;
            var d := s.distributor.value;
            ExecClawback(s).Ok? <==>
              !d.clawedBack && s.clock.ts >= d.clawbackStartTs && HoldsMint(s.tokens, d.clawbackReceiver, d.mint)
    ensures forall key :: RedirectedClawbackSucceeds(Run(H, w, run).state, key)
  {
    BirthIsValid(w);
    EveryRunIsValid(H, w, run);
    var s := Run(H, w, run).state;
    ClawbackExactly(s);
    forall key
      ensures RedirectedClawbackSucceeds(s, key)
    {
      AdminRedirectsClawback(s, key);
    }
  }

  /** If clawback is due, the admin can name this other account of the mint, and clawback then succeeds. */
  predicate RedirectedClawbackSucceeds(s: State, key: Pubkey)
    requires s.distributor.Some?
  {
    var d := s.distributor.value;
    (!d.clawedBack && s.clock.ts >= d.clawbackStartTs && HoldsMint(s.tokens, key, d.mint)
     && key != d.clawbackReceiver) ==>
      var chosen := ExecSetter(s, SetClawbackReceiver(d.admin, key));
      chosen.Ok? && ExecClawback(chosen.value).Ok?
  }

  lemma AdminRedirectsClawback(s: State, key: Pubkey)
    requires s.distributor.Some? && TokensOk(s, s.distributor.value)
    ensures RedirectedClawbackSucceeds(s, key)
  {
    var d := s.distributor.value;
    if HoldsMint(s.tokens, key, d.mint) && key != d.clawbackReceiver {
      ClawbackExactly(ExecSetter(s, SetClawbackReceiver(d.admin, key)).value);
    }
  }

  /** The owner of an empty receiving account can close it, and a due clawback then fails until another is named. */
  lemma ClosedReceiverStopsClawback(s: State, owner: Pubkey)
    requires s.distributor.Some? && TokensOk(s, s.distributor.value)
    requires var d := s.distributor.value;
             && !d.clawedBack && s.clock.ts >= d.clawbackStartTs && HoldsMint(s.tokens, d.clawbackReceiver, d.mint)
             && s.tokens[d.clawbackReceiver].owner == owner != s.self
    ensures var d := s.distributor.value;
            var closed := CloseToken(s.tokens, d.clawbackReceiver, owner);
            && ExecClawback(s).Ok? && (closed.Ok? <==> s.tokens[d.clawbackReceiver].amount == 0)
            && (closed.Ok? ==>
                  && ExecClawback(s.(tokens := closed.value)) == Err(AccountNotFound)
                  && RedirectedClawbackSucceeds(s.(tokens := closed.value), d.tokenVault))
  {
    var d := s.distributor.value;
    ClawbackExactly(s);
    if s.tokens[d.clawbackReceiver].amount == 0 {
      ClosedAccountKeepsVault(s, d, d.clawbackReceiver, owner);
      AdminRedirectsClawback(s.(tokens := s.tokens - {d.clawbackReceiver}), d.tokenVault);
    }
  }

  /** Clawback empties the vault into the receiver on record exactly when that is not the vault itself. */
  lemma ClawbackMovesEverything(s: State)
    requires ExecClawback(s).Ok?
    ensures var d, after := s.distributor.value, ExecClawback(s).value;
            && after.distributor == Some(d.(clawedBack := true))
            && (VaultBalance(after) == 0 <==> d.clawbackReceiver != d.tokenVault || VaultBalance(s) == 0)
            && (if d.clawbackReceiver == d.tokenVault then after.tokens == s.tokens
                else after.tokens[d.clawbackReceiver].amount
                     == s.tokens[d.clawbackReceiver].amount + VaultBalance(s))
  {
  }

  /**
   * The vault is accepted as its own receiver, at creation and by the setter, and a due clawback then
   * succeeds and moves nothing: receivers are checked for their mint only.
   */
  lemma VaultMayReceiveItself(s: State, clock: Clock)
    requires s.distributor.Some? && TokensOk(s, s.distributor.value) && !s.distributor.value.clawedBack
    requires s.distributor.value.clawbackReceiver != s.distributor.value.tokenVault
    requires clock.ts >= s.distributor.value.clawbackStartTs
    ensures var d := s.distributor.value;
            var chosen := ExecSetter(s, SetClawbackReceiver(d.admin, d.tokenVault));
            && chosen.Ok?
            && var swept := ExecClawback(chosen.value.(clock := clock));
               && swept.Ok? && swept.value.distributor.value.clawedBack && swept.value.tokens == s.tokens
  {
    var d := s.distributor.value;
    ClawbackExactly(ExecSetter(s, SetClawbackReceiver(d.admin, d.tokenVault)).value.(clock := clock));
  }

  lemma CreationAcceptsVaultAsReceiver(s: State, args: DistributorArgs, keys: DistributorKeys)
    requires ExecNewDistributor(s, args, keys).Ok?
    ensures ExecNewDistributor(s, args, keys.(clawbackReceiver := keys.tokenVault)).Ok?
  {
  }

  lemma ClawedBackVaultGrows(H: Hasher, w: World, ins: Instruction)
    requires Valid(w) && w.state.distributor.Some?
    requires w.state.distributor.value.clawedBack && !w.state.distributor.value.closable
    ensures var w' := Advance(H, w, ins);
            && w'.state.distributor.Some? && w'.state.distributor.value.clawedBack
            && VaultBalance(w'.state) >= VaultBalance(w.state)
  {
    if ins.NewClaim? || ins.ClaimLocked? || ins.Clawback? {
      ClawedBackRefusesClaims(H, w.state, ins);
    } else if Exec(H, w.state, ins).Ok? {
      assert !ins.CloseDistributor?;
      OthersLeaveVault(H, w.state, ins);
    }
  }

  /**
   * After the clawback of a distributor that cannot be closed nothing ever leaves the vault again: not
   * what a clawback into the vault itself left there, nor a later deposit.
   */
  lemma {:induction false} ClawedBackVaultKeepsTokens(H: Hasher, w: World, run: seq<Instruction>)
    requires Valid(w) && w.state.distributor.Some?
    requires w.state.distributor.value.clawedBack && !w.state.distributor.value.closable
    ensures var s := Run(H, w, run).state;
            && s.distributor.Some? && s.distributor.value.clawedBack
            && VaultBalance(s) >= VaultBalance(w.state)
  {
    if run != [] {
      var n := |run| - 1;
      ClawedBackVaultKeepsTokens(H, w, run[..n]);
      NotClosableMeansOneLife(H, w, run[..n]);
      EveryRunIsValid(H, w, run[..n]);
      ClawedBackVaultGrows(H, Run(H, w, run[..n]), run[n]);
    }
  }

  lemma ClawedBackRefusesClaims(H: Hasher, s: State, ins: Instruction)
    requires s.distributor.Some? && s.distributor.value.clawedBack
    requires ins.NewClaim? || ins.ClaimLocked? || ins.Clawback?
    ensures Exec(H, s, ins).Err?
  {
  }

  /** Compared with `before`, no claim has been made: counters, withdrawals and payouts stand still. */
  predicate Frozen(before: World, after: World)
    requires before.state.distributor.Some?
  {
    && (after.state.distributor.Some? ==>
          var d, d' := before.state.distributor.value, after.state.distributor.value;
          && d'.clawedBack && d'.totalAmountClaimed == d.totalAmountClaimed
          && d'.numNodesClaimed == d.numNodesClaimed)
    && (forall c :: c in after.state.statuses ==>
          c in before.state.statuses && after.state.statuses[c] == before.state.statuses[c])
    && after.tally.paidOut == before.tally.paidOut
  }

  lemma StaysFrozen(H: Hasher, before: World, w: World, ins: Instruction)
    requires before.state.distributor.Some? && Frozen(before, w)
    requires ins.NewDistributor? ==> Exec(H, w.state, ins).Err?
    ensures Frozen(before, Advance(H, w, ins))
  {
    if ins.NewClaim? || ins.ClaimLocked? || ins.Clawback? {
      FrozenRefuses(H, before, w, ins);
    }
  }

  lemma FrozenRefuses(H: Hasher, before: World, w: World, ins: Instruction)
    requires before.state.distributor.Some? && Frozen(before, w)
    requires ins.NewClaim? || ins.ClaimLocked? || ins.Clawback?
    ensures Exec(H, w.state, ins).Err?
  {
    if w.state.distributor.Some? {
      ClawedBackRefusesClaims(H, w.state, ins);
    }
  }

  /**
   * Clawback is final: at the end of any run, of which every beginning is one, every claim and every
   * further clawback is refused, and the counters, the statuses and the payouts stand still.
   */
  lemma {:induction false} ClawbackIsFinal(H: Hasher, w: World, run: seq<Instruction>)
    requires w.state.distributor.Some? && w.state.distributor.value.clawedBack && OneLife(H, w, run)
    ensures Frozen(w, Run(H, w, run))
    ensures forall ins: Instruction :: ins.NewClaim? || ins.ClaimLocked? || ins.Clawback? ==>
              Exec(H, Run(H, w, run).state, ins).Err?
  {
    if run != [] {
      var n := |run| - 1;
      ClawbackIsFinal(H, w, run[..n]);
      StaysFrozen(H, w, Run(H, w, run[..n]), run[n]);
    }
    forall ins: Instruction | ins.NewClaim? || ins.ClaimLocked? || ins.Clawback?
      ensures Exec(H, Run(H, w, run).state, ins).Err?
    {
      FrozenRefuses(H, w, Run(H, w, run), ins);
    }
  }
}
