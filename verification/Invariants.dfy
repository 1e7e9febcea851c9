/** What every instruction keeps, and so what holds after every run of one life of a distributor. */
module Invariants {
  import opened Primitives
  import opened Accounts
  import opened Handlers
  import opened LeafEncoding
  import opened Machine
  import opened MapSums
  import opened Vesting

  // ----- the token program conserves tokens -----

  lemma TransferConserves(tokens: TokenAccounts, from: Pubkey, to: Pubkey, authority: Pubkey, amount: u64, mint: Pubkey)
    requires TransferTokens(tokens, from, to, authority, amount).Ok?
    ensures Supply(TransferTokens(tokens, from, to, authority, amount).value, mint) == Supply(tokens, mint)
  {
    if from != to {
      var debited := tokens[from].(amount := tokens[from].amount - amount);
      var credited := tokens[to].(amount := tokens[to].amount + amount);
      SumUpdate(tokens, from, debited, OfMint(mint));
      SumUpdate(tokens[from := debited], to, credited, OfMint(mint));
    }
  }

  /** Within the supply a transfer fails only for want of funds, a wrong owner, or an unknown account. */
  lemma TransferSucceeds(tokens: TokenAccounts, from: Pubkey, to: Pubkey, authority: Pubkey, amount: u64)
    requires from in tokens && to in tokens && tokens[from].mint == tokens[to].mint
    requires tokens[from].owner == authority && amount <= tokens[from].amount
    requires Supply(tokens, tokens[from].mint) <= U64_MAX
    ensures TransferTokens(tokens, from, to, authority, amount).Ok?
  {
    if from != to {
      TwoTerms(tokens, from, to, OfMint(tokens[from].mint));
    }
  }

  /** Accounts keep their mint and owner, and other accounts their amount. */
  predicate SameAccounts(before: TokenAccounts, after: TokenAccounts) {
    forall k :: k in before ==> k in after && after[k].mint == before[k].mint && after[k].owner == before[k].owner
  }

  // ----- the invariant -----

  predicate TimesOk(d: DistributorData) {
    0 < d.startTs < d.endTs && d.clawbackStartTs >= d.endTs + SECONDS_PER_DAY
  }

  /** The vault exists, owned by the distributor and with the mint, and the mint accounts for all its tokens. */
  ghost predicate TokensOk(s: State, d: DistributorData) {
    && IsTokenAccount(s.tokens, d.tokenVault, d.mint, s.self)
    && SupplyOnRecord(s, d.mint)
  }

  /** A status belongs to its key, and what it withdrew is exactly the schedule at its last claim. */
  predicate StatusOk(w: World, d: DistributorData, c: Pubkey)
    requires c in w.state.statuses
  {
    var status := w.state.statuses[c];
    && status.claimant == c && status.closable == d.closable
    && if c in w.tally.vest then
         var log := w.tally.vest[c];
         && log.lastTs <= w.state.clock.ts
         && log.paid == status.lockedAmountWithdrawn == Vested(status.lockedAmount, log.lastTs, d.startTs, d.endTs)
       else status.lockedAmountWithdrawn == 0
  }

  predicate StatusesOk(w: World, d: DistributorData) {
    && w.tally.vest.Keys <= w.state.statuses.Keys
    && forall c :: c in w.state.statuses ==> StatusOk(w, d, c)
  }

  function Whole(n: nat): nat {
    n
  }

  /**
   * What left the vault is what claimants' accounts received; and where no status can be closed, each
   * claimant's own accounts received exactly what its status says, and nobody else's anything.
   */
  ghost predicate ReceivedOk(w: World, d: DistributorData) {
    var received, statuses := w.tally.received, w.state.statuses;
    && w.tally.paidOut == Sum(received, Whole)
    && (!d.closable ==>
          received.Keys == statuses.Keys && forall c :: c in statuses ==> received[c] == Paid(statuses[c]))
  }

  /** The counters agree with what the observer saw, and stay within their caps. */
  ghost predicate CountersOk(w: World, d: DistributorData) {
    var s, t := w.state, w.tally;
    && d.totalAmountClaimed == t.paidOut == Sum(s.statuses, Paid) + t.closedPaid
    && d.totalAmountClaimed <= d.maxTotalClaim
    && d.numNodesClaimed == t.claims == |s.statuses| + t.closedCount
    && d.numNodesClaimed <= d.maxNumNodes
    && (!d.closable ==> t.closedCount == 0 && t.closedPaid == 0)
  }

  ghost predicate Valid(w: World) {
    w.state.distributor.Some? ==>
      var d := w.state.distributor.value;
      TimesOk(d) && TokensOk(w.state, d) && StatusesOk(w, d) && ReceivedOk(w, d) && CountersOk(w, d)
  }

  lemma BirthIsValid(w: World)
    requires Born(w)
    ensures Valid(w) && w.state.distributor.Some? && w.state.statuses == map[]
  {
  }

  // ----- what a claim does -----

  /** The account's balance rises by the amount, and it belongs to the claimant. */
  predicate Credits(s: State, after: State, to: Pubkey, claimant: Pubkey, amount: nat) {
    && to in s.tokens && to in after.tokens && after.tokens[to].owner == claimant
    && after.tokens[to].amount == s.tokens[to].amount + amount
  }

  /** The facts about a successful new_claim that everything else uses. */
  lemma NewClaimStep(H: Hasher, s: State, to: Pubkey, entry: Entry, proof: seq<Digest>)
    requires s.distributor.Some? && TokensOk(s, s.distributor.value)
    requires ExecNewClaim(H, s, to, entry, proof).Ok?
    ensures var d, after := s.distributor.value, ExecNewClaim(H, s, to, entry, proof).value;
            && d.totalAmountClaimed + entry.unlocked <= d.maxTotalClaim && d.numNodesClaimed < d.maxNumNodes
            && after.distributor == Some(d.(numNodesClaimed := d.numNodesClaimed + 1,
                                            totalAmountClaimed := d.totalAmountClaimed + entry.unlocked))
            && ClaimAccepted(H, d.root, entry, proof) && entry.claimant !in s.statuses
            && after.statuses == s.statuses[entry.claimant :=
                 StatusData(entry.claimant, entry.locked, 0, entry.unlocked, d.closable, d.admin)]
            && VaultBalance(after) == VaultBalance(s) - entry.unlocked
            && Credits(s, after, to, entry.claimant, entry.unlocked)
            && TokensOk(after, d) && SameAccounts(s.tokens, after.tokens)
            && after.clock == s.clock && after.self == s.self
  {
    var d := s.distributor.value;
    TransferConserves(s.tokens, d.tokenVault, to, s.self, entry.unlocked, d.mint);
  }

  lemma ClaimLockedStep(s: State, claimant: Pubkey, to: Pubkey)
    requires s.distributor.Some? && TokensOk(s, s.distributor.value) && TimesOk(s.distributor.value)
    requires ExecClaimLocked(s, claimant, to).Ok?
    ensures claimant in s.statuses
    ensures var d, after, status := s.distributor.value, ExecClaimLocked(s, claimant, to).value, s.statuses[claimant];
            var vested := Vested(status.lockedAmount, s.clock.ts, d.startTs, d.endTs);
            var amount := vested - status.lockedAmountWithdrawn;
            && amount > 0 && d.totalAmountClaimed + amount <= d.maxTotalClaim
            && after.distributor == Some(d.(totalAmountClaimed := d.totalAmountClaimed + amount))
            && after.statuses == s.statuses[claimant := status.(lockedAmountWithdrawn := vested)]
            && VaultBalance(after) == VaultBalance(s) - amount && Credits(s, after, to, claimant, amount)
            && TokensOk(after, d) && SameAccounts(s.tokens, after.tokens)
            && after.clock == s.clock && after.self == s.self
  {
    var d, status := s.distributor.value, s.statuses[claimant];
    VestingExact(status.lockedAmount, s.clock.ts, d.startTs, d.endTs);
    var amount := AmountWithdrawable(status, s.clock.ts, d.startTs, d.endTs).value;
    TransferConserves(s.tokens, d.tokenVault, to, s.self, amount, d.mint);
  }

  // ----- preservation -----

  /** A claim's credit keeps the receipts in step with the statuses. */
  lemma CreditKeepsReceived(w: World, w': World, d: DistributorData, c: Pubkey, to: Pubkey, amount: nat)
    requires ReceivedOk(w, d) && Credits(w.state, w'.state, to, c, amount)
    requires w'.tally.received == Credit(w.tally.received, w.state.tokens, w'.state.tokens, to)
    requires w'.tally.paidOut == w.tally.paidOut + amount
    requires c in w'.state.statuses && w'.state.statuses == w.state.statuses[c := w'.state.statuses[c]]
    requires Paid(w'.state.statuses[c])
          == amount + if c in w.state.statuses then Paid(w.state.statuses[c]) else 0
    ensures ReceivedOk(w', d)
  {
    var received := w.tally.received;
    SumUpdate<Pubkey, nat>(received, c, ReceivedBy(received, c) + amount, Whole);
    assert w'.tally.received.Keys == received.Keys + {c};
    assert w'.state.statuses.Keys == w.state.statuses.Keys + {c};
  }

  lemma OtherKeepsStatuses(w: World, w': World, d: DistributorData, d': DistributorData)
    requires StatusesOk(w, d) && w'.state.statuses == w.state.statuses && w'.tally == w.tally
    requires d'.startTs == d.startTs && d'.endTs == d.endTs && d'.closable == d.closable
    requires w.state.clock.ts <= w'.state.clock.ts
    ensures StatusesOk(w', d')
  {
    forall k | k in w'.state.statuses
      ensures StatusOk(w', d', k)
    {
      assert StatusOk(w, d, k);
    }
  }

  lemma NewClaimKeepsValid(H: Hasher, w: World, ins: Instruction)
    requires Valid(w) && ins.NewClaim?
    ensures Valid(Advance(H, w, ins))
  {
    var s, entry := w.state, Entry(ins.claimant, ins.amountUnlocked, ins.amountLocked);
    if Exec(H, s, ins).Ok? {
      NewClaimStep(H, s, ins.to, entry, ins.proof);
      var w' := Advance(H, w, ins);
      var c, d, d' := ins.claimant, s.distributor.value, w'.state.distributor.value;
      SumUpdate(s.statuses, c, w'.state.statuses[c], Paid);
      CreditKeepsReceived(w, w', d, c, ins.to, ins.amountUnlocked);
      forall k | k in w'.state.statuses
        ensures StatusOk(w', d', k)
      {
        assert k != c ==> StatusOk(w, d, k);
      }
    }
  }

  /** What the observer notes when c withdraws into an account. */
  predicate LogsWithdrawal(w: World, w': World, c: Pubkey, to: Pubkey) {
    var t, t', out := w.tally, w'.tally, VaultBalance(w.state) - VaultBalance(w'.state);
    && t'.paidOut == t.paidOut + out && t'.received == Credit(t.received, w.state.tokens, w'.state.tokens, to)
    && t'.vest == t.vest[c := VestLog(w.state.clock.ts, LoggedPaid(t.vest, c) + out)]
    && t'.claims == t.claims && t'.closedCount == t.closedCount && t'.closedPaid == t.closedPaid
  }

  lemma WithdrawalLogged(H: Hasher, w: World, ins: Instruction)
    requires ins.ClaimLocked? && ExecClaimLocked(w.state, ins.claimant, ins.to).Ok?
    ensures Advance(H, w, ins).state == ExecClaimLocked(w.state, ins.claimant, ins.to).value
    ensures LogsWithdrawal(w, Advance(H, w, ins), ins.claimant, ins.to)
  {
  }

  /** A withdrawal up to the schedule, which touches no other status. */
  predicate Withdraws(s: State, s': State, c: Pubkey)
    requires s.distributor.Some? && c in s.statuses
  {
    var d, status := s.distributor.value, s.statuses[c];
    var vested := Vested(status.lockedAmount, s.clock.ts, d.startTs, d.endTs);
    && s'.statuses == s.statuses[c := status.(lockedAmountWithdrawn := vested)] && s'.clock == s.clock
    && VaultBalance(s') == VaultBalance(s) - (vested - status.lockedAmountWithdrawn)
  }

  lemma WithdrawalKeepsStatuses(w: World, w': World, c: Pubkey, to: Pubkey)
    requires w.state.distributor.Some? && StatusesOk(w, w.state.distributor.value) && c in w.state.statuses
    requires Withdraws(w.state, w'.state, c) && LogsWithdrawal(w, w', c, to)
    ensures StatusesOk(w', w.state.distributor.value)
  {
    var d := w.state.distributor.value;
    assert StatusOk(w, d, c);
    forall k | k in w'.state.statuses
      ensures StatusOk(w', d, k)
    {
      assert StatusOk(w, d, k);
    }
  }

  /** The sum of what was paid grows by what one status was. */
  lemma WithdrawalKeepsCount(statuses: map<Pubkey, StatusData>, c: Pubkey, status: StatusData)
    requires c in statuses
    ensures |statuses[c := status]| == |statuses|
    ensures Sum(statuses[c := status], Paid) + Paid(statuses[c]) == Sum(statuses, Paid) + Paid(status)
  {
    SumUpdate(statuses, c, status, Paid);
    assert statuses[c := status].Keys == statuses.Keys;
    assert |statuses[c := status]| == |statuses[c := status].Keys| && |statuses| == |statuses.Keys|;
  }

  lemma ClaimLockedKeepsValid(H: Hasher, w: World, ins: Instruction)
    requires Valid(w) && ins.ClaimLocked?
    ensures Valid(Advance(H, w, ins))
  {
    var s, c := w.state, ins.claimant;
    if ExecClaimLocked(s, c, ins.to).Ok? {
      var w', s', d := Advance(H, w, ins), ExecClaimLocked(s, c, ins.to).value, s.distributor.value;
      WithdrawalLogged(H, w, ins);
      ClaimLockedStep(s, c, ins.to);
      WithdrawalKeepsCount(s.statuses, c, s'.statuses[c]);
      CreditKeepsReceived(w, w', d, c, ins.to, VaultBalance(s) - VaultBalance(s'));
      assert StatusesOk(w', s'.distributor.value) by {
        WithdrawalKeepsStatuses(w, w', c, ins.to);
        OtherKeepsStatuses(w', w', d, s'.distributor.value);
      }
    }
  }

  lemma CloseStatusKeepsValid(H: Hasher, w: World, ins: Instruction)
    requires Valid(w) && ins.CloseClaimStatus?
    ensures Valid(Advance(H, w, ins))
  {
    var s := w.state;
    if Exec(H, s, ins).Ok? && s.distributor.Some? {
      var w' := Advance(H, w, ins);
      var c, d := ins.claimant, s.distributor.value;
      SumRemove(s.statuses, c, Paid);
      assert StatusOk(w, d, c);
      assert w'.state.statuses.Keys == s.statuses.Keys - {c};
      assert |w'.state.statuses| == |w'.state.statuses.Keys| == |s.statuses| - 1;
      forall k | k in w'.state.statuses
        ensures StatusOk(w', d, k)
      {
        assert StatusOk(w, d, k);
      }
    }
  }

  lemma ClawbackKeepsValid(H: Hasher, w: World, ins: Instruction)
    requires Valid(w) && ins.Clawback?
    ensures Valid(Advance(H, w, ins))
  {
    var s := w.state;
    if Exec(H, s, ins).Ok? {
      var w', d := Advance(H, w, ins), s.distributor.value;
      OtherKeepsStatuses(w, w', d, w'.state.distributor.value);
      TransferConserves(s.tokens, d.tokenVault, d.clawbackReceiver, s.self, VaultBalance(s), d.mint);
    }
  }

  lemma OthersTokensKeepVault(s: State, d: DistributorData, ins: Instruction)
    requires TokensOk(s, d) && ins.SendTokens? && ins.authority != s.self
    requires TransferTokens(s.tokens, ins.from, ins.to, ins.authority, ins.amount).Ok?
    ensures TokensOk(s.(tokens := TransferTokens(s.tokens, ins.from, ins.to, ins.authority, ins.amount).value), d)
  {
    TransferConserves(s.tokens, ins.from, ins.to, ins.authority, ins.amount, d.mint);
  }

  lemma NewAccountKeepsVault(s: State, d: DistributorData, ins: Instruction)
    requires TokensOk(s, d) && ins.OpenTokenAccount? && ins.key !in s.tokens
    ensures TokensOk(s.(tokens := s.tokens[ins.key := TokenAccount(ins.mint, ins.owner, 0)]), d)
  {
    SumUpdate(s.tokens, ins.key, TokenAccount(ins.mint, ins.owner, 0), OfMint(d.mint));
  }

  lemma ClosedAccountKeepsVault(s: State, d: DistributorData, key: Pubkey, authority: Pubkey)
    requires TokensOk(s, d) && authority != s.self && CloseToken(s.tokens, key, authority).Ok?
    ensures TokensOk(s.(tokens := CloseToken(s.tokens, key, authority).value), d)
  {
    SumRemove(s.tokens, key, OfMint(d.mint));
  }

  lemma NewTokensKeepVault(s: State, d: DistributorData, to: Pubkey, amount: u64)
    requires TokensOk(s, d) && ExecMintTokens(s, to, amount).Ok?
    ensures TokensOk(ExecMintTokens(s, to, amount).value, d)
  {
    var account := s.tokens[to];
    SumUpdate(s.tokens, to, account.(amount := account.amount + amount), OfMint(d.mint));
  }

  lemma OnlyTokensChanged(w: World, s': State)
    requires Valid(w) && w.state.distributor.Some? && TokensOk(s', w.state.distributor.value)
    requires s' == w.state.(tokens := s'.tokens, mints := s'.mints)
    ensures Valid(World(s', w.tally))
  {
    OtherKeepsStatuses(w, World(s', w.tally), w.state.distributor.value, w.state.distributor.value);
  }

  lemma OthersTokensKeepValid(H: Hasher, w: World, ins: Instruction)
    requires Valid(w) && (ins.SendTokens? || ins.OpenTokenAccount? || ins.CloseTokenAccount? || ins.MintTokens?)
    ensures Valid(Advance(H, w, ins))
  {
    var s := w.state;
    if Exec(H, s, ins).Ok? && s.distributor.Some? {
      if ins.SendTokens? {
        OthersTokensKeepVault(s, s.distributor.value, ins);
      } else if ins.OpenTokenAccount? {
        NewAccountKeepsVault(s, s.distributor.value, ins);
      } else if ins.CloseTokenAccount? {
        ClosedAccountKeepsVault(s, s.distributor.value, ins.key, ins.authority);
      } else {
        NewTokensKeepVault(s, s.distributor.value, ins.to, ins.amount);
      }
      OnlyTokensChanged(w, Advance(H, w, ins).state);
    }
  }

  lemma SettersKeepValid(H: Hasher, w: World, ins: Instruction)
    requires Valid(w)
    requires ins.SetClawbackStartTs? || ins.SetEnableSlot? || ins.SetAdmin? || ins.SetClawbackReceiver?
    ensures Valid(Advance(H, w, ins))
  {
    if Exec(H, w.state, ins).Ok? {
      var w' := Advance(H, w, ins);
      OtherKeepsStatuses(w, w', w.state.distributor.value, w'.state.distributor.value);
    }
  }

  lemma TickKeepsValid(H: Hasher, w: World, ins: Instruction)
    requires Valid(w) && ins.Tick?
    ensures Valid(Advance(H, w, ins))
  {
    if Exec(H, w.state, ins).Ok? && w.state.distributor.Some? {
      OtherKeepsStatuses(w, Advance(H, w, ins), w.state.distributor.value, w.state.distributor.value);
    }
  }

  lemma EveryStepKeepsValid(H: Hasher, w: World, ins: Instruction)
    requires Valid(w) && (ins.NewDistributor? ==> Exec(H, w.state, ins).Err?)
    ensures Valid(Advance(H, w, ins))
  {
    match ins
    case NewDistributor(_, _) =>
    case NewClaim(_, _, _, _, _) => NewClaimKeepsValid(H, w, ins);
    case ClaimLocked(_, _) => ClaimLockedKeepsValid(H, w, ins);
    case CloseClaimStatus(_, _) => CloseStatusKeepsValid(H, w, ins);
    case Clawback => ClawbackKeepsValid(H, w, ins);
    case SendTokens(_, _, _, _) => OthersTokensKeepValid(H, w, ins);
    case OpenTokenAccount(_, _, _) => OthersTokensKeepValid(H, w, ins);
    case CloseTokenAccount(_, _) => OthersTokensKeepValid(H, w, ins);
    case MintTokens(_, _) => OthersTokensKeepValid(H, w, ins);
    case Tick(_) => TickKeepsValid(H, w, ins);
    case CloseDistributor(_, _) =>
    case _ => SettersKeepValid(H, w, ins);
  }

  /** Whoever else sends, opens, closes or mints: the vault does not lose tokens. */
  lemma OthersTokensLeaveVault(H: Hasher, s: State, ins: Instruction)
    requires s.distributor.Some? && TokensOk(s, s.distributor.value) && Exec(H, s, ins).Ok?
    requires ins.SendTokens? || ins.OpenTokenAccount? || ins.CloseTokenAccount? || ins.MintTokens?
    ensures Exec(H, s, ins).value.distributor == s.distributor
    ensures VaultBalance(Exec(H, s, ins).value) >= VaultBalance(s)
  {
  }

  /** Only claims, clawback and closing take tokens from the vault, or change the counters and the flags. */
  lemma OthersLeaveVault(H: Hasher, s: State, ins: Instruction)
    requires s.distributor.Some? && TokensOk(s, s.distributor.value) && Exec(H, s, ins).Ok?
    requires !ins.NewClaim? && !ins.ClaimLocked? && !ins.Clawback? && !ins.CloseDistributor?
    ensures var after := Exec(H, s, ins).value;
            && after.distributor.Some? && VaultBalance(after) >= VaultBalance(s)
            && var d, d' := s.distributor.value, after.distributor.value;
               && d'.totalAmountClaimed == d.totalAmountClaimed && d'.maxTotalClaim == d.maxTotalClaim
               && d'.clawedBack == d.clawedBack && d'.closable == d.closable
  {
    if ins.SendTokens? || ins.OpenTokenAccount? || ins.CloseTokenAccount? || ins.MintTokens? {
      OthersTokensLeaveVault(H, s, ins);
    }
  }

  /** A live distributor that cannot be closed has but one life: every run whatever stays within it. */
  lemma {:induction false} NotClosableMeansOneLife(H: Hasher, w: World, run: seq<Instruction>)
    requires w.state.distributor.Some? && !w.state.distributor.value.closable
    ensures OneLife(H, w, run)
    ensures Run(H, w, run).state.distributor.Some? && !Run(H, w, run).state.distributor.value.closable
  {
    if run != [] {
      var n := |run| - 1;
      NotClosableMeansOneLife(H, w, run[..n]);
      StaysNotClosable(H, Run(H, w, run[..n]), run[n]);
    }
  }

  lemma StaysNotClosable(H: Hasher, w: World, ins: Instruction)
    requires w.state.distributor.Some? && !w.state.distributor.value.closable
    ensures ins.NewDistributor? ==> Exec(H, w.state, ins).Err?
    ensures Advance(H, w, ins).state.distributor.Some? && !Advance(H, w, ins).state.distributor.value.closable
  {
  }

  lemma {:induction false} EveryRunIsValid(H: Hasher, w: World, run: seq<Instruction>)
    requires Valid(w) && OneLife(H, w, run)
    ensures Valid(Run(H, w, run))
  {
    if run != [] {
      var n := |run| - 1;
      EveryRunIsValid(H, w, run[..n]);
      EveryStepKeepsValid(H, Run(H, w, run[..n]), run[n]);
    }
  }
}
