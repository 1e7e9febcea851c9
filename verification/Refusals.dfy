/** Which error an instruction returns: for every state, each one exactly when. */
module Refusals {
  import opened Primitives
  import opened Accounts
  import opened Vesting
  import opened Handlers
  import opened LeafEncoding
  import opened Machine
  import opened Permissions

  // ----- tokens -----

  /** After a transfer the two accounts have changed by the amount, and nothing else has. */
  predicate Moves(before: TokenAccounts, after: TokenAccounts, from: Pubkey, to: Pubkey, amount: nat) {
    && after.Keys == before.Keys && from in before && to in before
    && forall k :: k in before ==>
         && after[k].mint == before[k].mint && after[k].owner == before[k].owner
         && after[k].amount == before[k].amount
              - (if k == from && from != to then amount else 0) + (if k == to && from != to then amount else 0)
  }

  lemma TransferExactly(tokens: TokenAccounts, from: Pubkey, to: Pubkey, authority: Pubkey, amount: u64)
    ensures var r := TransferTokens(tokens, from, to, authority, amount);
            && (r == Err(AccountNotFound) <==> from !in tokens || to !in tokens)
            && (from in tokens && to in tokens ==>
                  var source, target := tokens[from], tokens[to];
                  var payable := amount <= source.amount && source.mint == target.mint && source.owner == authority;
                  && (r == Err(InsufficientFunds) <==> amount > source.amount)
                  && (r == Err(MintMismatch) <==> amount <= source.amount && source.mint != target.mint)
                  && (r == Err(TokenOwnerMismatch) <==>
                        amount <= source.amount && source.mint == target.mint && source.owner != authority)
                  && (r == Err(TokenOverflow) <==> payable && from != to && target.amount + amount > U64_MAX)
                  && (r.Ok? <==> payable && (from == to || target.amount + amount <= U64_MAX)))
            && (r.Ok? ==> Moves(tokens, r.value, from, to, amount))
  {
  }

  // ----- new_claim -----

  lemma NewClaimRefusals(H: Hasher, s: State, to: Pubkey, entry: Entry, proof: seq<Digest>)
    ensures ExecNewClaim(H, s, to, entry, proof) == Err(AccountNotFound) <==> s.distributor.None?
    ensures s.distributor.Some? ==>
      var r, d, c := ExecNewClaim(H, s, to, entry, proof), s.distributor.value, entry.claimant;
      var accounts := IsTokenAccount(s.tokens, d.tokenVault, d.mint, s.self) && IsTokenAccount(s.tokens, to, d.mint, c);
      var checked := c != s.self && c !in s.statuses && accounts;
      var open := checked && !d.clawedBack && d.enableSlot <= s.clock.slot;
      var counted := open && d.numNodesClaimed < d.maxNumNodes;
      var proved := counted && ClaimAccepted(H, d.root, entry, proof);
      var funded := proved && entry.unlocked <= s.tokens[d.tokenVault].amount;
      var paid := funded && s.tokens[to].amount + entry.unlocked <= U64_MAX;
      var total := d.totalAmountClaimed + entry.unlocked;
      && (r == Err(Unauthorized) <==> c == s.self)
      && (r == Err(AccountInUse) <==> c != s.self && c in s.statuses)
      && (r == Err(ConstraintViolated) <==> c != s.self && c !in s.statuses && !accounts)
      && (r == Err(ClaimExpired) <==> checked && d.clawedBack)
      && (r == Err(ClaimingIsNotStarted) <==> checked && !d.clawedBack && s.clock.slot < d.enableSlot)
      && (r == Err(MaxNodesExceeded) <==> open && d.maxNumNodes <= d.numNodesClaimed < U64_MAX)
      && (r == Err(InvalidProof) <==> counted && !ClaimAccepted(H, d.root, entry, proof))
      && (r == Err(InsufficientFunds) <==> proved && entry.unlocked > s.tokens[d.tokenVault].amount)
      && (r == Err(TokenOverflow) <==> funded && s.tokens[to].amount + entry.unlocked > U64_MAX)
      && (r == Err(ArithmeticError) <==> (open && d.numNodesClaimed == U64_MAX) || (paid && total > U64_MAX))
      && (r == Err(ExceededMaxClaim) <==> paid && d.maxTotalClaim < total <= U64_MAX)
      && (r.Ok? <==> paid && total <= d.maxTotalClaim)
  {
    if s.distributor.Some? {
      TransferExactly(s.tokens, s.distributor.value.tokenVault, to, s.self, entry.unlocked);
    }
  }

  // ----- claim_locked -----

  /** The schedule cannot be computed, or is behind what was withdrawn. */
  predicate ScheduleFails(s: State, c: Pubkey)
    requires s.distributor.Some? && c in s.statuses
  {
    var d := s.distributor.value;
    (d.startTs <= s.clock.ts < d.endTs && d.endTs - d.startTs > I64_MAX) || Due(s, c) < 0
  }

  lemma ScheduleRefusals(s: State, c: Pubkey)
    requires s.distributor.Some? && c in s.statuses
    ensures var d := s.distributor.value;
            AmountWithdrawable(s.statuses[c], s.clock.ts, d.startTs, d.endTs)
              == if ScheduleFails(s, c) then Err(ArithmeticError) else Ok(Due(s, c))
  {
    VestingExact(s.statuses[c].lockedAmount, s.clock.ts, s.distributor.value.startTs, s.distributor.value.endTs);
  }

  lemma ClaimLockedRefusals(s: State, c: Pubkey, to: Pubkey)
    ensures ExecClaimLocked(s, c, to) == Err(AccountNotFound) <==>
              s.distributor.None? || (c != s.self && c !in s.statuses)
    ensures ExecClaimLocked(s, c, to) == Err(Unauthorized) <==> s.distributor.Some? && c == s.self
    ensures s.distributor.Some? && c != s.self && c in s.statuses ==>
      var r, d := ExecClaimLocked(s, c, to), s.distributor.value;
      var checked := IsTokenAccount(s.tokens, d.tokenVault, d.mint, s.self)
                     && to in s.tokens && s.tokens[to].owner == c;
      var open := checked && !d.clawedBack && d.enableSlot <= s.clock.slot;
      var due := open && !ScheduleFails(s, c) && Due(s, c) > 0;
      var funded := due && Due(s, c) <= s.tokens[d.tokenVault].amount;
      var paid := funded && s.tokens[to].mint == d.mint && s.tokens[to].amount + Due(s, c) <= U64_MAX;
      var total := d.totalAmountClaimed + Due(s, c);
      && (r == Err(ConstraintViolated) <==> !checked)
      && (r == Err(ClaimExpired) <==> checked && d.clawedBack)
      && (r == Err(ClaimingIsNotStarted) <==> checked && !d.clawedBack && s.clock.slot < d.enableSlot)
      && (r == Err(InsufficientUnlockedTokens) <==> open && !ScheduleFails(s, c) && Due(s, c) == 0)
      && (r == Err(InsufficientFunds) <==> due && Due(s, c) > s.tokens[d.tokenVault].amount)
      && (r == Err(MintMismatch) <==> funded && s.tokens[to].mint != d.mint)
      && (r == Err(TokenOverflow) <==>
            funded && s.tokens[to].mint == d.mint && s.tokens[to].amount + Due(s, c) > U64_MAX)
      && (r == Err(ArithmeticError) <==> (open && ScheduleFails(s, c)) || (paid && total > U64_MAX))
      && (r == Err(ExceededMaxClaim) <==> paid && d.maxTotalClaim < total <= U64_MAX)
      && (r.Ok? <==> paid && total <= d.maxTotalClaim)
  {
    if s.distributor.Some? && c in s.statuses {
      ScheduleRefusals(s, c);
      if !ScheduleFails(s, c) {
        TransferExactly(s.tokens, s.distributor.value.tokenVault, to, s.self, Due(s, c));
      }
    }
  }

  // ----- clawback and closing -----

  lemma ClawbackRefusals(s: State)
    ensures s.distributor.None? ==> ExecClawback(s) == Err(AccountNotFound)
    ensures s.distributor.Some? ==>
      var r, d := ExecClawback(s), s.distributor.value;
      var vault := IsTokenAccount(s.tokens, d.tokenVault, d.mint, s.self);
      var checked := vault && d.clawbackReceiver in s.tokens;
      var due := checked && !d.clawedBack && d.clawbackStartTs <= s.clock.ts;
      && (r == Err(ConstraintViolated) <==> !vault)
      && (r == Err(AccountNotFound) <==> vault && d.clawbackReceiver !in s.tokens)
      && (r == Err(ClawbackAlreadyClaimed) <==> checked && d.clawedBack)
      && (r == Err(ClawbackBeforeStart) <==> checked && !d.clawedBack && s.clock.ts < d.clawbackStartTs)
      && (r == Err(MintMismatch) <==> due && s.tokens[d.clawbackReceiver].mint != d.mint)
      && (r == Err(TokenOverflow) <==>
            && due && s.tokens[d.clawbackReceiver].mint == d.mint && d.clawbackReceiver != d.tokenVault
            && s.tokens[d.clawbackReceiver].amount + s.tokens[d.tokenVault].amount > U64_MAX)
      && (r.Err? ==> r.error in {ConstraintViolated, AccountNotFound, ClawbackAlreadyClaimed, ClawbackBeforeStart,
                                 MintMismatch, TokenOverflow})
  {
    if s.distributor.Some? && s.distributor.value.tokenVault in s.tokens {
      var d := s.distributor.value;
      TransferExactly(s.tokens, d.tokenVault, d.clawbackReceiver, s.self, s.tokens[d.tokenVault].amount);
    }
  }

  lemma CloseDistributorRefusals(s: State, admin: Pubkey, destination: Pubkey)
    ensures s.distributor.None? ==> ExecCloseDistributor(s, admin, destination) == Err(AccountNotFound)
    ensures s.distributor.Some? ==>
      var r, d := ExecCloseDistributor(s, admin, destination), s.distributor.value;
      var allowed := d.admin == admin && d.closable;
      var known := allowed && d.tokenVault in s.tokens && destination in s.tokens;
      var sameMint := known && s.tokens[d.tokenVault].mint == s.tokens[destination].mint;
      var owned := sameMint && s.tokens[d.tokenVault].owner == s.self;
      && (r == Err(ConstraintViolated) <==> d.admin != admin)
      && (r == Err(CannotCloseDistributor) <==> d.admin == admin && !d.closable)
      && (r == Err(AccountNotFound) <==> allowed && !(d.tokenVault in s.tokens && destination in s.tokens))
      && (r == Err(MintMismatch) <==> known && !sameMint)
      && (r == Err(TokenOwnerMismatch) <==> sameMint && !owned)
      && (r == Err(TokenOverflow) <==>
            owned && destination != d.tokenVault
            && s.tokens[destination].amount + s.tokens[d.tokenVault].amount > U64_MAX)
      && (r.Err? ==> r.error in {ConstraintViolated, CannotCloseDistributor, AccountNotFound, MintMismatch,
                                 TokenOwnerMismatch, TokenOverflow})
  {
    if s.distributor.Some? && s.distributor.value.tokenVault in s.tokens {
      var d := s.distributor.value;
      TransferExactly(s.tokens, d.tokenVault, destination, s.self, s.tokens[d.tokenVault].amount);
    }
  }

  lemma CloseClaimStatusRefusals(s: State, admin: Pubkey, c: Pubkey)
    ensures var r := ExecCloseClaimStatus(s, admin, c);
            && (r == Err(AccountNotFound) <==> c !in s.statuses)
            && (c in s.statuses ==>
                  var status := s.statuses[c];
                  && (r == Err(ConstraintViolated) <==> status.claimant != c || status.admin != admin)
                  && (r == Err(CannotCloseClaimStatus) <==>
                        status.claimant == c && status.admin == admin && !status.closable)
                  && (r.Ok? <==> status.claimant == c && status.admin == admin && status.closable)
                  && (r.Ok? ==> r.value == s.(statuses := s.statuses - {c})))
  {
  }

  // ----- creation -----

  lemma NewDistributorRefusals(s: State, args: DistributorArgs, keys: DistributorKeys)
    ensures var r := ExecNewDistributor(s, args, keys);
            var now, start, end, clawback := s.clock.ts, args.startVestingTs, args.endVestingTs, args.clawbackStartTs;
            var accounts := HoldsMint(s.tokens, keys.clawbackReceiver, keys.mint)
                            && IsTokenAccount(s.tokens, keys.tokenVault, keys.mint, s.self);
            var checked := s.distributor.None? && keys.mint in s.mints && accounts;
            var inFuture := checked && now < start < end && now < clawback;
            && (r == Err(AccountInUse) <==> s.distributor.Some?)
            && (r == Err(AccountNotFound) <==> s.distributor.None? && keys.mint !in s.mints)
            && (r == Err(ConstraintViolated) <==> s.distributor.None? && keys.mint in s.mints && !accounts)
            && (r == Err(StartTimestampAfterEnd) <==> checked && end <= start)
            && (r == Err(TimestampsNotInFuture) <==> checked && start < end && (start <= now || clawback <= now))
            && (r == Err(ClawbackDuringVesting) <==> inFuture && clawback <= end)
            && (r == Err(ArithmeticError) <==> inFuture && end < clawback && end + 86400 > I64_MAX)
            && (r == Err(InsufficientClawbackDelay) <==> inFuture && end < clawback < end + 86400 <= I64_MAX)
            && (r.Ok? <==> checked && now < start < end && end + 86400 <= clawback)
  {
  }

  // ----- the setters -----

  lemma SetterRefusals(s: State, ins: Instruction)
    requires ins.SetClawbackStartTs? || ins.SetEnableSlot? || ins.SetAdmin? || ins.SetClawbackReceiver?
    ensures s.distributor.None? ==> ExecSetter(s, ins) == Err(AccountNotFound)
    ensures s.distributor.Some? ==>
      var r, d := ExecSetter(s, ins), s.distributor.value;
      match ins
      case SetClawbackStartTs(admin, ts) =>
        && (r == Err(ConstraintViolated) <==> d.admin != admin)
        && (r == Err(TimestampsNotInFuture) <==> d.admin == admin && ts <= s.clock.ts)
        && (r == Err(ArithmeticError) <==> d.admin == admin && s.clock.ts < ts && d.endTs + 86400 > I64_MAX)
        && (r == Err(InsufficientClawbackDelay) <==>
              d.admin == admin && s.clock.ts < ts < d.endTs + 86400 <= I64_MAX)
        && (r.Ok? <==> d.admin == admin && s.clock.ts < ts && d.endTs + 86400 <= ts)
      case SetEnableSlot(admin, slot) =>
        && (r == Err(ConstraintViolated) <==> d.admin != admin)
        && (r.Ok? <==> d.admin == admin)
      case SetAdmin(admin, newAdmin) =>
        && (r == Err(Unauthorized) <==> d.admin != admin)
        && (r == Err(SameAdmin) <==> d.admin == admin == newAdmin)
        && (r.Ok? <==> d.admin == admin != newAdmin)
      case SetClawbackReceiver(admin, receiver) =>
        && (r == Err(ConstraintViolated) <==> !HoldsMint(s.tokens, receiver, d.mint))
        && (r == Err(Unauthorized) <==> HoldsMint(s.tokens, receiver, d.mint) && d.admin != admin)
        && (r == Err(SameClawbackReceiver) <==>
              HoldsMint(s.tokens, receiver, d.mint) && d.admin == admin && d.clawbackReceiver == receiver)
        && (r.Ok? <==>
              HoldsMint(s.tokens, receiver, d.mint) && d.admin == admin && d.clawbackReceiver != receiver)
      case _ => true
  {
  }

  // ----- what others do -----

  /** Nobody can act for the distributor, and each step does to the tokens just what it says. */
  lemma OthersExactly(H: Hasher, s: State, ins: Instruction)
    requires ins.Tick? || ins.OpenTokenAccount? || ins.CloseTokenAccount? || ins.SendTokens? || ins.MintTokens?
    ensures var r := Exec(H, s, ins);
            && (r.Ok? <==>
                  match ins
                  case Tick(clock) => s.clock.ts <= clock.ts && s.clock.slot <= clock.slot
                  case OpenTokenAccount(key, _, _) => key !in s.tokens
                  case CloseTokenAccount(key, authority) =>
                    key in s.tokens && s.tokens[key].amount == 0 && s.tokens[key].owner == authority != s.self
                  case SendTokens(from, to, authority, amount) =>
                    && from in s.tokens && to in s.tokens && s.tokens[from].owner == authority != s.self
                    && amount <= s.tokens[from].amount && s.tokens[from].mint == s.tokens[to].mint
                    && (from == to || s.tokens[to].amount + amount <= U64_MAX)
                  case MintTokens(to, amount) =>
                    && to in s.tokens && s.tokens[to].mint in s.mints && s.tokens[to].amount + amount <= U64_MAX
                    && s.mints[s.tokens[to].mint] + amount <= U64_MAX)
            && (r.Ok? ==>
                  var after := r.value;
                  match ins
                  case Tick(clock) => after == s.(clock := clock)
                  case OpenTokenAccount(key, mint, owner) =>
                    after == s.(tokens := s.tokens[key := TokenAccount(mint, owner, 0)])
                  case CloseTokenAccount(key, _) => after == s.(tokens := s.tokens - {key})
                  case SendTokens(from, to, _, amount) =>
                    after == s.(tokens := after.tokens) && Moves(s.tokens, after.tokens, from, to, amount)
                  case MintTokens(to, amount) =>
                    after == s.(tokens := s.tokens[to := s.tokens[to].(amount := s.tokens[to].amount + amount)],
                                mints := s.mints[s.tokens[to].mint := s.mints[s.tokens[to].mint] + amount]))
  {
    if ins.SendTokens? {
      TransferExactly(s.tokens, ins.from, ins.to, ins.authority, ins.amount);
    }
  }
}
