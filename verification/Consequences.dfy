/** What one administrative instruction means for the instructions after it. */
module Consequences {
  import opened Primitives
  import opened Accounts
  import opened Vesting
  import opened Handlers
  import opened LeafEncoding
  import opened Machine
  import opened Invariants
  import opened RunTheorems
  import opened Permissions
  import opened Refusals

  // ----- creation -----

  /** `later` follows the creation; since then only tokens, mints and the clock have changed. The vault is sound. */
  ghost predicate Created(s: State, args: DistributorArgs, keys: DistributorKeys, later: State) {
    && ExecNewDistributor(s, args, keys).Ok?
    && later == ExecNewDistributor(s, args, keys).value.(
                  tokens := later.tokens, mints := later.mints, clock := later.clock)
    && IsTokenAccount(later.tokens, keys.tokenVault, keys.mint, later.self) && SupplyOnRecord(later, keys.mint)
  }

  /** What creation leaves beside the record. */
  lemma CreationTouchesNothingElse(s: State, args: DistributorArgs, keys: DistributorKeys)
    requires ExecNewDistributor(s, args, keys).Ok?
    ensures var after := ExecNewDistributor(s, args, keys).value;
            && after.distributor.Some? && after == s.(distributor := after.distributor)
            && var d := after.distributor.value;
               && d.version == args.version && d.base == keys.base
               && d.numNodesClaimed == d.totalAmountClaimed == 0 && !d.clawedBack
  {
  }

  /** What no instruction changes while the account lives. */
  predicate BoundBy(d: DistributorData, args: DistributorArgs, keys: DistributorKeys) {
    && d.root == args.root && d.maxTotalClaim == args.maxTotalClaim && d.maxNumNodes == args.maxNumNodes
    && d.startTs == args.startVestingTs && d.endTs == args.endVestingTs && d.closable == args.closable
    && d.mint == keys.mint && d.tokenVault == keys.tokenVault
    && d.version == args.version && d.base == keys.base
  }

  /** Clawback opens exactly at the time given, for the receiver given, and pays it the whole vault. */
  lemma CreationSetsClawback(s: State, args: DistributorArgs, keys: DistributorKeys, later: State)
    requires Created(s, args, keys, later)
    ensures ExecClawback(later).Ok? <==>
              later.clock.ts >= args.clawbackStartTs && HoldsMint(later.tokens, keys.clawbackReceiver, keys.mint)
    ensures ExecClawback(later).Ok? ==>
              Moves(later.tokens, ExecClawback(later).value.tokens, keys.tokenVault, keys.clawbackReceiver,
                    later.tokens[keys.tokenVault].amount)
  {
    ClawbackExactly(later);
    SweepMoves(later, keys.clawbackReceiver);
  }

  lemma SweepMoves(s: State, to: Pubkey)
    requires s.distributor.Some? && s.distributor.value.tokenVault in s.tokens
    ensures var vault := s.distributor.value.tokenVault;
            var swept := TransferTokens(s.tokens, vault, to, s.self, s.tokens[vault].amount);
            swept.Ok? ==> Moves(s.tokens, swept.value, vault, to, s.tokens[vault].amount)
  {
    var vault := s.distributor.value.tokenVault;
    TransferExactly(s.tokens, vault, to, s.self, s.tokens[vault].amount);
  }

  /** The first claim: when it succeeds, what it pays from where, and what its status says. */
  lemma CreationSetsClaims(H: Hasher, s: State, args: DistributorArgs, keys: DistributorKeys, later: State,
                           to: Pubkey, entry: Entry, proof: seq<Digest>)
    requires Created(s, args, keys, later)
    ensures ExecNewClaim(H, later, to, entry, proof).Ok? <==>
              && later.clock.slot >= args.enableSlot
              && entry.claimant != later.self && IsTokenAccount(later.tokens, to, keys.mint, entry.claimant)
              && entry.claimant !in later.statuses && ClaimAccepted(H, args.root, entry, proof)
              && 0 < args.maxNumNodes && entry.unlocked <= args.maxTotalClaim
              && entry.unlocked <= later.tokens[keys.tokenVault].amount
    ensures ExecNewClaim(H, later, to, entry, proof).Ok? ==>
              var after := ExecNewClaim(H, later, to, entry, proof).value;
              && Moves(later.tokens, after.tokens, keys.tokenVault, to, entry.unlocked)
              && after.statuses == later.statuses[entry.claimant :=
                   StatusData(entry.claimant, entry.locked, 0, entry.unlocked, args.closable, keys.admin)]
  {
    NewClaimExactly(H, later, to, entry, proof);
    TransferExactly(later.tokens, keys.tokenVault, to, later.self, entry.unlocked);
  }

  /** A withdrawal pays what the schedule of the times given has released beyond what was withdrawn. */
  lemma CreationSetsSchedule(s: State, args: DistributorArgs, keys: DistributorKeys, later: State,
                             c: Pubkey, to: Pubkey)
    requires Created(s, args, keys, later) && ExecClaimLocked(later, c, to).Ok?
    ensures c in later.statuses
    ensures var status, after := later.statuses[c], ExecClaimLocked(later, c, to).value;
            var vested := Vested(status.lockedAmount, later.clock.ts, args.startVestingTs, args.endVestingTs);
            && later.clock.slot >= args.enableSlot && vested > status.lockedAmountWithdrawn
            && Moves(later.tokens, after.tokens, keys.tokenVault, to, vested - status.lockedAmountWithdrawn)
            && vested - status.lockedAmountWithdrawn <= args.maxTotalClaim
  {
    var d := later.distributor.value;
    assert BoundBy(d, args, keys) && d.enableSlot == args.enableSlot && d.totalAmountClaimed == 0;
    WithdrawalMoves(later, c, to);
  }

  lemma WithdrawalMoves(s: State, c: Pubkey, to: Pubkey)
    requires ExecClaimLocked(s, c, to).Ok?
    ensures s.distributor.Some? && c in s.statuses && s.clock.slot >= s.distributor.value.enableSlot
    ensures Due(s, c) > 0 && s.distributor.value.totalAmountClaimed + Due(s, c) <= s.distributor.value.maxTotalClaim
    ensures Moves(s.tokens, ExecClaimLocked(s, c, to).value.tokens, s.distributor.value.tokenVault, to, Due(s, c))
  {
    ScheduleRefusals(s, c);
    ClaimLockedRefusals(s, c, to);
    TransferExactly(s.tokens, s.distributor.value.tokenVault, to, s.self, Due(s, c));
  }

  /** The same instruction, signed by another administrator. */
  function SignedBy(ins: Instruction, admin: Pubkey): Instruction
    requires Administrator(ins).Some?
  {
    match ins
    case SetClawbackStartTs(_, ts) => SetClawbackStartTs(admin, ts)
    case SetEnableSlot(_, slot) => SetEnableSlot(admin, slot)
    case SetAdmin(_, newAdmin) => SetAdmin(admin, newAdmin)
    case SetClawbackReceiver(_, receiver) => SetClawbackReceiver(admin, receiver)
    case CloseDistributor(_, destination) => CloseDistributor(admin, destination)
  }

  lemma StrangerIsRefused(H: Hasher, s: State, ins: Instruction)
    requires s.distributor.Some? && Administrator(ins).Some?
    requires Administrator(ins) != Some(s.distributor.value.admin)
    ensures Exec(H, s, ins).Err?
  {
  }

  /** The creator administers and nobody else does; and whether it may close was fixed at creation. */
  lemma CreationSetsAdmin(H: Hasher, s: State, args: DistributorArgs, keys: DistributorKeys, later: State,
                          ins: Instruction)
    requires Created(s, args, keys, later) && Administrator(ins).Some?
    ensures Administrator(ins) != Some(keys.admin) ==> Exec(H, later, ins).Err?
    ensures Administrator(ins) == Some(keys.admin) ==>
      (Exec(H, later, ins).Ok? <==>
        match ins
        case SetClawbackStartTs(_, ts) => later.clock.ts < ts && args.endVestingTs + 86400 <= ts
        case SetEnableSlot(_, _) => true
        case SetAdmin(_, newAdmin) => newAdmin != keys.admin
        case SetClawbackReceiver(_, receiver) =>
          HoldsMint(later.tokens, receiver, keys.mint) && receiver != keys.clawbackReceiver
        case CloseDistributor(_, destination) => args.closable && HoldsMint(later.tokens, destination, keys.mint))
  {
    if Administrator(ins) != Some(keys.admin) {
      StrangerIsRefused(H, later, ins);
    } else if ins.CloseDistributor? {
      CloseExactly(later, ins.admin, ins.destination);
    } else {
      SetterRefusals(later, ins);
    }
  }

  // ----- closing -----

  /** With a sound vault, closing succeeds under these conditions and no others. */
  lemma CloseExactly(s: State, admin: Pubkey, destination: Pubkey)
    requires s.distributor.Some? && TokensOk(s, s.distributor.value)
    ensures var d := s.distributor.value;
            ExecCloseDistributor(s, admin, destination).Ok? <==>
              d.closable && d.admin == admin && HoldsMint(s.tokens, destination, d.mint)
  {
    if HoldsMint(s.tokens, destination, s.distributor.value.mint) {
      TransferSucceeds(s.tokens, s.distributor.value.tokenVault, destination, s.self, VaultBalance(s));
    }
  }

  /** Closing removes the record and pays the whole vault to the destination; statuses, mints and clock stay. */
  lemma CloseMovesEverything(s: State, admin: Pubkey, destination: Pubkey)
    requires ExecCloseDistributor(s, admin, destination).Ok?
    ensures var d, after := s.distributor.value, ExecCloseDistributor(s, admin, destination).value;
            && d.tokenVault in s.tokens && after == s.(distributor := None, tokens := after.tokens)
            && Moves(s.tokens, after.tokens, d.tokenVault, destination, s.tokens[d.tokenVault].amount)
            && (destination != d.tokenVault ==>
                  && after.tokens[d.tokenVault].amount == 0
                  && after.tokens[destination].amount == s.tokens[destination].amount + VaultBalance(s))
  {
    SweepMoves(s, destination);
  }

  // ----- the setters -----

  /** s' differs from s in the record only. */
  predicate OnlyRecord(s: State, s': State) {
    s'.distributor.Some? && s' == s.(distributor := s'.distributor)
  }

  /**
   * Handing over: the new admin's instructions are accepted and do what the old one's were and did, the old one's
   * are all refused, and nothing else differs.
   */
  lemma AdminHandsOver(H: Hasher, s: State, admin: Pubkey, newAdmin: Pubkey, ins: Instruction)
    requires ExecSetter(s, SetAdmin(admin, newAdmin)).Ok? && Administrator(ins).Some?
    ensures var s' := ExecSetter(s, SetAdmin(admin, newAdmin)).value;
            && admin != newAdmin && OnlyRecord(s, s')
            && s'.distributor.value.(admin := admin) == s.distributor.value
            && Exec(H, s', SignedBy(ins, admin)).Err?
            && (if ins.SetAdmin? then Exec(H, s', SignedBy(ins, newAdmin)).Ok? <==> ins.newAdmin != newAdmin
                else TwinResults(Exec(H, s, SignedBy(ins, admin)), Exec(H, s', SignedBy(ins, newAdmin)), newAdmin))
  {
    StrangerIsRefused(H, ExecSetter(s, SetAdmin(admin, newAdmin)).value, SignedBy(ins, admin));
  }

  /** The same result but for who the admin is. */
  predicate TwinResults(theirs: Result<State, Error>, ours: Result<State, Error>, admin: Pubkey) {
    match theirs
    case Err(error) => ours == Err(error)
    case Ok(s) =>
      ours == Ok(if s.distributor.None? then s else s.(distributor := Some(s.distributor.value.(admin := admin))))
  }

  /** Clawback is refused before the time set and open from then on; the rest of the record stays. */
  lemma ClawbackStartIsMoved(s: State, admin: Pubkey, ts: i64, clock: Clock)
    requires ExecSetter(s, SetClawbackStartTs(admin, ts)).Ok? && TokensOk(s, s.distributor.value)
    ensures var d, s' := s.distributor.value, ExecSetter(s, SetClawbackStartTs(admin, ts)).value;
            && OnlyRecord(s, s') && s'.distributor.value.(clawbackStartTs := d.clawbackStartTs) == d
            && (ExecClawback(s'.(clock := clock)).Ok? <==>
                  clock.ts >= ts && !d.clawedBack && HoldsMint(s.tokens, d.clawbackReceiver, d.mint))
  {
    ClawbackExactly(ExecSetter(s, SetClawbackStartTs(admin, ts)).value.(clock := clock));
  }

  /** Claims and withdrawals are refused before the slot set and open from then on; the rest of the record stays. */
  lemma EnableSlotIsMoved(H: Hasher, s: State, admin: Pubkey, slot: u64, clock: Clock, to: Pubkey, entry: Entry,
                          proof: seq<Digest>)
    requires ExecSetter(s, SetEnableSlot(admin, slot)).Ok? && TokensOk(s, s.distributor.value)
    ensures var d, s' := s.distributor.value, ExecSetter(s, SetEnableSlot(admin, slot)).value;
            var later := s'.(clock := clock);
            && OnlyRecord(s, s') && s'.distributor.value.(enableSlot := d.enableSlot) == d
            && (ExecNewClaim(H, later, to, entry, proof).Ok? <==>
                  && clock.slot >= slot && !d.clawedBack && CanReceive(s, entry.claimant, to)
                  && entry.claimant !in s.statuses && ClaimAccepted(H, d.root, entry, proof)
                  && d.numNodesClaimed < d.maxNumNodes && d.totalAmountClaimed + entry.unlocked <= d.maxTotalClaim
                  && entry.unlocked <= VaultBalance(s))
            && (ExecClaimLocked(later, entry.claimant, to).Ok? <==>
                  clock.slot >= slot && ExecClaimLocked(AlwaysEnabled(later), entry.claimant, to).Ok?)
  {
    var later := ExecSetter(s, SetEnableSlot(admin, slot)).value.(clock := clock);
    NewClaimExactly(H, later, to, entry, proof);
    ClaimLockedRefusals(later, entry.claimant, to);
    ClaimLockedRefusals(AlwaysEnabled(later), entry.claimant, to);
  }

  function AlwaysEnabled(s: State): State
    requires s.distributor.Some?
  {
    s.(distributor := Some(s.distributor.value.(enableSlot := 0)))
  }

  /** A clawback due afterwards pays the whole vault to the account named; the rest of the record stays. */
  lemma ReceiverIsMoved(s: State, admin: Pubkey, receiver: Pubkey, clock: Clock)
    requires ExecSetter(s, SetClawbackReceiver(admin, receiver)).Ok? && TokensOk(s, s.distributor.value)
    ensures var d, s' := s.distributor.value, ExecSetter(s, SetClawbackReceiver(admin, receiver)).value;
            var swept := ExecClawback(s'.(clock := clock));
            && OnlyRecord(s, s') && s'.distributor.value.(clawbackReceiver := d.clawbackReceiver) == d
            && (swept.Ok? <==> clock.ts >= d.clawbackStartTs && !d.clawedBack)
            && (swept.Ok? ==> Moves(s.tokens, swept.value.tokens, d.tokenVault, receiver, VaultBalance(s)))
  {
    var later := ExecSetter(s, SetClawbackReceiver(admin, receiver)).value.(clock := clock);
    ClawbackExactly(later);
    SweepMoves(later, receiver);
  }

  // ----- terms for life -----

  lemma SetterKeepsBound(s: State, ins: Instruction, args: DistributorArgs, keys: DistributorKeys)
    requires ins.SetClawbackStartTs? || ins.SetEnableSlot? || ins.SetAdmin? || ins.SetClawbackReceiver?
    requires ExecSetter(s, ins).Ok? && BoundBy(s.distributor.value, args, keys)
    ensures OnlyRecord(s, ExecSetter(s, ins).value)
    ensures BoundBy(ExecSetter(s, ins).value.distributor.value, args, keys)
  {
  }

  lemma ClaimKeepsBound(H: Hasher, s: State, ins: Instruction, args: DistributorArgs, keys: DistributorKeys)
    requires (ins.NewClaim? || ins.ClaimLocked? || ins.Clawback?) && Exec(H, s, ins).Ok?
    requires s.distributor.Some? && BoundBy(s.distributor.value, args, keys)
    ensures Exec(H, s, ins).value.distributor.Some?
    ensures BoundBy(Exec(H, s, ins).value.distributor.value, args, keys)
  {
  }

  /** Nobody else changes the record, except that closing removes it. */
  lemma OthersKeepRecord(H: Hasher, s: State, ins: Instruction)
    requires Exec(H, s, ins).Ok? && Administrator(ins).None?
    requires !ins.NewDistributor? && !ins.NewClaim? && !ins.ClaimLocked? && !ins.Clawback?
    ensures Exec(H, s, ins).value.distributor == s.distributor
  {
  }

  lemma StepKeepsBound(H: Hasher, s: State, ins: Instruction, args: DistributorArgs, keys: DistributorKeys)
    requires Exec(H, s, ins).Ok? && !ins.NewDistributor? && Exec(H, s, ins).value.distributor.Some?
    requires s.distributor.Some? ==> BoundBy(s.distributor.value, args, keys)
    ensures BoundBy(Exec(H, s, ins).value.distributor.value, args, keys)
  {
    if ins.NewClaim? || ins.ClaimLocked? || ins.Clawback? {
      ClaimKeepsBound(H, s, ins, args, keys);
    } else if Administrator(ins).None? {
      OthersKeepRecord(H, s, ins);
    } else if !ins.CloseDistributor? {
      SetterKeepsBound(s, ins, args, keys);
    }
  }

  lemma {:induction false} RunKeepsBound(H: Hasher, w: World, run: seq<Instruction>, args: DistributorArgs,
                                         keys: DistributorKeys)
    requires OneLife(H, w, run) && w.state.distributor.Some? && BoundBy(w.state.distributor.value, args, keys)
    ensures Run(H, w, run).state.distributor.Some? ==> BoundBy(Run(H, w, run).state.distributor.value, args, keys)
  {
    if run != [] {
      var n := |run| - 1;
      RunKeepsBound(H, w, run[..n], args, keys);
      var mid := Run(H, w, run[..n]);
      if Exec(H, mid.state, run[n]).Ok? && Exec(H, mid.state, run[n]).value.distributor.Some? {
        StepKeepsBound(H, mid.state, run[n], args, keys);
      }
    }
  }

  /** A distributor created with these arguments. */
  ghost predicate BornWith(w: World, args: DistributorArgs, keys: DistributorKeys) {
    exists s: State ::
      && s.statuses == map[] && s.clock.ts >= 0 && SupplyOnRecord(s, keys.mint)
      && ExecNewDistributor(s, args, keys) == Ok(w.state) && w.tally == BLANK
  }

  /**
   * The arguments of the creation bind every claim of its life. After any run a claim succeeds exactly when claims
   * are open, the claimant is new and can receive, the proof is accepted by the root given, fewer claims than the
   * number given have succeeded, and what has left the vault leaves room for it under the total given.
   */
  lemma CreationBindsEveryClaim(H: Hasher, w: World, args: DistributorArgs, keys: DistributorKeys,
                                run: seq<Instruction>, to: Pubkey, entry: Entry, proof: seq<Digest>)
    requires BornWith(w, args, keys) && OneLife(H, w, run) && Run(H, w, run).state.distributor.Some?
    ensures var s, t := Run(H, w, run).state, Run(H, w, run).tally;
            ExecNewClaim(H, s, to, entry, proof).Ok? <==>
              && Open(s) && entry.claimant != s.self && IsTokenAccount(s.tokens, to, keys.mint, entry.claimant)
              && entry.claimant !in s.statuses && ClaimAccepted(H, args.root, entry, proof)
              && t.claims < args.maxNumNodes && t.paidOut + entry.unlocked <= args.maxTotalClaim
              && keys.tokenVault in s.tokens && entry.unlocked <= s.tokens[keys.tokenVault].amount
  {
    BornWithIsBound(w, args, keys);
    RunKeepsBound(H, w, run, args, keys);
    EveryRunIsValid(H, w, run);
    NewClaimExactly(H, Run(H, w, run).state, to, entry, proof);
  }

  lemma BornWithIsBound(w: World, args: DistributorArgs, keys: DistributorKeys)
    requires BornWith(w, args, keys)
    ensures Born(w) && Valid(w) && w.state.distributor.Some? && BoundBy(w.state.distributor.value, args, keys)
  {
    BirthIsValid(w);
  }

  /** And every withdrawal: what it pays is due by the schedule of the times given. */
  lemma CreationBindsEveryWithdrawal(H: Hasher, w: World, args: DistributorArgs, keys: DistributorKeys,
                                     run: seq<Instruction>, c: Pubkey, to: Pubkey)
    requires BornWith(w, args, keys) && OneLife(H, w, run) && ExecClaimLocked(Run(H, w, run).state, c, to).Ok?
    ensures var s := Run(H, w, run).state;
            && c in s.statuses
            && var status, after := s.statuses[c], ExecClaimLocked(s, c, to).value;
               var vested := Vested(status.lockedAmount, s.clock.ts, args.startVestingTs, args.endVestingTs);
               && vested > status.lockedAmountWithdrawn
               && Moves(s.tokens, after.tokens, keys.tokenVault, to, vested - status.lockedAmountWithdrawn)
  {
    var s := Run(H, w, run).state;
    BornWithIsBound(w, args, keys);
    RunKeepsBound(H, w, run, args, keys);
    WithdrawalMoves(s, c, to);
  }
}
