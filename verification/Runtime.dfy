/**
 * The runtime: it checks the accounts, loads working copies, calls the handler, and writes the copies
 * back only when the handler succeeds.
 */
module Runtime {
  import opened Primitives
  import opened Accounts
  import opened Handlers
  import opened LeafEncoding
  import opened Machine

  /** What a submission must do: the machine's step on success, nothing at all on an error. */
  predicate Does(before: State, after: State, expected: Result<State, Error>, r: Result<(), Error>) {
    match expected
    case Ok(next) => r == Ok(()) && after == next
    case Err(error) => r == Err(error) && after == before
  }

  class Chain {
    var state: State

    constructor (state: State)
      ensures this.state == state
    {
      this.state := state;
    }

    method SubmitNewDistributor(args: DistributorArgs, keys: DistributorKeys) returns (r: Result<(), Error>)
      modifies this
      ensures Does(old(state), state, ExecNewDistributor(old(state), args, keys), r)
    {
      var tokens := state.tokens;
      :- Need(state.distributor.None?, AccountInUse);
      :- Need(keys.mint in state.mints, AccountNotFound);
      :- Need(HoldsMint(tokens, keys.clawbackReceiver, keys.mint), ConstraintViolated);
      :- Need(IsTokenAccount(tokens, keys.tokenVault, keys.mint, state.self), ConstraintViolated);
      var distributor := new MerkleDistributor.Load(BLANK_DISTRIBUTOR);
      r := HandleNewDistributor(distributor, args, keys, state.clock);
      if r.Ok? {
        state := state.(distributor := Some(distributor.Data()));
      }
    }

    method SubmitNewClaim(H: Hasher, claimant: Pubkey, to: Pubkey, amountUnlocked: u64, amountLocked: u64,
                          proof: seq<Digest>)
      returns (r: Result<(), Error>)
      modifies this
      ensures Does(old(state), state,
                   ExecNewClaim(H, old(state), to, Entry(claimant, amountUnlocked, amountLocked), proof), r)
    {
      var d :- Distributor(state);
      :- Need(claimant != state.self, Unauthorized);
      :- Need(claimant !in state.statuses, AccountInUse);
      :- Need(IsTokenAccount(state.tokens, d.tokenVault, d.mint, state.self), ConstraintViolated);
      :- Need(IsTokenAccount(state.tokens, to, d.mint, claimant), ConstraintViolated);
      var distributor := new MerkleDistributor.Load(d);
      var claimStatus := new ClaimStatus.Load(BLANK_STATUS);
      var tokenProgram := new TokenProgram(state.tokens);
      r := HandleNewClaim(H, state.self, distributor, claimStatus, tokenProgram, to, claimant, state.clock,
                          amountUnlocked, amountLocked, proof);
      if r.Ok? {
        state := state.(distributor := Some(distributor.Data()),
                        statuses := state.statuses[claimant := claimStatus.Data()],
                        tokens := tokenProgram.accounts);
      }
    }

    method SubmitClaimLocked(claimant: Pubkey, to: Pubkey) returns (r: Result<(), Error>)
      modifies this
      ensures Does(old(state), state, ExecClaimLocked(old(state), claimant, to), r)
    {
      var d :- Distributor(state);
      :- Need(claimant != state.self, Unauthorized);
      :- Need(claimant in state.statuses, AccountNotFound);
      :- Need(IsTokenAccount(state.tokens, d.tokenVault, d.mint, state.self), ConstraintViolated);
      :- Need(to in state.tokens && state.tokens[to].owner == claimant, ConstraintViolated);
      var distributor := new MerkleDistributor.Load(d);
      var claimStatus := new ClaimStatus.Load(state.statuses[claimant]);
      var tokenProgram := new TokenProgram(state.tokens);
      r := HandleClaimLocked(state.self, distributor, claimStatus, tokenProgram, to, state.clock);
      if r.Ok? {
        state := state.(distributor := Some(distributor.Data()),
                        statuses := state.statuses[claimant := claimStatus.Data()],
                        tokens := tokenProgram.accounts);
      }
    }

    method SubmitClawback() returns (r: Result<(), Error>)
      modifies this
      ensures Does(old(state), state, ExecClawback(old(state)), r)
    {
      var d :- Distributor(state);
      :- Need(IsTokenAccount(state.tokens, d.tokenVault, d.mint, state.self), ConstraintViolated);
      var known := d.clawbackReceiver in state.tokens;
      :- Need(known, AccountNotFound);
      var distributor := new MerkleDistributor.Load(d);
      var tokenProgram := new TokenProgram(state.tokens);
      r := HandleClawback(state.self, distributor, tokenProgram, d.clawbackReceiver, state.clock);
      if r.Ok? {
        state := state.(distributor := Some(distributor.Data()), tokens := tokenProgram.accounts);
      }
    }

    method SubmitSetter(ins: Instruction) returns (r: Result<(), Error>)
      requires ins.SetClawbackStartTs? || ins.SetEnableSlot? || ins.SetAdmin? || ins.SetClawbackReceiver?
      modifies this
      ensures Does(old(state), state, ExecSetter(old(state), ins), r)
    {
      var d :- Distributor(state);
      var distributor := new MerkleDistributor.Load(d);
      match ins {
        case SetClawbackStartTs(admin, ts) =>
          :- HasAdmin(d, admin);
          r := HandleSetClawbackStartTs(distributor, ts, state.clock);
        case SetEnableSlot(admin, slot) =>
          :- HasAdmin(d, admin);
          HandleSetEnableSlot(distributor, slot);
          r := Ok(());
        case SetAdmin(admin, newAdmin) =>
          :- Need(d.admin == admin, Unauthorized);
          r := HandleSetAdmin(distributor, admin, newAdmin);
        case SetClawbackReceiver(admin, receiver) =>
          :- Need(HoldsMint(state.tokens, receiver, d.mint), ConstraintViolated);
          :- Need(d.admin == admin, Unauthorized);
          r := HandleSetClawbackReceiver(distributor, receiver);
      }
      if r.Ok? {
        state := state.(distributor := Some(distributor.Data()));
      }
    }

    /** The handler does nothing: the account constraints close the account. */
    method SubmitCloseClaimStatus(admin: Pubkey, claimant: Pubkey) returns (r: Result<(), Error>)
      modifies this
      ensures Does(old(state), state, ExecCloseClaimStatus(old(state), admin, claimant), r)
    {
      var statuses := state.statuses;
      :- Need(claimant in statuses, AccountNotFound);
      var status := statuses[claimant];
      :- Need(status.claimant == claimant && status.admin == admin, ConstraintViolated);
      :- Need(status.closable, CannotCloseClaimStatus);
      state := state.(statuses := statuses - {claimant});
      r := Ok(());
    }

    method SubmitCloseDistributor(admin: Pubkey, destination: Pubkey) returns (r: Result<(), Error>)
      modifies this
      ensures Does(old(state), state, ExecCloseDistributor(old(state), admin, destination), r)
    {
      var d :- Distributor(state);
      :- HasAdmin(d, admin);
      :- Need(d.closable, CannotCloseDistributor);
      var distributor := new MerkleDistributor.Load(d);
      var tokenProgram := new TokenProgram(state.tokens);
      r := HandleCloseDistributor(state.self, distributor, tokenProgram, destination);
      if r.Ok? {
        state := state.(distributor := None, tokens := tokenProgram.accounts);
      }
    }

    /** One submitted instruction is one step of the machine; a failing one leaves the whole state unchanged. */
    method Submit(H: Hasher, ins: Instruction) returns (r: Result<(), Error>)
      modifies this
      ensures Does(old(state), state, Exec(H, old(state), ins), r)
    {
      match ins
      case NewDistributor(args, keys) => r := SubmitNewDistributor(args, keys);
      case NewClaim(claimant, to, u, l, proof) => r := SubmitNewClaim(H, claimant, to, u, l, proof);
      case ClaimLocked(claimant, to) => r := SubmitClaimLocked(claimant, to);
      case Clawback => r := SubmitClawback();
      case CloseClaimStatus(admin, claimant) => r := SubmitCloseClaimStatus(admin, claimant);
      case CloseDistributor(admin, destination) => r := SubmitCloseDistributor(admin, destination);
      case Tick(clock) =>
        :- Need(state.clock.ts <= clock.ts && state.clock.slot <= clock.slot, ClockWentBack);
        state := state.(clock := clock);
        r := Ok(());
      case OpenTokenAccount(key, mint, owner) =>
        :- Need(key !in state.tokens, AccountInUse);
        state := state.(tokens := state.tokens[key := TokenAccount(mint, owner, 0)]);
        r := Ok(());
      case CloseTokenAccount(key, authority) =>
        :- Need(authority != state.self, Unauthorized);
        var tokenProgram := new TokenProgram(state.tokens);
        r := tokenProgram.Close(key, authority);
        if r.Ok? {
          state := state.(tokens := tokenProgram.accounts);
        }
      case SendTokens(from, to, authority, amount) =>
        :- Need(authority != state.self, Unauthorized);
        var tokenProgram := new TokenProgram(state.tokens);
        r := tokenProgram.Transfer(from, to, authority, amount);
        if r.Ok? {
          state := state.(tokens := tokenProgram.accounts);
        }
      case MintTokens(to, amount) =>
        var minted :- ExecMintTokens(state, to, amount);
        state := minted;
        r := Ok(());
      case _ => r := SubmitSetter(ins);
    }

    /** A whole list of submissions is a run of the machine. */
    method SubmitAll(H: Hasher, instructions: seq<Instruction>, ghost tally: Tally)
      modifies this
      ensures state == Run(H, World(old(state), tally), instructions).state
    {
      ghost var start := World(state, tally);
      for k := 0 to |instructions|
        invariant state == Run(H, start, instructions[..k]).state
      {
        assert instructions[..k + 1][..k] == instructions[..k];
        var _ := Submit(H, instructions[k]);
      }
      assert instructions[..|instructions|] == instructions;
    }
  }
}
