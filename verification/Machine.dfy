/**
 * The distributor as a state machine: one distributor address, its claim statuses keyed by claimant,
 * the token accounts and mints, and the clock. An instruction is account checks plus a handler; when either
 * fails the runtime keeps the state of before.
 */
module Machine {
  import opened Primitives
  import opened Accounts
  import opened LeafEncoding
  import opened Handlers
  import opened MapSums

  datatype State = State(
    self: Pubkey,  // the distributor's program-derived address
    distributor: Option<DistributorData>,
    statuses: map<Pubkey, StatusData>,
    tokens: TokenAccounts,
    mints: map<Pubkey, u64>,  // each mint's supply on record
    clock: Clock)

  datatype Instruction =
    | NewDistributor(args: DistributorArgs, keys: DistributorKeys)
    | NewClaim(claimant: Pubkey, to: Pubkey, amountUnlocked: u64, amountLocked: u64, proof: seq<Digest>)
    | ClaimLocked(claimant: Pubkey, to: Pubkey)
    | Clawback
    | SetClawbackStartTs(admin: Pubkey, clawbackStartTs: i64)
    | SetEnableSlot(admin: Pubkey, enableSlot: u64)
    | SetAdmin(admin: Pubkey, newAdmin: Pubkey)
    | SetClawbackReceiver(admin: Pubkey, receiver: Pubkey)
    | CloseClaimStatus(admin: Pubkey, claimant: Pubkey)
    | CloseDistributor(admin: Pubkey, destination: Pubkey)
    // what others do
    | Tick(clock: Clock)
    | OpenTokenAccount(key: Pubkey, mint: Pubkey, owner: Pubkey)
    | CloseTokenAccount(key: Pubkey, authority: Pubkey)
    | SendTokens(from: Pubkey, to: Pubkey, authority: Pubkey, amount: u64)
    | MintTokens(to: Pubkey, amount: u64)

  predicate IsTokenAccount(tokens: TokenAccounts, key: Pubkey, mint: Pubkey, owner: Pubkey) {
    key in tokens && tokens[key].mint == mint && tokens[key].owner == owner
  }

  predicate HoldsMint(tokens: TokenAccounts, key: Pubkey, mint: Pubkey) {
    key in tokens && tokens[key].mint == mint
  }

  function Distributor(s: State): Result<DistributorData, Error> {
    if s.distributor.None? then Err(AccountNotFound) else Ok(s.distributor.value)
  }

  /** `has_one = admin` with the framework's own error. */
  function HasAdmin(d: DistributorData, admin: Pubkey): Check<Error> {
    Need(d.admin == admin, ConstraintViolated)
  }

  function ExecNewDistributor(s: State, args: DistributorArgs, keys: DistributorKeys): Result<State, Error> {
    var tokens := s.tokens;
    :- Need(s.distributor.None?, AccountInUse);
    :- Need(keys.mint in s.mints, AccountNotFound);
    :- Need(HoldsMint(tokens, keys.clawbackReceiver, keys.mint), ConstraintViolated);
    :- Need(IsTokenAccount(tokens, keys.tokenVault, keys.mint, s.self), ConstraintViolated);
    var d :- NewDistributorEffect(args, keys, s.clock);
    Ok(s.(distributor := Some(d)))
  }

  /** The claimant signs, which a program-derived address cannot do. */
  function ExecNewClaim(H: Hasher, s: State, to: Pubkey, entry: Entry, proof: seq<Digest>): Result<State, Error> {
    var d :- Distributor(s);
    :- Need(entry.claimant != s.self, Unauthorized);
    :- Need(entry.claimant !in s.statuses, AccountInUse);
    :- Need(IsTokenAccount(s.tokens, d.tokenVault, d.mint, s.self), ConstraintViolated);
    :- Need(IsTokenAccount(s.tokens, to, d.mint, entry.claimant), ConstraintViolated);
    var e :- NewClaimEffect(H, s.self, d, s.tokens, to, entry, proof, s.clock);
    Ok(s.(distributor := Some(e.distributor), statuses := s.statuses[entry.claimant := e.status],
          tokens := e.tokens))
  }

  function ExecClaimLocked(s: State, claimant: Pubkey, to: Pubkey): Result<State, Error> {
    var d :- Distributor(s);
    :- Need(claimant != s.self, Unauthorized);
    :- Need(claimant in s.statuses, AccountNotFound);
    :- Need(IsTokenAccount(s.tokens, d.tokenVault, d.mint, s.self), ConstraintViolated);
    :- Need(to in s.tokens && s.tokens[to].owner == claimant, ConstraintViolated);
    var e :- ClaimLockedEffect(s.self, d, s.statuses[claimant], s.tokens, to, s.clock);
    Ok(s.(distributor := Some(e.distributor), statuses := s.statuses[claimant := e.status], tokens := e.tokens))
  }

  /** Anyone may call; the tokens go to the receiver on record. */
  function ExecClawback(s: State): Result<State, Error> {
    var d :- Distributor(s);
    :- Need(IsTokenAccount(s.tokens, d.tokenVault, d.mint, s.self), ConstraintViolated);
    var known := d.clawbackReceiver in s.tokens;
    :- Need(known, AccountNotFound);
    var (d', tokens) :- ClawbackEffect(s.self, d, s.tokens, d.clawbackReceiver, s.clock);
    Ok(s.(distributor := Some(d'), tokens := tokens))
  }

  function ExecSetter(s: State, ins: Instruction): Result<State, Error>
    requires ins.SetClawbackStartTs? || ins.SetEnableSlot? || ins.SetAdmin? || ins.SetClawbackReceiver?
  {
    var d :- Distributor(s);
    match ins
    case SetClawbackStartTs(admin, ts) =>
      :- HasAdmin(d, admin);
      var d' :- SetClawbackStartTsEffect(d, ts, s.clock);
      Ok(s.(distributor := Some(d')))
    case SetEnableSlot(admin, slot) =>
      :- HasAdmin(d, admin);
      Ok(s.(distributor := Some(d.(enableSlot := slot))))
    case SetAdmin(admin, newAdmin) =>
      :- Need(d.admin == admin, Unauthorized);
      var d' :- SetAdminEffect(d, admin, newAdmin);
      Ok(s.(distributor := Some(d')))
    case SetClawbackReceiver(admin, receiver) =>
      :- Need(HoldsMint(s.tokens, receiver, d.mint), ConstraintViolated);
      :- Need(d.admin == admin, Unauthorized);
      var d' :- SetClawbackReceiverEffect(d, receiver);
      Ok(s.(distributor := Some(d')))
  }

  function ExecCloseClaimStatus(s: State, admin: Pubkey, claimant: Pubkey): Result<State, Error> {
    var statuses := s.statuses;
    :- Need(claimant in statuses, AccountNotFound);
    var status := statuses[claimant];
    :- Need(status.claimant == claimant && status.admin == admin, ConstraintViolated);
    :- Need(status.closable, CannotCloseClaimStatus);
    Ok(s.(statuses := statuses - {claimant}))
  }

  function ExecCloseDistributor(s: State, admin: Pubkey, destination: Pubkey): Result<State, Error> {
    var d :- Distributor(s);
    :- HasAdmin(d, admin);
    :- Need(d.closable, CannotCloseDistributor);
    var tokens :- CloseDistributorEffect(s.self, d, s.tokens, destination);
    Ok(s.(distributor := None, tokens := tokens))
  }

  /** Whoever may mint: the supply on record and the balance must both stay within a u64. */
  function ExecMintTokens(s: State, to: Pubkey, amount: u64): Result<State, Error> {
    if to !in s.tokens || s.tokens[to].mint !in s.mints then Err(AccountNotFound)
    else
      var account := s.tokens[to];
      var supply := s.mints[account.mint] + amount;
      :- Need(supply <= U64_MAX && account.amount + amount <= U64_MAX, TokenOverflow);
      Ok(s.(tokens := s.tokens[to := account.(amount := account.amount + amount)],
            mints := s.mints[account.mint := supply]))
  }

  function Exec(H: Hasher, s: State, ins: Instruction): Result<State, Error> {
    match ins
    case NewDistributor(args, keys) => ExecNewDistributor(s, args, keys)
    case NewClaim(claimant, to, u, l, proof) => ExecNewClaim(H, s, to, Entry(claimant, u, l), proof)
    case ClaimLocked(claimant, to) => ExecClaimLocked(s, claimant, to)
    case Clawback => ExecClawback(s)
    case CloseClaimStatus(admin, claimant) => ExecCloseClaimStatus(s, admin, claimant)
    case CloseDistributor(admin, destination) => ExecCloseDistributor(s, admin, destination)
    case Tick(clock) =>
      :- Need(s.clock.ts <= clock.ts && s.clock.slot <= clock.slot, ClockWentBack);
      Ok(s.(clock := clock))
    case OpenTokenAccount(key, mint, owner) =>
      :- Need(key !in s.tokens, AccountInUse);
      Ok(s.(tokens := s.tokens[key := TokenAccount(mint, owner, 0)]))
    case CloseTokenAccount(key, authority) =>
      :- Need(authority != s.self, Unauthorized);
      var tokens :- CloseToken(s.tokens, key, authority);
      Ok(s.(tokens := tokens))
    case SendTokens(from, to, authority, amount) =>
      :- Need(authority != s.self, Unauthorized);
      var tokens :- TransferTokens(s.tokens, from, to, authority, amount);
      Ok(s.(tokens := tokens))
    case MintTokens(to, amount) => ExecMintTokens(s, to, amount)
    case _ => ExecSetter(s, ins)
  }

  // ----- runs, watched from outside -----

  /** What claim_locked has paid a claimant, and when it last did. */
  datatype VestLog = VestLog(lastTs: i64, paid: int)

  /**
   * What an observer notes who sees only which instructions succeed and how token balances move, but not the
   * distributor's own counters.
   */
  datatype Tally = Tally(
    paidOut: int,                    // tokens that claims moved out of the vault
    claims: nat,                     // successful new_claim instructions
    closedCount: nat,                // statuses closed
    closedPaid: nat,                 // what they had been paid when they closed
    vest: map<Pubkey, VestLog>,      // per live claimant
    received: map<Pubkey, nat>,      // per owner, what claims paid into its token accounts
    hashed: set<Bytes>)              // bytes hashed by successful claims

  datatype World = World(state: State, tally: Tally)

  const BLANK := Tally(0, 0, 0, 0, map[], map[], {})

  function VaultBalance(s: State): nat {
    if s.distributor.Some? && s.distributor.value.tokenVault in s.tokens
    then s.tokens[s.distributor.value.tokenVault].amount else 0
  }

  function Paid(status: StatusData): nat {
    status.unlockedAmount + status.lockedAmountWithdrawn
  }

  function ReceivedBy(received: map<Pubkey, nat>, owner: Pubkey): nat {
    if owner in received then received[owner] else 0
  }

  function LoggedPaid(vest: map<Pubkey, VestLog>, c: Pubkey): int {
    if c in vest then vest[c].paid else 0
  }

  /** The rise of one account's balance, credited to its owner. */
  function Credit(received: map<Pubkey, nat>, before: TokenAccounts, after: TokenAccounts, to: Pubkey)
    : map<Pubkey, nat>
  {
    if to in before && to in after && before[to].amount <= after[to].amount then
      var owner := after[to].owner;
      received[owner := ReceivedBy(received, owner) + after[to].amount - before[to].amount]
    else received
  }

  function Observe(H: Hasher, w: World, ins: Instruction, after: State): Tally {
    var t := w.tally;
    var out := VaultBalance(w.state) - VaultBalance(after);
    match ins
    case NewClaim(c, to, u, l, proof) =>
      t.(paidOut := t.paidOut + out, claims := t.claims + 1, vest := t.vest - {c},
         received := Credit(t.received, w.state.tokens, after.tokens, to),
         hashed := t.hashed + ClaimInputs(H, Entry(c, u, l), proof))
    case ClaimLocked(c, to) =>
      t.(paidOut := t.paidOut + out,
         vest := t.vest[c := VestLog(w.state.clock.ts, LoggedPaid(t.vest, c) + out)],
         received := Credit(t.received, w.state.tokens, after.tokens, to))
    case CloseClaimStatus(_, c) =>
      t.(closedCount := t.closedCount + 1,
         closedPaid := t.closedPaid + (if c in w.state.statuses then Paid(w.state.statuses[c]) else 0),
         vest := t.vest - {c})
    case _ => t
  }

  /** One instruction: a failing one changes nothing. */
  function Advance(H: Hasher, w: World, ins: Instruction): World {
    match Exec(H, w.state, ins)
    case Ok(after) => World(after, Observe(H, w, ins, after))
    case Err(_) => w
  }

  function Run(H: Hasher, w: World, instructions: seq<Instruction>): World {
    if instructions == [] then w
    else
      var n := |instructions| - 1;
      Advance(H, Run(H, w, instructions[..n]), instructions[n])
  }

  /**
   * The run stays within one life of the distributor: attempts to initialise the address again may occur
   * anywhere, but none succeeds. While the account is alive none can.
   */
  predicate OneLife(H: Hasher, w: World, instructions: seq<Instruction>) {
    instructions == [] ||
    var n := |instructions| - 1;
    && OneLife(H, w, instructions[..n])
    && (instructions[n].NewDistributor? ==> Exec(H, Run(H, w, instructions[..n]).state, instructions[n]).Err?)
  }

  /** A distributor just created at an address that has no claim statuses yet. */
  ghost predicate Born(w: World) {
    exists s: State, args: DistributorArgs, keys: DistributorKeys ::
      && s.statuses == map[] && s.clock.ts >= 0
      && SupplyOnRecord(s, keys.mint)
      && ExecNewDistributor(s, args, keys) == Ok(w.state) && w.tally == BLANK
  }

  function OfMint(mint: Pubkey): TokenAccount -> nat {
    (a: TokenAccount) => if a.mint == mint then a.amount else 0
  }

  /** All tokens of a mint. */
  ghost function Supply(tokens: TokenAccounts, mint: Pubkey): nat {
    Sum(tokens, OfMint(mint))
  }

  /** The accounts of a mint hold no more than the mint has on record. */
  ghost predicate SupplyOnRecord(s: State, mint: Pubkey) {
    mint in s.mints && Supply(s.tokens, mint) <= s.mints[mint]
  }
}
