/** The records the program stores on chain, their error codes, and the token program it calls. */
module Accounts {
  import opened Primitives

  datatype Error =
    | InsufficientUnlockedTokens
    | InvalidProof
    | ExceededMaxClaim
    | MaxNodesExceeded
    | Unauthorized
    | OwnerMismatch
    | ClawbackDuringVesting
    | ClawbackBeforeStart
    | ClawbackAlreadyClaimed
    | InsufficientClawbackDelay
    | SameClawbackReceiver
    | SameAdmin
    | ClaimExpired
    | ArithmeticError
    | StartTimestampAfterEnd
    | TimestampsNotInFuture
    | ClaimingIsNotStarted
    | CannotCloseDistributor
    | CannotCloseClaimStatus
    // raised by the framework and the runtime
    | AccountInUse
    | AccountNotFound
    | ConstraintViolated
    | ClockWentBack
    // raised by the token program
    | InsufficientFunds
    | MintMismatch
    | TokenOwnerMismatch
    | TokenOverflow
    | NonEmptyAccount

  datatype Clock = Clock(ts: i64, slot: u64)

  datatype DistributorData = DistributorData(
    version: u64, root: Digest, mint: Pubkey, base: Pubkey, tokenVault: Pubkey,
    maxTotalClaim: u64, maxNumNodes: u64, totalAmountClaimed: u64, numNodesClaimed: u64,
    startTs: i64, endTs: i64, clawbackStartTs: i64, clawbackReceiver: Pubkey, admin: Pubkey,
    clawedBack: bool, enableSlot: u64, closable: bool)

  datatype StatusData = StatusData(
    claimant: Pubkey, lockedAmount: u64, lockedAmountWithdrawn: u64, unlockedAmount: u64,
    closable: bool, admin: Pubkey)

  const ZERO_KEY: Pubkey := seq(32, _ => 0)

  /** A freshly allocated account is all zeroes. */
  const BLANK_DISTRIBUTOR := DistributorData(
    0, ZERO_KEY, ZERO_KEY, ZERO_KEY, ZERO_KEY, 0, 0, 0, 0, 0, 0, 0, ZERO_KEY, ZERO_KEY, false, 0, false)
  const BLANK_STATUS := StatusData(ZERO_KEY, 0, 0, 0, false, ZERO_KEY)

  // ----- tokens -----

  datatype TokenAccount = TokenAccount(mint: Pubkey, owner: Pubkey, amount: u64)

  type TokenAccounts = map<Pubkey, TokenAccount>

  /** The token program's transfer: both accounts of one mint, signed by the owner; a self-transfer moves nothing. */
  function TransferTokens(accounts: TokenAccounts, from: Pubkey, to: Pubkey, authority: Pubkey, amount: u64)
    : Result<TokenAccounts, Error>
  {
    var known := from in accounts && to in accounts;
    :- Need(known, AccountNotFound);
    :- Need(amount <= accounts[from].amount, InsufficientFunds);
    :- Need(accounts[from].mint == accounts[to].mint, MintMismatch);
    :- Need(accounts[from].owner == authority, TokenOwnerMismatch);
    if from == to then Ok(accounts)
    else
      var received := accounts[to].amount + amount;
      :- Need(received <= U64_MAX, TokenOverflow);
      Ok(accounts[from := accounts[from].(amount := accounts[from].amount - amount)]
                 [to := accounts[to].(amount := received)])
  }

  /** Closing a token account: empty, and signed by its owner. */
  function CloseToken(accounts: TokenAccounts, key: Pubkey, authority: Pubkey): Result<TokenAccounts, Error> {
    var known := key in accounts;
    :- Need(known, AccountNotFound);
    :- Need(accounts[key].amount == 0, NonEmptyAccount);
    :- Need(accounts[key].owner == authority, TokenOwnerMismatch);
    Ok(accounts - {key})
  }

  /** The token program, whose accounts a handler changes by calling it. */
  class TokenProgram {
    var accounts: TokenAccounts

    constructor (accounts: TokenAccounts)
      ensures this.accounts == accounts
    {
      this.accounts := accounts;
    }

    method Transfer(from: Pubkey, to: Pubkey, authority: Pubkey, amount: u64) returns (r: Result<(), Error>)
      modifies this
      ensures match TransferTokens(old(accounts), from, to, authority, amount)
              case Ok(after) => r == Ok(()) && accounts == after
              case Err(error) => r == Err(error) && accounts == old(accounts)
    {
      var known := from in accounts && to in accounts;
      :- Need(known, AccountNotFound);
      :- Need(amount <= accounts[from].amount, InsufficientFunds);
      :- Need(accounts[from].mint == accounts[to].mint, MintMismatch);
      :- Need(accounts[from].owner == authority, TokenOwnerMismatch);
      if from != to {
        var received := accounts[to].amount + amount;
        :- Need(received <= U64_MAX, TokenOverflow);
        accounts := accounts[from := accounts[from].(amount := accounts[from].amount - amount)];
        accounts := accounts[to := accounts[to].(amount := received)];
      }
      r := Ok(());
    }

    method Close(key: Pubkey, authority: Pubkey) returns (r: Result<(), Error>)
      modifies this
      ensures match CloseToken(old(accounts), key, authority)
              case Ok(after) => r == Ok(()) && accounts == after
              case Err(error) => r == Err(error) && accounts == old(accounts)
    {
      var known := key in accounts;
      :- Need(known, AccountNotFound);
      :- Need(accounts[key].amount == 0, NonEmptyAccount);
      :- Need(accounts[key].owner == authority, TokenOwnerMismatch);
      accounts := accounts - {key};
      r := Ok(());
    }
  }

  // ----- the program's own accounts, updated in place -----

  class MerkleDistributor {
    var version: u64
    var root: Digest
    var mint: Pubkey
    var base: Pubkey
    var tokenVault: Pubkey
    var maxTotalClaim: u64
    var maxNumNodes: u64
    var totalAmountClaimed: u64
    var numNodesClaimed: u64
    var startTs: i64
    var endTs: i64
    var clawbackStartTs: i64
    var clawbackReceiver: Pubkey
    var admin: Pubkey
    var clawedBack: bool
    var enableSlot: u64
    var closable: bool

    constructor Load(d: DistributorData)
      ensures Data() == d
    {
      version := d.version;
      root := d.root;
      mint := d.mint;
      base := d.base;
      tokenVault := d.tokenVault;
      maxTotalClaim := d.maxTotalClaim;
      maxNumNodes := d.maxNumNodes;
      totalAmountClaimed := d.totalAmountClaimed;
      numNodesClaimed := d.numNodesClaimed;
      startTs := d.startTs;
      endTs := d.endTs;
      clawbackStartTs := d.clawbackStartTs;
      clawbackReceiver := d.clawbackReceiver;
      admin := d.admin;
      clawedBack := d.clawedBack;
      enableSlot := d.enableSlot;
      closable := d.closable;
    }

    function Data(): DistributorData
      reads this
    {
      DistributorData(version, root, mint, base, tokenVault, maxTotalClaim, maxNumNodes, totalAmountClaimed,
                      numNodesClaimed, startTs, endTs, clawbackStartTs, clawbackReceiver, admin, clawedBack,
                      enableSlot, closable)
    }
  }

  class ClaimStatus {
    var claimant: Pubkey
    var lockedAmount: u64
    var lockedAmountWithdrawn: u64
    var unlockedAmount: u64
    var closable: bool
    var admin: Pubkey

    constructor Load(status: StatusData)
      ensures Data() == status
    {
      claimant := status.claimant;
      lockedAmount := status.lockedAmount;
      lockedAmountWithdrawn := status.lockedAmountWithdrawn;
      unlockedAmount := status.unlockedAmount;
      closable := status.closable;
      admin := status.admin;
    }

    function Data(): StatusData
      reads this
    {
      StatusData(claimant, lockedAmount, lockedAmountWithdrawn, unlockedAmount, closable, admin)
    }
  }
}
