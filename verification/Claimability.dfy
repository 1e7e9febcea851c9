/** Every committed claimant can claim: in every reachable state, and all of them in any order. */
module Claimability {
  import opened Primitives
  import opened Accounts
  import opened Handlers
  import opened LeafEncoding
  import opened Machine
  import opened MerkleProofs
  import opened MapSums
  import opened Invariants
  import opened Permissions
  import opened RunTheorems
  import opened Solvency

  // ----- room under the caps -----

  lemma {:induction false} StatusesFitRegister(statuses: map<Pubkey, StatusData>, register: map<Pubkey, Entry>,
                                               c: Pubkey)
    requires Faithful(statuses, register) && c in register && c !in statuses
    ensures |statuses| < |register|
    decreases |statuses|
  {
    if statuses != map[] {
      var k :| k in statuses;
      StatusesFitRegister(statuses - {k}, register - {k}, c);
      assert (statuses - {k}).Keys == statuses.Keys - {k};
      assert (register - {k}).Keys == register.Keys - {k};
      assert |statuses - {k}| == |(statuses - {k}).Keys| && |register - {k}| == |(register - {k}).Keys|;
      assert |statuses| == |statuses.Keys| && |register| == |register.Keys|;
    }
  }

  /** An unclaimed entry still fits under both caps, and the vault can pay it. */
  lemma RoomForEntry(H: Hasher, w: World, entries: seq<Entry>, i: nat)
    requires Valid(w) && Funded(w.state) && Open(w.state) && Commits(H, w.state.distributor.value, entries)
    requires Faithful(w.state.statuses, Register(entries))
    requires i < |entries| && entries[i].claimant !in w.state.statuses
    ensures var d := w.state.distributor.value;
            && d.numNodesClaimed < d.maxNumNodes
            && d.totalAmountClaimed + entries[i].unlocked <= d.maxTotalClaim
            && entries[i].unlocked <= VaultBalance(w.state)
  {
    var statuses, register, c := w.state.statuses, Register(entries), entries[i].claimant;
    RegisterExact(entries);
    RegisterTotals(entries);
    StatusesFitRegister(statuses, register, c);
    FaithfulMeansOwedExactly(H, w, entries);
    SumRemove(register - statuses.Keys, c, Worth);
  }

  /** With its stored proof, a committed claimant who has no status yet claims successfully. */
  lemma UnclaimedEntryCanClaim(H: Hasher, w: World, entries: seq<Entry>, i: nat, to: Pubkey)
    requires Valid(w) && Funded(w.state) && Open(w.state) && Commits(H, w.state.distributor.value, entries)
    requires Faithful(w.state.statuses, Register(entries))
    requires i < |entries| && entries[i].claimant !in w.state.statuses
    requires CanReceive(w.state, entries[i].claimant, to)
    ensures ExecNewClaim(H, w.state, to, entries[i], EntryProof(H, entries, i)).Ok?
  {
    var s, d := w.state, w.state.distributor.value;
    RoomForEntry(H, w, entries, i);
    CommittedEntryAccepted(H, entries, i);
    NewClaimExactly(H, s, to, entries[i], EntryProof(H, entries, i));
  }

  /** A claimant with a status can withdraw exactly when the schedule is ahead of what it withdrew. */
  lemma HolderCanWithdraw(H: Hasher, w: World, entries: seq<Entry>, c: Pubkey, to: Pubkey)
    requires Valid(w) && Funded(w.state) && Open(w.state) && Commits(H, w.state.distributor.value, entries)
    requires Faithful(w.state.statuses, Register(entries))
    requires c in w.state.statuses && CanReceive(w.state, c, to)
    ensures ExecClaimLocked(w.state, c, to).Ok? <==> Due(w.state, c) > 0
  {
    var s := w.state;
    WithdrawableNow(w, c);
    FaithfulMeansOwedExactly(H, w, entries);
    SumRemove(s.statuses, c, Outstanding);
    ClaimLockedExactly(w, c, to);
  }

  /**
   * In every reachable open state of a funded distributor, every committed claimant without a status can
   * claim, and every one with a status can withdraw exactly when something has vested since; or hashed
   * bytes collide.
   */
  lemma ClaimableInEveryRun(H: Hasher, w: World, entries: seq<Entry>, run: seq<Instruction>, i: nat, to: Pubkey)
    requires Born(w) && Commits(H, w.state.distributor.value, entries) && i < |entries|
    requires Open(Run(H, w, run).state) && Funded(Run(H, w, run).state)
    requires CanReceive(Run(H, w, run).state, entries[i].claimant, to)
    ensures var s, c := Run(H, w, run).state, entries[i].claimant;
            || Collides(H, CommitInputs(H, entries) + Run(H, w, run).tally.hashed)
            || (c !in s.statuses && ExecNewClaim(H, s, to, entries[i], EntryProof(H, entries, i)).Ok?)
            || (c in s.statuses && (ExecClaimLocked(s, c, to).Ok? <==> Due(s, c) > 0))
  {
    BornAgreed(H, w, entries);
    EveryRunKeepsAgreed(H, w, run, entries);
    var later := Run(H, w, run);
    if Faithful(later.state.statuses, Register(entries)) {
      if entries[i].claimant in later.state.statuses {
        HolderCanWithdraw(H, later, entries, entries[i].claimant, to);
      } else {
        UnclaimedEntryCanClaim(H, later, entries, i, to);
      }
    }
  }

  // ----- everyone, in any order -----

  /** The claims of the listed entries, in that order, each with its stored proof. */
  function ClaimsOf(H: Hasher, entries: seq<Entry>, order: seq<nat>, wallets: Pubkey -> Pubkey)
    : (claims: seq<Instruction>)
    requires forall k :: 0 <= k < |order| ==> order[k] < |entries|
    ensures |claims| == |order|
    ensures forall k :: 0 <= k < |order| ==> claims[k] == ClaimOf(H, entries, order[k], wallets)
  {
    seq(|order|, k requires 0 <= k < |order| => ClaimOf(H, entries, order[k], wallets))
  }

  function ClaimOf(H: Hasher, entries: seq<Entry>, i: nat, wallets: Pubkey -> Pubkey): Instruction
    requires i < |entries|
  {
    NewClaim(entries[i].claimant, wallets(entries[i].claimant), entries[i].unlocked, entries[i].locked,
             EntryProof(H, entries, i))
  }

  lemma ClaimsOfNext(H: Hasher, entries: seq<Entry>, order: seq<nat>, wallets: Pubkey -> Pubkey)
    requires order != [] && forall k :: 0 <= k < |order| ==> order[k] < |entries|
    ensures ClaimsOf(H, entries, order, wallets)[..|order| - 1] == ClaimsOf(H, entries, order[..|order| - 1], wallets)
  {
  }

  predicate WalletsReady(s: State, entries: seq<Entry>, wallets: Pubkey -> Pubkey)
    requires s.distributor.Some?
  {
    forall i :: 0 <= i < |entries| ==>
      CanReceive(s, entries[i].claimant, wallets(entries[i].claimant))
  }

  /** Everything a next claim needs. */
  ghost predicate Ready(H: Hasher, w: World, entries: seq<Entry>, wallets: Pubkey -> Pubkey) {
    && Valid(w) && Funded(w.state) && Open(w.state) && Commits(H, w.state.distributor.value, entries)
    && Faithful(w.state.statuses, Register(entries)) && WalletsReady(w.state, entries, wallets)
  }

  lemma WalletsStayReady(s: State, s': State, entries: seq<Entry>, wallets: Pubkey -> Pubkey)
    requires s.distributor.Some? && s'.distributor.Some? && s'.self == s.self
    requires s'.distributor.value.mint == s.distributor.value.mint && SameAccounts(s.tokens, s'.tokens)
    requires WalletsReady(s, entries, wallets)
    ensures WalletsReady(s', entries, wallets)
  {
    forall i | 0 <= i < |entries|
      ensures CanReceive(s', entries[i].claimant, wallets(entries[i].claimant))
    {
      assert CanReceive(s, entries[i].claimant, wallets(entries[i].claimant));
    }
  }

  /** s' differs from s at most in the counters, the statuses and the balances. */
  predicate SameTerms(s: State, s': State)
    requires s.distributor.Some?
  {
    var d := s.distributor.value;
    && s'.self == s.self && s'.clock == s.clock && s'.distributor.Some? && SameAccounts(s.tokens, s'.tokens)
    && s'.distributor.value
       == d.(totalAmountClaimed := s'.distributor.value.totalAmountClaimed,
             numNodesClaimed := s'.distributor.value.numNodesClaimed)
  }

  lemma NewClaimTerms(H: Hasher, s: State, to: Pubkey, entry: Entry, proof: seq<Digest>)
    requires s.distributor.Some? && TokensOk(s, s.distributor.value)
    requires ExecNewClaim(H, s, to, entry, proof).Ok?
    ensures var d, after := s.distributor.value, ExecNewClaim(H, s, to, entry, proof).value;
            && SameTerms(s, after) && entry.claimant !in s.statuses
            && after.statuses == s.statuses[entry.claimant :=
                 StatusData(entry.claimant, entry.locked, 0, entry.unlocked, d.closable, d.admin)]
  {
    NewClaimStep(H, s, to, entry, proof);
  }

  lemma ClaimLockedTerms(s: State, c: Pubkey, to: Pubkey)
    requires s.distributor.Some? && TokensOk(s, s.distributor.value) && TimesOk(s.distributor.value)
    requires ExecClaimLocked(s, c, to).Ok?
    ensures c in s.statuses
    ensures var after := ExecClaimLocked(s, c, to).value;
            && SameTerms(s, after) && c in after.statuses
            && after.statuses
               == s.statuses[c := s.statuses[c].(lockedAmountWithdrawn := after.statuses[c].lockedAmountWithdrawn)]
  {
    ClaimLockedStep(s, c, to);
  }

  /** Withdrawing keeps a status with its entry. */
  lemma StillFaithful(statuses: map<Pubkey, StatusData>, register: map<Pubkey, Entry>, c: Pubkey, withdrawn: u64)
    requires Faithful(statuses, register) && c in statuses
    ensures Faithful(statuses[c := statuses[c].(lockedAmountWithdrawn := withdrawn)], register)
  {
  }

  /** A status made for an entry agrees with it. */
  lemma NewStatusFaithful(statuses: map<Pubkey, StatusData>, entries: seq<Entry>, i: nat, status: StatusData)
    requires DistinctClaimants(entries) && i < |entries| && Matches(status, entries[i])
    requires Faithful(statuses, Register(entries))
    ensures Faithful(statuses[entries[i].claimant := status], Register(entries))
  {
    RegisterExact(entries);
  }

  lemma StillReady(H: Hasher, w: World, w': World, entries: seq<Entry>, wallets: Pubkey -> Pubkey)
    requires Ready(H, w, entries, wallets) && SameTerms(w.state, w'.state)
    requires Valid(w') && Funded(w'.state) && Faithful(w'.state.statuses, Register(entries))
    ensures Ready(H, w', entries, wallets)
  {
    WalletsStayReady(w.state, w'.state, entries, wallets);
  }

  /** A claim out of Ready succeeds, records the entry, and leads back to Ready. */
  lemma NextClaim(H: Hasher, w: World, entries: seq<Entry>, i: nat, wallets: Pubkey -> Pubkey)
    requires Ready(H, w, entries, wallets) && i < |entries| && entries[i].claimant !in w.state.statuses
    ensures var ins := ClaimOf(H, entries, i, wallets);
            && Exec(H, w.state, ins).Ok? && Ready(H, Advance(H, w, ins), entries, wallets)
            && var status := StatusData(entries[i].claimant, entries[i].locked, 0, entries[i].unlocked,
                                        w.state.distributor.value.closable, w.state.distributor.value.admin);
               Advance(H, w, ins).state.statuses == w.state.statuses[entries[i].claimant := status]
  {
    var entry, ins := entries[i], ClaimOf(H, entries, i, wallets);
    assert ExecNewClaim(H, w.state, ins.to, entry, ins.proof).Ok? by {
      UnclaimedEntryCanClaim(H, w, entries, i, ins.to);
    }
    var w', s' := Advance(H, w, ins), ExecNewClaim(H, w.state, ins.to, entry, ins.proof).value;
    assert w'.state == s';
    assert Valid(w') by { EveryStepKeepsValid(H, w, ins); }
    assert Funded(s') by { EveryStepKeepsFunded(H, w, ins); }
    NewClaimTerms(H, w.state, ins.to, entry, ins.proof);
    NewStatusFaithful(w.state.statuses, entries, i, s'.statuses[entry.claimant]);
    StillReady(H, w, w', entries, wallets);
  }

  function ClaimantsOf(entries: seq<Entry>, order: seq<nat>): set<Pubkey>
    requires forall k :: 0 <= k < |order| ==> order[k] < |entries|
  {
    if order == [] then {}
    else ClaimantsOf(entries, order[..|order| - 1]) + {entries[order[|order| - 1]].claimant}
  }

  /** No instruction of the list is for an entry that already came. */
  lemma {:induction false} NotYetClaimed(entries: seq<Entry>, order: seq<nat>, i: nat)
    requires DistinctClaimants(entries) && i < |entries| && i !in order
    requires forall k :: 0 <= k < |order| ==> order[k] < |entries|
    ensures entries[i].claimant !in ClaimantsOf(entries, order)
  {
    if order != [] {
      var n := |order| - 1;
      assert order[n] in order;
      assert forall k :: k in order[..n] ==> k in order;
      NotYetClaimed(entries, order[..n], i);
    }
  }

  /** Who has claimed so far: exactly the listed entries, and none has withdrawn locked tokens. */
  ghost predicate CameExactly(s: State, entries: seq<Entry>, order: seq<nat>)
    requires forall k :: 0 <= k < |order| ==> order[k] < |entries|
  {
    && s.statuses.Keys == ClaimantsOf(entries, order) && |s.statuses| == |order|
    && forall c :: c in s.statuses ==> s.statuses[c].lockedAmountWithdrawn == 0
  }

  lemma CameOneMore(s: State, s': State, entries: seq<Entry>, order: seq<nat>, status: StatusData)
    requires order != [] && forall k :: 0 <= k < |order| ==> order[k] < |entries|
    requires CameExactly(s, entries, order[..|order| - 1])
    requires var c := entries[order[|order| - 1]].claimant;
             c !in s.statuses && s'.statuses == s.statuses[c := status]
    requires status.lockedAmountWithdrawn == 0
    ensures CameExactly(s', entries, order)
  {
    assert s'.statuses.Keys == s.statuses.Keys + {entries[order[|order| - 1]].claimant};
    assert |s'.statuses| == |s'.statuses.Keys| && |s.statuses| == |s.statuses.Keys|;
  }

  /** The listed entries have been served, and the rest still can be. */
  ghost predicate Served(H: Hasher, w: World, entries: seq<Entry>, order: seq<nat>, wallets: Pubkey -> Pubkey)
    requires forall k :: 0 <= k < |order| ==> order[k] < |entries|
  {
    Ready(H, w, entries, wallets) && CameExactly(w.state, entries, order)
  }

  lemma LastClaim(H: Hasher, w: World, entries: seq<Entry>, order: seq<nat>, wallets: Pubkey -> Pubkey)
    requires order != [] && Distinct(order) && forall k :: 0 <= k < |order| ==> order[k] < |entries|
    requires Served(H, w, entries, order[..|order| - 1], wallets)
    ensures var ins := ClaimOf(H, entries, order[|order| - 1], wallets);
            Exec(H, w.state, ins).Ok? && Served(H, Advance(H, w, ins), entries, order, wallets)
  {
    var i := order[|order| - 1];
    NotYetClaimed(entries, order[..|order| - 1], i);
    NextClaim(H, w, entries, i, wallets);
    var s' := Advance(H, w, ClaimOf(H, entries, i, wallets)).state;
    CameOneMore(w.state, s', entries, order, s'.statuses[entries[i].claimant]);
  }

  lemma {:induction false} ServedInTurn(H: Hasher, w: World, entries: seq<Entry>, order: seq<nat>,
                                        wallets: Pubkey -> Pubkey)
    requires Served(H, w, entries, [], wallets) && Distinct(order)
    requires forall k :: 0 <= k < |order| ==> order[k] < |entries|
    ensures Served(H, Run(H, w, ClaimsOf(H, entries, order, wallets)), entries, order, wallets)
  {
    if order == [] {
      assert ClaimsOf(H, entries, order, wallets) == [];
    } else {
      var n, claims := |order| - 1, ClaimsOf(H, entries, order, wallets);
      var mid := Run(H, w, claims[..n]);
      assert Served(H, mid, entries, order[..n], wallets) by {
        ServedInTurn(H, w, entries, order[..n], wallets);
        ClaimsOfNext(H, entries, order, wallets);
      }
      LastClaim(H, mid, entries, order, wallets);
      assert Run(H, w, claims) == Advance(H, mid, claims[n]);
    }
  }

  /** Every instruction of the list succeeds where it stands. */
  predicate AllSucceed(H: Hasher, w: World, run: seq<Instruction>) {
    run == [] ||
    (AllSucceed(H, w, run[..|run| - 1]) && Exec(H, Run(H, w, run[..|run| - 1]).state, run[|run| - 1]).Ok?)
  }

  lemma {:induction false} EachSucceeds(H: Hasher, w: World, run: seq<Instruction>)
    requires forall k :: 0 <= k < |run| ==> Exec(H, Run(H, w, run[..k]).state, run[k]).Ok?
    ensures AllSucceed(H, w, run)
  {
    if run != [] {
      var front := run[..|run| - 1];
      assert forall k :: 0 <= k < |front| ==> front[..k] == run[..k];
      EachSucceeds(H, w, front);
    }
  }

  lemma NextSucceeds(H: Hasher, w: World, entries: seq<Entry>, order: seq<nat>, k: nat, wallets: Pubkey -> Pubkey)
    requires Served(H, w, entries, [], wallets) && Distinct(order) && k < |order|
    requires forall j :: 0 <= j < |order| ==> order[j] < |entries|
    ensures var claims := ClaimsOf(H, entries, order, wallets);
            Exec(H, Run(H, w, claims[..k]).state, claims[k]).Ok?
  {
    var claims := ClaimsOf(H, entries, order, wallets);
    var mid := Run(H, w, claims[..k]);
    assert Served(H, mid, entries, order[..k], wallets) by {
      assert claims[..k] == ClaimsOf(H, entries, order[..k], wallets);
      ServedInTurn(H, w, entries, order[..k], wallets);
    }
    NotYetClaimed(entries, order[..k], order[k]);
    NextClaim(H, mid, entries, order[k], wallets);
  }

  /** All the listed claims succeed one after the other. */
  lemma ClaimsSucceedInTurn(H: Hasher, w: World, entries: seq<Entry>, order: seq<nat>, wallets: Pubkey -> Pubkey)
    requires Served(H, w, entries, [], wallets) && Distinct(order)
    requires forall k :: 0 <= k < |order| ==> order[k] < |entries|
    ensures AllSucceed(H, w, ClaimsOf(H, entries, order, wallets))
  {
    var claims := ClaimsOf(H, entries, order, wallets);
    forall k | 0 <= k < |claims|
      ensures Exec(H, Run(H, w, claims[..k]).state, claims[k]).Ok?
    {
      NextSucceeds(H, w, entries, order, k, wallets);
    }
    EachSucceeds(H, w, claims);
  }

  // ----- and then nothing is left but what is locked -----

  function LockedPart(e: Entry): nat {
    e.locked
  }

  lemma {:induction false} OutstandingIsLocked(statuses: map<Pubkey, StatusData>, register: map<Pubkey, Entry>)
    requires Faithful(statuses, register) && statuses.Keys == register.Keys
    requires forall c :: c in statuses ==> statuses[c].lockedAmountWithdrawn == 0
    ensures Sum(statuses, Outstanding) == Sum(register, LockedPart)
    decreases |statuses|
  {
    if statuses != map[] {
      var c :| c in statuses;
      OutstandingIsLocked(statuses - {c}, register - {c});
      SumRemove(statuses, c, Outstanding);
      SumRemove(register, c, LockedPart);
    } else {
      assert register == map[];
    }
  }

  lemma {:induction false} SubsetOfSameSize<T>(a: set<T>, b: set<T>)
    requires a <= b && |a| == |b|
    ensures a == b
  {
    if x :| x in a {
      SubsetOfSameSize(a - {x}, b - {x});
    }
  }

  function UnlockedPart(e: Entry): nat {
    e.unlocked
  }

  /** Each claimant received this part of its entry into its own token accounts, and nobody else anything. */
  predicate Received(received: map<Pubkey, nat>, entries: seq<Entry>, part: Entry -> nat) {
    received.Keys == Register(entries).Keys && forall c :: c in received ==> received[c] == part(Register(entries)[c])
  }

  lemma UnlockedReceived(w: World, entries: seq<Entry>)
    requires Valid(w) && w.state.distributor.Some? && !w.state.distributor.value.closable
    requires Faithful(w.state.statuses, Register(entries)) && w.state.statuses.Keys == Register(entries).Keys
    requires forall c :: c in w.state.statuses ==> w.state.statuses[c].lockedAmountWithdrawn == 0
    ensures Received(w.tally.received, entries, UnlockedPart)
  {
  }

  lemma AllServed(H: Hasher, w: World, entries: seq<Entry>, order: seq<nat>, wallets: Pubkey -> Pubkey)
    requires forall k :: 0 <= k < |order| ==> order[k] < |entries|
    requires Served(H, w, entries, order, wallets) && |order| == |entries|
    ensures var d := w.state.distributor.value;
            && d.numNodesClaimed == d.maxNumNodes
            && d.maxTotalClaim - d.totalAmountClaimed == Sum(Register(entries), LockedPart)
    ensures Received(w.tally.received, entries, UnlockedPart)
  {
    var statuses, register := w.state.statuses, Register(entries);
    RegisterTotals(entries);
    assert |statuses| == |statuses.Keys| && |register| == |register.Keys|;
    SubsetOfSameSize(statuses.Keys, register.Keys);
    FaithfulMeansOwedExactly(H, w, entries);
    assert register - statuses.Keys == map[];
    OutstandingIsLocked(statuses, register);
    UnlockedReceived(w, entries);
  }

  lemma NobodyServedYet(H: Hasher, w: World, entries: seq<Entry>, wallets: Pubkey -> Pubkey)
    requires Valid(w) && Agreed(H, w, entries) && Open(w.state) && Funded(w.state)
    requires w.state.statuses == map[] && WalletsReady(w.state, entries, wallets)
    ensures Served(H, w, entries, [], wallets)
  {
  }

  /** The claims all succeed; then every node is claimed, and each claimant was paid its unlocked part. */
  ghost predicate AllClaimedAfter(H: Hasher, start: World, claims: seq<Instruction>, entries: seq<Entry>) {
    var end := Run(H, start, claims);
    && AllSucceed(H, start, claims) && Received(end.tally.received, entries, UnlockedPart)
    && end.state.distributor.Some?
    && var d := end.state.distributor.value;
       && d.numNodesClaimed == d.maxNumNodes
       && d.maxTotalClaim - d.totalAmountClaimed == Sum(Register(entries), LockedPart)
  }

  /**
   * Order-independent claimability: from any open, funded state of a distributor in which nobody has
   * claimed, all committed claims succeed in every order, and the run ends with every node claimed, the
   * whole cap paid but for the locked parts, and each claimant's own token accounts having received its
   * unlocked part. No assumption on the hash.
   */
  lemma EveryoneClaimsInAnyOrder(H: Hasher, w: World, before: seq<Instruction>, entries: seq<Entry>, order: seq<nat>,
                                 wallets: Pubkey -> Pubkey)
    requires Born(w) && Commits(H, w.state.distributor.value, entries)
    requires var s := Run(H, w, before).state;
             Open(s) && Funded(s) && s.statuses == map[] && WalletsReady(s, entries, wallets)
    requires Distinct(order) && |order| == |entries| && forall k :: 0 <= k < |order| ==> order[k] < |entries|
    ensures AllClaimedAfter(H, Run(H, w, before), ClaimsOf(H, entries, order, wallets), entries)
  {
    var start := Run(H, w, before);
    BornAgreed(H, w, entries);
    EveryRunKeepsAgreed(H, w, before, entries);
    NobodyServedYet(H, start, entries, wallets);
    ClaimsSucceedInTurn(H, start, entries, order, wallets);
    ServedInTurn(H, start, entries, order, wallets);
    AllServed(H, Run(H, start, ClaimsOf(H, entries, order, wallets)), entries, order, wallets);
  }

  // ----- the hypotheses can be met -----

  function SameWallet(wallet: Pubkey): Pubkey -> Pubkey {
    (claimant: Pubkey) => wallet
  }

  function SampleTokens(self: Pubkey, mint: Pubkey, vault: Pubkey, wallet: Pubkey, e: Entry): TokenAccounts
    requires Worth(e) <= U64_MAX
  {
    map[vault := TokenAccount(mint, self, Worth(e))][wallet := TokenAccount(mint, e.claimant, 0)]
  }

  lemma SampleSupply(self: Pubkey, mint: Pubkey, vault: Pubkey, wallet: Pubkey, e: Entry)
    requires Worth(e) <= U64_MAX && vault != wallet
    ensures Supply(SampleTokens(self, mint, vault, wallet, e), mint) == Worth(e)
  {
    var vaultOnly: TokenAccounts := map[vault := TokenAccount(mint, self, Worth(e))];
    SumRemove(vaultOnly, vault, OfMint(mint));
    assert vaultOnly - {vault} == map[];
    SumUpdate(vaultOnly, wallet, TokenAccount(mint, e.claimant, 0), OfMint(mint));
  }

  /** For every entry of a total within u64 there is a distributor meeting all the hypotheses of the run theorems. */
  lemma FundedDistributorExists(H: Hasher, e: Entry, self: Pubkey, mint: Pubkey, vault: Pubkey, wallet: Pubkey)
    returns (w: World)
    requires Worth(e) <= U64_MAX && vault != wallet && e.claimant != self
    ensures Born(w) && Commits(H, w.state.distributor.value, [e])
    ensures Open(w.state) && Funded(w.state) && w.state.statuses == map[]
    ensures WalletsReady(w.state, [e], SameWallet(wallet))
  {
    var tokens := SampleTokens(self, mint, vault, wallet, e);
    var s := State(self, None, map[], tokens, map[mint := U64_MAX], Clock(0, 0));
    var args := DistributorArgs(0, CommitRoot(H, [e]), Worth(e), 1, 1, 2, 2 + SECONDS_PER_DAY, 0, false);
    var keys := DistributorKeys(self, mint, vault, wallet, self);
    SampleSupply(self, mint, vault, wallet, e);
    w := World(ExecNewDistributor(s, args, keys).value, BLANK);
    assert [e][..0] == [];
  }
}
