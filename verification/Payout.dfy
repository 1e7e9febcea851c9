/**
 * Claims and withdrawals interleaved with anything else: other claims, refused or early ones, deposits,
 * ticks, setters. Whoever submits while claims are open is served, and in the end everyone is paid in full.
 */
module Payout {
  import opened Primitives
  import opened Accounts
  import opened Vesting
  import opened LeafEncoding
  import opened MerkleProofs
  import opened Machine
  import opened MapSums
  import opened Invariants
  import opened RunTheorems
  import opened Permissions
  import opened Solvency
  import opened Claimability

  // ----- what time does not undo -----

  predicate StatusesGrow(before: map<Pubkey, StatusData>, after: map<Pubkey, StatusData>) {
    forall c :: c in before ==>
      && c in after && after[c].lockedAmount == before[c].lockedAmount
      && before[c].lockedAmountWithdrawn <= after[c].lockedAmountWithdrawn
  }

  predicate SameSchedule(s: State, s': State) {
    && s.distributor.Some? && s'.distributor.Some? && s'.self == s.self
    && s'.distributor.value.mint == s.distributor.value.mint
    && s'.distributor.value.startTs == s.distributor.value.startTs
    && s'.distributor.value.endTs == s.distributor.value.endTs
  }

  /** s' may follow s: statuses stay and only withdraw more. */
  predicate Later(s: State, s': State) {
    SameSchedule(s, s') && StatusesGrow(s.statuses, s'.statuses)
  }

  lemma ClaimLockedIsLater(s: State, c: Pubkey, to: Pubkey)
    requires s.distributor.Some? && TokensOk(s, s.distributor.value) && TimesOk(s.distributor.value)
    requires ExecClaimLocked(s, c, to).Ok?
    ensures Later(s, ExecClaimLocked(s, c, to).value)
  {
    ClaimLockedStep(s, c, to);
  }

  lemma ClaimIsLater(H: Hasher, w: World, ins: Instruction)
    requires Valid(w) && w.state.distributor.Some? && (ins.NewClaim? || ins.ClaimLocked?)
    ensures Later(w.state, Advance(H, w, ins).state)
  {
    if Exec(H, w.state, ins).Ok? {
      var s' := Exec(H, w.state, ins).value;
      assert Advance(H, w, ins).state == s';
      if ins.NewClaim? {
        NewClaimTerms(H, w.state, ins.to, Entry(ins.claimant, ins.amountUnlocked, ins.amountLocked), ins.proof);
      } else {
        ClaimLockedIsLater(w.state, ins.claimant, ins.to);
      }
    }
  }

  lemma OtherIsLater(H: Hasher, s: State, ins: Instruction)
    requires s.distributor.Some? && !s.distributor.value.closable && Exec(H, s, ins).Ok?
    requires !ins.NewClaim? && !ins.ClaimLocked? && !ins.CloseClaimStatus?
    ensures Later(s, Exec(H, s, ins).value)
  {
  }

  lemma StepIsLater(H: Hasher, w: World, ins: Instruction)
    requires Valid(w) && w.state.distributor.Some? && !w.state.distributor.value.closable
    ensures Later(w.state, Advance(H, w, ins).state)
  {
    if ins.NewClaim? || ins.ClaimLocked? {
      ClaimIsLater(H, w, ins);
    } else if ins.CloseClaimStatus? {
      if ins.claimant in w.state.statuses {
        assert StatusOk(w, w.state.distributor.value, ins.claimant);
      }
    } else if Exec(H, w.state, ins).Ok? {
      OtherIsLater(H, w.state, ins);
    }
  }

  lemma {:induction false} RunIsLater(H: Hasher, w: World, run: seq<Instruction>)
    requires Valid(w) && w.state.distributor.Some? && !w.state.distributor.value.closable
    ensures Later(w.state, Run(H, w, run).state)
  {
    if run != [] {
      var n := |run| - 1;
      RunIsLater(H, w, run[..n]);
      NotClosableMeansOneLife(H, w, run[..n]);
      EveryRunIsValid(H, w, run[..n]);
      StepIsLater(H, Run(H, w, run[..n]), run[n]);
    }
  }

  lemma {:induction false} HashedGrows(H: Hasher, w: World, run: seq<Instruction>)
    ensures w.tally.hashed <= Run(H, w, run).tally.hashed
  {
    if run != [] {
      HashedGrows(H, w, run[..|run| - 1]);
    }
  }

  lemma {:induction false} RunSplits(H: Hasher, w: World, run: seq<Instruction>, k: nat)
    requires k <= |run|
    ensures Run(H, w, run) == Run(H, Run(H, w, run[..k]), run[k..])
  {
    if k == |run| {
      assert run[..k] == run;
    } else {
      var n, rest := |run| - 1, run[k..];
      assert run[..n][..k] == run[..k];
      assert run[..n][k..] == rest[..n - k] && rest[n - k] == run[n];
      assert Run(H, w, run[..n]) == Run(H, Run(H, w, run[..k]), rest[..n - k]) by {
        RunSplits(H, w, run[..n], k);
      }
      assert Run(H, Run(H, w, run[..k]), rest) == Advance(H, Run(H, Run(H, w, run[..k]), rest[..n - k]), rest[n - k]);
    }
  }

  // ----- one claimant at a time -----

  /** A claimant's instruction at position k, where claims are open and its receiving account is in place. */
  predicate SubmittedWhileOpen(H: Hasher, w: World, run: seq<Instruction>, k: nat, ins: Instruction)
    requires ins.NewClaim? || ins.ClaimLocked?
  {
    k < |run| && run[k] == ins
    && Open(Run(H, w, run[..k]).state) && CanReceive(Run(H, w, run[..k]).state, ins.claimant, ins.to)
  }

  lemma RestIsLater(H: Hasher, w: World, run: seq<Instruction>, k: nat)
    requires Valid(w) && w.state.distributor.Some? && !w.state.distributor.value.closable && k <= |run|
    ensures Later(Run(H, w, run[..k]).state, Run(H, w, run).state)
    ensures Run(H, w, run[..k]).tally.hashed <= Run(H, w, run).tally.hashed
  {
    var mid := Run(H, w, run[..k]);
    NotClosableMeansOneLife(H, w, run[..k]);
    EveryRunIsValid(H, w, run[..k]);
    RunSplits(H, w, run, k);
    RunIsLater(H, mid, run[k..]);
    HashedGrows(H, mid, run[k..]);
  }

  /** Hashed bytes collide: those of the commitment or of the claims up to this point. */
  ghost predicate CollisionIn(H: Hasher, w: World, entries: seq<Entry>) {
    Collides(H, CommitInputs(H, entries) + w.tally.hashed)
  }

  lemma CollisionStays(H: Hasher, w: World, run: seq<Instruction>, k: nat, entries: seq<Entry>)
    requires Valid(w) && w.state.distributor.Some? && !w.state.distributor.value.closable && k <= |run|
    requires CollisionIn(H, Run(H, w, run[..k]), entries)
    ensures CollisionIn(H, Run(H, w, run), entries)
  {
    RestIsLater(H, w, run, k);
    CollidesMonotone(H, CommitInputs(H, entries) + Run(H, w, run[..k]).tally.hashed,
                     CommitInputs(H, entries) + Run(H, w, run).tally.hashed);
  }

  /** Where a run stands after its k-th instruction, given where it stood before. */
  lemma NextState(H: Hasher, w: World, run: seq<Instruction>, k: nat)
    requires k < |run|
    ensures Run(H, w, run[..k + 1]) == Advance(H, Run(H, w, run[..k]), run[k])
  {
    assert run[..k + 1][..k] == run[..k];
  }

  /** Who has a status at some point of a run has one from then on. */
  lemma StatusStays(H: Hasher, w: World, run: seq<Instruction>, k: nat, c: Pubkey)
    requires Valid(w) && w.state.distributor.Some? && !w.state.distributor.value.closable && k <= |run|
    requires c in Run(H, w, run[..k]).state.statuses
    ensures c in Run(H, w, run).state.statuses
  {
    RestIsLater(H, w, run, k);
  }

  /** Claimed once and for all: whoever has a status is refused a second claim at the end of every run. */
  lemma ClaimedOnce(H: Hasher, w: World, run: seq<Instruction>, again: Instruction)
    requires Valid(w) && w.state.distributor.Some? && !w.state.distributor.value.closable
    requires again.NewClaim? && again.claimant in w.state.statuses
    ensures Exec(H, Run(H, w, run).state, again).Err?
  {
    RunIsLater(H, w, run);
  }

  /** At an open state the committed claim succeeds unless it already has. */
  lemma ClaimLeavesStatus(H: Hasher, w: World, entries: seq<Entry>, i: nat, wallets: Pubkey -> Pubkey)
    requires Valid(w) && Agreed(H, w, entries) && Funded(w.state) && Open(w.state)
    requires i < |entries| && CanReceive(w.state, entries[i].claimant, wallets(entries[i].claimant))
    requires !CollisionIn(H, w, entries)
    ensures entries[i].claimant in Advance(H, w, ClaimOf(H, entries, i, wallets)).state.statuses
  {
    var c, ins := entries[i].claimant, ClaimOf(H, entries, i, wallets);
    if c in w.state.statuses {
      assert ExecNewClaim(H, w.state, ins.to, entries[i], ins.proof).Err?;
    } else {
      assert ExecNewClaim(H, w.state, ins.to, entries[i], ins.proof).Ok? by {
        UnclaimedEntryCanClaim(H, w, entries, i, wallets(c));
      }
      var s' := ExecNewClaim(H, w.state, ins.to, entries[i], ins.proof).value;
      assert Advance(H, w, ins).state == s';
      NewClaimTerms(H, w.state, ins.to, entries[i], ins.proof);
    }
  }

  /** Whoever has a status, or submits its committed claim at an open moment of any run, has one from then on. */
  lemma SubmittedClaimCounts(H: Hasher, w: World, entries: seq<Entry>, run: seq<Instruction>, k: nat, i: nat,
                             wallets: Pubkey -> Pubkey)
    requires Valid(w) && Agreed(H, w, entries) && Funded(w.state) && i < |entries|
    requires entries[i].claimant in w.state.statuses
          || SubmittedWhileOpen(H, w, run, k, ClaimOf(H, entries, i, wallets))
    ensures CollisionIn(H, Run(H, w, run), entries) || entries[i].claimant in Run(H, w, run).state.statuses
  {
    if entries[i].claimant in w.state.statuses {
      RunIsLater(H, w, run);
    } else if CollisionIn(H, Run(H, w, run[..k]), entries) {
      CollisionStays(H, w, run, k, entries);
    } else {
      assert entries[i].claimant in Run(H, w, run[..k + 1]).state.statuses by {
        EveryRunKeepsAgreed(H, w, run[..k], entries);
        ClaimLeavesStatus(H, Run(H, w, run[..k]), entries, i, wallets);
        NextState(H, w, run, k);
      }
      StatusStays(H, w, run, k + 1, entries[i].claimant);
    }
  }

  predicate DrawnInFull(s: State, c: Pubkey) {
    c in s.statuses && s.statuses[c].lockedAmountWithdrawn == s.statuses[c].lockedAmount
  }

  /** At an open state after end_ts a withdrawal succeeds exactly when something is outstanding, and completes it. */
  lemma DrawCompletes(H: Hasher, w: World, entries: seq<Entry>, c: Pubkey, to: Pubkey)
    requires Valid(w) && Funded(w.state) && Open(w.state) && Commits(H, w.state.distributor.value, entries)
    requires Faithful(w.state.statuses, Register(entries))
    requires c in w.state.statuses && CanReceive(w.state, c, to) && w.state.clock.ts >= w.state.distributor.value.endTs
    ensures Exec(H, w.state, ClaimLocked(c, to)).Ok? <==> !DrawnInFull(w.state, c)
    ensures DrawnInFull(Advance(H, w, ClaimLocked(c, to)).state, c)
  {
    HolderCanWithdraw(H, w, entries, c, to);
    WithdrawableNow(w, c);
    if ExecClaimLocked(w.state, c, to).Ok? {
      ClaimLockedStep(w.state, c, to);
    }
  }

  /** Who has drawn in full at some point of a run stays so. */
  lemma DrawnStaysDrawn(H: Hasher, w: World, run: seq<Instruction>, k: nat, c: Pubkey)
    requires Valid(w) && w.state.distributor.Some? && !w.state.distributor.value.closable && k <= |run|
    requires DrawnInFull(Run(H, w, run[..k]).state, c)
    ensures DrawnInFull(Run(H, w, run).state, c)
  {
    RestIsLater(H, w, run, k);
    var end := Run(H, w, run);
    assert StatusOk(end, end.state.distributor.value, c) by {
      NotClosableMeansOneLife(H, w, run);
      EveryRunIsValid(H, w, run);
    }
  }

  /** Whoever submits a withdrawal at an open moment after end_ts, with a status, is drawn in full from then on. */
  lemma SubmittedDrawCompletes(H: Hasher, w: World, entries: seq<Entry>, run: seq<Instruction>, k: nat, c: Pubkey,
                               to: Pubkey)
    requires Valid(w) && Agreed(H, w, entries) && Funded(w.state)
    requires SubmittedWhileOpen(H, w, run, k, ClaimLocked(c, to))
             && var mid := Run(H, w, run[..k]).state;
                c in mid.statuses && mid.clock.ts >= mid.distributor.value.endTs
    ensures CollisionIn(H, Run(H, w, run), entries) || DrawnInFull(Run(H, w, run).state, c)
  {
    if CollisionIn(H, Run(H, w, run[..k]), entries) {
      CollisionStays(H, w, run, k, entries);
    } else {
      assert DrawnInFull(Run(H, w, run[..k + 1]).state, c) by {
        EveryRunKeepsAgreed(H, w, run[..k], entries);
        DrawCompletes(H, Run(H, w, run[..k]), entries, c, to);
        NextState(H, w, run, k);
      }
      DrawnStaysDrawn(H, w, run, k + 1, c);
    }
  }

  // ----- nobody gets more -----

  /** Receipts within the entries: members only, and no more than the unlocked part and what has vested by now. */
  predicate ReceivedAtMost(received: map<Pubkey, nat>, entries: seq<Entry>, s: State)
    requires s.distributor.Some?
  {
    var d := s.distributor.value;
    forall c :: c in received ==>
      c in Register(entries)
      && var e := Register(entries)[c];
         received[c] <= e.unlocked + Vested(e.locked, s.clock.ts, d.startTs, d.endTs)
  }

  lemma FaithfulMeansNotOverpaid(w: World, entries: seq<Entry>)
    requires Valid(w) && w.state.distributor.Some? && !w.state.distributor.value.closable
    requires Faithful(w.state.statuses, Register(entries))
    ensures ReceivedAtMost(w.tally.received, entries, w.state)
  {
    forall c | c in w.state.statuses
      ensures Paid(w.state.statuses[c])
           <= w.state.statuses[c].unlockedAmount
              + Vested(w.state.statuses[c].lockedAmount, w.state.clock.ts, w.state.distributor.value.startTs,
                       w.state.distributor.value.endTs)
    {
      WithdrawableNow(w, c);
    }
  }

  /**
   * Nobody is overpaid: after every run by anyone, claims have paid into the token accounts of committed
   * claimants only, and to each at most its unlocked amount and what has vested of its locked amount; or
   * hashed bytes collide.
   */
  lemma NobodyIsOverpaid(H: Hasher, w: World, entries: seq<Entry>, run: seq<Instruction>)
    requires Born(w) && Commits(H, w.state.distributor.value, entries)
    ensures var end := Run(H, w, run);
            && end.state.distributor.Some?
            && (CollisionIn(H, end, entries) || ReceivedAtMost(end.tally.received, entries, end.state))
  {
    BornAgreed(H, w, entries);
    EveryRunKeepsAgreed(H, w, run, entries);
    var end := Run(H, w, run);
    if Faithful(end.state.statuses, Register(entries)) {
      FaithfulMeansNotOverpaid(end, entries);
    }
  }

  // ----- everyone -----

  lemma {:induction false} NothingOutstanding(statuses: map<Pubkey, StatusData>)
    requires forall c :: c in statuses ==> Outstanding(statuses[c]) == 0
    ensures Sum(statuses, Outstanding) == 0
    decreases |statuses|
  {
    if statuses != map[] {
      var c :| c in statuses;
      SumRemove(statuses, c, Outstanding);
      NothingOutstanding(statuses - {c});
    }
  }

  lemma EveryMemberListed(statuses: map<Pubkey, StatusData>, entries: seq<Entry>)
    requires Faithful(statuses, Register(entries))
    requires forall i :: 0 <= i < |entries| ==> entries[i].claimant in statuses
    ensures statuses.Keys == Register(entries).Keys
  {
    RegisterExact(entries);
    forall c | c in Register(entries)
      ensures c in statuses
    {
      var i :| 0 <= i < |entries| && entries[i] == Register(entries)[c];
    }
  }

  /** When every entry has its status, all nodes are claimed and only outstanding amounts are left of the cap. */
  lemma AllCame(H: Hasher, w: World, entries: seq<Entry>)
    requires Valid(w) && w.state.distributor.Some? && Commits(H, w.state.distributor.value, entries)
    requires Faithful(w.state.statuses, Register(entries))
    requires forall i :: 0 <= i < |entries| ==> entries[i].claimant in w.state.statuses
    ensures var d := w.state.distributor.value;
            && d.numNodesClaimed == d.maxNumNodes
            && d.maxTotalClaim - d.totalAmountClaimed == Sum(w.state.statuses, Outstanding)
  {
    var statuses, register := w.state.statuses, Register(entries);
    EveryMemberListed(statuses, entries);
    RegisterTotals(entries);
    assert |statuses| == |statuses.Keys| && |register| == |register.Keys|;
    FaithfulMeansOwedExactly(H, w, entries);
    assert register - statuses.Keys == map[];
  }

  /**
   * Nobody is left behind: from any funded state of any run, let the claimants still missing submit their
   * committed claims at open moments, in any order and interleaved with anything. In the end every node is
   * claimed and only locked amounts not yet withdrawn are left of the cap; or hashed bytes collide.
   */
  lemma EveryoneIsServed(H: Hasher, w: World, before: seq<Instruction>, entries: seq<Entry>, run: seq<Instruction>,
                         claimAt: seq<nat>, wallets: Pubkey -> Pubkey)
    requires Born(w) && Commits(H, w.state.distributor.value, entries)
    requires Funded(Run(H, w, before).state) && |claimAt| == |entries|
    requires forall i :: 0 <= i < |entries| ==>
      || entries[i].claimant in Run(H, w, before).state.statuses
      || SubmittedWhileOpen(H, Run(H, w, before), run, claimAt[i], ClaimOf(H, entries, i, wallets))
    ensures var end := Run(H, Run(H, w, before), run);
            && Valid(end) && Agreed(H, end, entries)
            && (CollisionIn(H, end, entries) ||
                var d := end.state.distributor.value;
                && Faithful(end.state.statuses, Register(entries))
                && end.state.statuses.Keys == Register(entries).Keys
                && d.numNodesClaimed == d.maxNumNodes
                && d.maxTotalClaim - d.totalAmountClaimed == Sum(end.state.statuses, Outstanding))
  {
    var start := Run(H, w, before);
    var end := Run(H, start, run);
    BornAgreed(H, w, entries);
    EveryRunKeepsAgreed(H, w, before, entries);
    EveryRunKeepsAgreed(H, start, run, entries);
    if !CollisionIn(H, end, entries) {
      forall i | 0 <= i < |entries|
        ensures entries[i].claimant in end.state.statuses
      {
        SubmittedClaimCounts(H, start, entries, run, claimAt[i], i, wallets);
      }
      AllCame(H, end, entries);
      EveryMemberListed(end.state.statuses, entries);
    }
  }

  /** Unless already there, the claimant claims at position k; it withdraws at a later m, open and after end_ts. */
  predicate ClaimsThenDraws(H: Hasher, w: World, entries: seq<Entry>, run: seq<Instruction>, i: nat, k: nat, m: nat,
                            wallets: Pubkey -> Pubkey)
    requires i < |entries|
  {
    var c := entries[i].claimant;
    && (c in w.state.statuses || (k < m && SubmittedWhileOpen(H, w, run, k, ClaimOf(H, entries, i, wallets))))
    && SubmittedWhileOpen(H, w, run, m, DrawOf(entries, i, wallets))
    && Run(H, w, run[..m]).state.clock.ts >= Run(H, w, run[..m]).state.distributor.value.endTs
  }

  function DrawOf(entries: seq<Entry>, i: nat, wallets: Pubkey -> Pubkey): Instruction
    requires i < |entries|
  {
    ClaimLocked(entries[i].claimant, wallets(entries[i].claimant))
  }

  lemma SubmittedInPrefix(H: Hasher, w: World, run: seq<Instruction>, k: nat, m: nat, ins: Instruction)
    requires ins.NewClaim? && k < m <= |run| && SubmittedWhileOpen(H, w, run, k, ins)
    ensures SubmittedWhileOpen(H, w, run[..m], k, ins)
  {
    assert run[..m][..k] == run[..k];
  }

  lemma ClaimThenDrawCompletes(H: Hasher, w: World, entries: seq<Entry>, run: seq<Instruction>, i: nat, k: nat, m: nat,
                               wallets: Pubkey -> Pubkey)
    requires Valid(w) && Agreed(H, w, entries) && Funded(w.state)
    requires i < |entries| && ClaimsThenDraws(H, w, entries, run, i, k, m, wallets)
    ensures CollisionIn(H, Run(H, w, run), entries) || DrawnInFull(Run(H, w, run).state, entries[i].claimant)
  {
    var mid, c := Run(H, w, run[..m]), entries[i].claimant;
    assert CollisionIn(H, mid, entries) || c in mid.state.statuses by {
      if c !in w.state.statuses {
        SubmittedInPrefix(H, w, run, k, m, ClaimOf(H, entries, i, wallets));
      }
      SubmittedClaimCounts(H, w, entries, run[..m], k, i, wallets);
    }
    if CollisionIn(H, mid, entries) {
      CollisionStays(H, w, run, m, entries);
    } else {
      SubmittedDrawCompletes(H, w, entries, run, m, c, wallets(c));
    }
  }

  /**
   * Everyone is paid in full: if every claimant still missing submits its committed claim and every one, at
   * some later open moment after end_ts, a withdrawal, then however all this is interleaved, with whatever
   * else, the run ends with every node claimed, the whole cap paid out, and each committed claimant's own
   * token accounts having received exactly what its entry is worth; or hashed bytes collide.
   */
  lemma EveryoneIsPaidInFull(H: Hasher, w: World, before: seq<Instruction>, entries: seq<Entry>, run: seq<Instruction>,
                             claimAt: seq<nat>, drawAt: seq<nat>, wallets: Pubkey -> Pubkey)
    requires Born(w) && Commits(H, w.state.distributor.value, entries)
    requires Funded(Run(H, w, before).state)
    requires |claimAt| == |drawAt| == |entries|
    requires forall i :: 0 <= i < |entries| ==>
      ClaimsThenDraws(H, Run(H, w, before), entries, run, i, claimAt[i], drawAt[i], wallets)
    ensures var end := Run(H, Run(H, w, before), run);
            && end.state.distributor.Some?
            && (CollisionIn(H, end, entries) ||
                var d := end.state.distributor.value;
                && d.numNodesClaimed == d.maxNumNodes && d.totalAmountClaimed == d.maxTotalClaim
                && Received(end.tally.received, entries, Worth))
  {
    var start := Run(H, w, before);
    var end := Run(H, start, run);
    BornAgreed(H, w, entries);
    EveryRunKeepsAgreed(H, w, before, entries);
    EveryRunKeepsAgreed(H, start, run, entries);
    if !CollisionIn(H, end, entries) {
      forall i | 0 <= i < |entries|
        ensures DrawnInFull(end.state, entries[i].claimant)
      {
        ClaimThenDrawCompletes(H, start, entries, run, i, claimAt[i], drawAt[i], wallets);
      }
      AllDrawn(H, end, entries);
    }
  }

  lemma AllDrawn(H: Hasher, w: World, entries: seq<Entry>)
    requires Valid(w) && w.state.distributor.Some? && Commits(H, w.state.distributor.value, entries)
    requires Faithful(w.state.statuses, Register(entries))
    requires forall i :: 0 <= i < |entries| ==> DrawnInFull(w.state, entries[i].claimant)
    ensures var d := w.state.distributor.value;
            d.numNodesClaimed == d.maxNumNodes && d.totalAmountClaimed == d.maxTotalClaim
    ensures Received(w.tally.received, entries, Worth)
  {
    EveryHolderDrew(w.state, entries);
    assert Sum(w.state.statuses, Outstanding) == 0 by {
      NothingOutstanding(w.state.statuses);
    }
    AllCame(H, w, entries);
    AllReceived(w, entries);
  }

  lemma EveryHolderDrew(s: State, entries: seq<Entry>)
    requires Faithful(s.statuses, Register(entries))
    requires forall i :: 0 <= i < |entries| ==> DrawnInFull(s, entries[i].claimant)
    ensures s.statuses.Keys == Register(entries).Keys
    ensures forall c :: c in s.statuses ==> DrawnInFull(s, c)
  {
    EveryMemberListed(s.statuses, entries);
    RegisterExact(entries);
    forall c | c in s.statuses
      ensures DrawnInFull(s, c)
    {
      var i :| 0 <= i < |entries| && entries[i] == Register(entries)[c];
    }
  }

  /** Nothing outstanding means that everyone has received its worth. */
  lemma AllReceived(w: World, entries: seq<Entry>)
    requires Valid(w) && w.state.distributor.Some? && !w.state.distributor.value.closable
    requires Faithful(w.state.statuses, Register(entries)) && w.state.statuses.Keys == Register(entries).Keys
    requires forall c :: c in w.state.statuses ==> DrawnInFull(w.state, c)
    ensures Received(w.tally.received, entries, Worth)
  {
    forall c | c in w.tally.received
      ensures w.tally.received[c] == Worth(Register(entries)[c])
    {
      assert DrawnInFull(w.state, c) && Matches(w.state.statuses[c], Register(entries)[c]);
    }
  }

  // ----- in turn, with no assumption on the hash -----

  /** Everyone has claimed and all is vested; what is left is to withdraw. */
  ghost predicate AllVested(H: Hasher, w: World, entries: seq<Entry>, wallets: Pubkey -> Pubkey) {
    && Ready(H, w, entries, wallets) && w.state.clock.ts >= w.state.distributor.value.endTs
    && forall i :: 0 <= i < |entries| ==> entries[i].claimant in w.state.statuses
  }

  /** A withdrawal leads from Ready to Ready and changes one status. */
  lemma DrawKeepsReady(H: Hasher, w: World, entries: seq<Entry>, c: Pubkey, to: Pubkey, wallets: Pubkey -> Pubkey)
    requires Ready(H, w, entries, wallets) && ExecClaimLocked(w.state, c, to).Ok?
    ensures var w' := Advance(H, w, ClaimLocked(c, to));
            Ready(H, w', entries, wallets) && SameTerms(w.state, w'.state)
            && c in w.state.statuses && c in w'.state.statuses
            && w'.state.statuses == w.state.statuses[c := w'.state.statuses[c]]
  {
    var w', s' := Advance(H, w, ClaimLocked(c, to)), ExecClaimLocked(w.state, c, to).value;
    assert w'.state == s';
    assert Valid(w') by { EveryStepKeepsValid(H, w, ClaimLocked(c, to)); }
    assert Funded(s') by { EveryStepKeepsFunded(H, w, ClaimLocked(c, to)); }
    ClaimLockedTerms(w.state, c, to);
    StillFaithful(w.state.statuses, Register(entries), c, s'.statuses[c].lockedAmountWithdrawn);
    StillReady(H, w, w', entries, wallets);
  }

  lemma NextDraw(H: Hasher, w: World, entries: seq<Entry>, i: nat, wallets: Pubkey -> Pubkey)
    requires AllVested(H, w, entries, wallets) && i < |entries| && !DrawnInFull(w.state, entries[i].claimant)
    ensures var c, ins := entries[i].claimant, DrawOf(entries, i, wallets);
            var after := Advance(H, w, ins).state;
            && Exec(H, w.state, ins).Ok? && DrawnInFull(after, c)
            && after.statuses == w.state.statuses[c := after.statuses[c]]
    ensures AllVested(H, Advance(H, w, DrawOf(entries, i, wallets)), entries, wallets)
  {
    var c, ins := entries[i].claimant, DrawOf(entries, i, wallets);
    DrawCompletes(H, w, entries, c, wallets(c));
    DrawKeepsReady(H, w, entries, c, wallets(c), wallets);
  }

  function DrawsOf(entries: seq<Entry>, holders: seq<nat>, wallets: Pubkey -> Pubkey): (draws: seq<Instruction>)
    requires forall k :: 0 <= k < |holders| ==> holders[k] < |entries|
    ensures |draws| == |holders|
    ensures forall k :: 0 <= k < |holders| ==> draws[k] == DrawOf(entries, holders[k], wallets)
  {
    seq(|holders|, k requires 0 <= k < |holders| => DrawOf(entries, holders[k], wallets))
  }

  predicate ListedDrew(s: State, entries: seq<Entry>, holders: seq<nat>)
    requires forall k :: 0 <= k < |holders| ==> holders[k] < |entries|
  {
    forall k :: 0 <= k < |holders| ==> DrawnInFull(s, entries[holders[k]].claimant)
  }

  predicate OthersDidNot(before: State, after: State, drew: set<Pubkey>) {
    forall c :: c in before.statuses && c !in drew ==> c in after.statuses && after.statuses[c] == before.statuses[c]
  }

  /** Who has drawn since: the listed holders in full, the others as before. */
  predicate DrewExactly(before: State, after: State, entries: seq<Entry>, holders: seq<nat>)
    requires forall k :: 0 <= k < |holders| ==> holders[k] < |entries|
  {
    ListedDrew(after, entries, holders) && OthersDidNot(before, after, ClaimantsOf(entries, holders))
  }

  /** The listed holders have drawn since, and the rest still can. */
  ghost predicate Drew(H: Hasher, before: State, w: World, entries: seq<Entry>, holders: seq<nat>,
                       wallets: Pubkey -> Pubkey)
    requires forall k :: 0 <= k < |holders| ==> holders[k] < |entries|
  {
    AllVested(H, w, entries, wallets) && DrewExactly(before, w.state, entries, holders)
  }

  /** Entries with something outstanding. */
  predicate Undrawn(s: State, entries: seq<Entry>, holders: seq<nat>) {
    forall k :: 0 <= k < |holders| ==>
      holders[k] < |entries| && entries[holders[k]].claimant in s.statuses
      && !DrawnInFull(s, entries[holders[k]].claimant)
  }

  lemma ListedOneMore(s: State, s': State, entries: seq<Entry>, holders: seq<nat>)
    requires holders != [] && forall k :: 0 <= k < |holders| ==> holders[k] < |entries|
    requires ListedDrew(s, entries, holders[..|holders| - 1])
    requires var c := entries[holders[|holders| - 1]].claimant;
             DrawnInFull(s', c) && s'.statuses == s.statuses[c := s'.statuses[c]]
    ensures ListedDrew(s', entries, holders)
  {
    var front := holders[..|holders| - 1];
    forall k | 0 <= k < |holders|
      ensures DrawnInFull(s', entries[holders[k]].claimant)
    {
      if k < |front| {
        assert front[k] == holders[k] && DrawnInFull(s, entries[front[k]].claimant);
      }
    }
  }

  lemma DrawsOfPrefix(s: State, entries: seq<Entry>, holders: seq<nat>, k: nat, wallets: Pubkey -> Pubkey)
    requires Undrawn(s, entries, holders) && Distinct(holders) && k < |holders|
    ensures Undrawn(s, entries, holders[..k]) && Distinct(holders[..k]) && holders[k] !in holders[..k]
    ensures DrawsOf(entries, holders, wallets)[..k] == DrawsOf(entries, holders[..k], wallets)
  {
  }

  lemma DrewOneMore(before: State, s: State, s': State, entries: seq<Entry>, holders: seq<nat>)
    requires holders != [] && forall k :: 0 <= k < |holders| ==> holders[k] < |entries|
    requires DrewExactly(before, s, entries, holders[..|holders| - 1])
    requires var c := entries[holders[|holders| - 1]].claimant;
             DrawnInFull(s', c) && s'.statuses == s.statuses[c := s'.statuses[c]]
    ensures DrewExactly(before, s', entries, holders)
  {
    ListedOneMore(s, s', entries, holders);
  }

  lemma LastDraw(H: Hasher, before: State, w: World, entries: seq<Entry>, holders: seq<nat>, wallets: Pubkey -> Pubkey)
    requires holders != [] && Distinct(holders) && DistinctClaimants(entries) && Undrawn(before, entries, holders)
    requires Drew(H, before, w, entries, holders[..|holders| - 1], wallets)
    ensures var ins := DrawOf(entries, holders[|holders| - 1], wallets);
            Exec(H, w.state, ins).Ok? && Drew(H, before, Advance(H, w, ins), entries, holders, wallets)
  {
    var i, front := holders[|holders| - 1], holders[..|holders| - 1];
    assert !DrawnInFull(w.state, entries[i].claimant) by {
      DrawIsDue(H, before, w, entries, front, i, wallets);
    }
    NextDraw(H, w, entries, i, wallets);
    DrewOneMore(before, w.state, Advance(H, w, DrawOf(entries, i, wallets)).state, entries, holders);
  }

  lemma {:induction false} DrewInTurn(H: Hasher, w: World, entries: seq<Entry>, holders: seq<nat>,
                                      wallets: Pubkey -> Pubkey)
    requires AllVested(H, w, entries, wallets) && Distinct(holders) && Undrawn(w.state, entries, holders)
    ensures Drew(H, w.state, Run(H, w, DrawsOf(entries, holders, wallets)), entries, holders, wallets)
  {
    var draws := DrawsOf(entries, holders, wallets);
    if holders == [] {
      assert Run(H, w, draws) == w;
    } else {
      var n := |holders| - 1;
      var mid := Run(H, w, draws[..n]);
      DrawsOfPrefix(w.state, entries, holders, n, wallets);
      assert Drew(H, w.state, mid, entries, holders[..n], wallets) by {
        DrewInTurn(H, w, entries, holders[..n], wallets);
      }
      assert Run(H, w, draws) == Advance(H, mid, draws[n]);
      assert Drew(H, w.state, Advance(H, mid, draws[n]), entries, holders, wallets) by {
        LastDraw(H, w.state, mid, entries, holders, wallets);
      }
    }
  }

  lemma DrawIsDue(H: Hasher, before: State, w: World, entries: seq<Entry>, front: seq<nat>, i: nat,
                  wallets: Pubkey -> Pubkey)
    requires DistinctClaimants(entries) && i < |entries| && i !in front
    requires forall k :: 0 <= k < |front| ==> front[k] < |entries|
    requires Drew(H, before, w, entries, front, wallets)
    requires entries[i].claimant in before.statuses && !DrawnInFull(before, entries[i].claimant)
    ensures !DrawnInFull(w.state, entries[i].claimant)
    ensures Exec(H, w.state, DrawOf(entries, i, wallets)).Ok?
  {
    NotYetClaimed(entries, front, i);
    assert !DrawnInFull(w.state, entries[i].claimant);
    DrawCompletes(H, w, entries, entries[i].claimant, wallets(entries[i].claimant));
  }

  lemma NextDrawSucceeds(H: Hasher, w: World, entries: seq<Entry>, holders: seq<nat>, k: nat,
                         wallets: Pubkey -> Pubkey)
    requires AllVested(H, w, entries, wallets) && Distinct(holders) && Undrawn(w.state, entries, holders)
    requires k < |holders|
    ensures var draws := DrawsOf(entries, holders, wallets);
            Exec(H, Run(H, w, draws[..k]).state, draws[k]).Ok?
  {
    var draws := DrawsOf(entries, holders, wallets);
    var mid := Run(H, w, draws[..k]);
    DrawsOfPrefix(w.state, entries, holders, k, wallets);
    assert Drew(H, w.state, mid, entries, holders[..k], wallets) by {
      DrewInTurn(H, w, entries, holders[..k], wallets);
    }
    DrawIsDue(H, w.state, mid, entries, holders[..k], holders[k], wallets);
  }

  /** The withdrawals of the listed holders succeed one after the other. */
  lemma DrawsSucceedInTurn(H: Hasher, w: World, entries: seq<Entry>, holders: seq<nat>, wallets: Pubkey -> Pubkey)
    requires AllVested(H, w, entries, wallets) && Distinct(holders) && Undrawn(w.state, entries, holders)
    ensures AllSucceed(H, w, DrawsOf(entries, holders, wallets))
  {
    var draws := DrawsOf(entries, holders, wallets);
    forall k | 0 <= k < |draws|
      ensures Exec(H, Run(H, w, draws[..k]).state, draws[k]).Ok?
    {
      NextDrawSucceeds(H, w, entries, holders, k, wallets);
    }
    EachSucceeds(H, w, draws);
  }

  lemma DrawnOrWasDrawn(before: State, after: State, entries: seq<Entry>, holders: seq<nat>, i: nat)
    requires DistinctClaimants(entries) && forall k :: 0 <= k < |holders| ==> holders[k] < |entries|
    requires DrewExactly(before, after, entries, holders) && i < |entries|
    requires i in holders || DrawnInFull(before, entries[i].claimant)
    ensures DrawnInFull(after, entries[i].claimant)
  {
    if i in holders {
      var k :| 0 <= k < |holders| && holders[k] == i;
    } else {
      NotYetClaimed(entries, holders, i);
    }
  }

  /** The withdrawals all succeed; then every node is claimed and the whole cap paid out, to each its worth. */
  predicate AllDrawnAfter(H: Hasher, w: World, entries: seq<Entry>, holders: seq<nat>, wallets: Pubkey -> Pubkey)
    requires forall k :: 0 <= k < |holders| ==> holders[k] < |entries|
  {
    var draws := DrawsOf(entries, holders, wallets);
    var end := Run(H, w, draws);
    && AllSucceed(H, w, draws) && Received(end.tally.received, entries, Worth)
    && end.state.distributor.Some?
    && var d := end.state.distributor.value;
       d.numNodesClaimed == d.maxNumNodes && d.totalAmountClaimed == d.maxTotalClaim
  }

  /**
   * Completion in any order: from a state in which everyone has claimed and all is vested, the withdrawals
   * of all who have something outstanding succeed in every order, and then the whole cap is paid out, to each
   * what its entry is worth. No assumption on the hash.
   */
  lemma EveryoneDrawsInAnyOrder(H: Hasher, w: World, entries: seq<Entry>, holders: seq<nat>, wallets: Pubkey -> Pubkey)
    requires AllVested(H, w, entries, wallets) && Distinct(holders)
    requires forall k :: 0 <= k < |holders| ==> holders[k] < |entries|
    requires forall i :: 0 <= i < |entries| ==> (i in holders <==> !DrawnInFull(w.state, entries[i].claimant))
    ensures AllDrawnAfter(H, w, entries, holders, wallets)
  {
    assert Undrawn(w.state, entries, holders) by {
      assert forall k :: 0 <= k < |holders| ==> holders[k] in holders;
    }
    DrawsSucceedInTurn(H, w, entries, holders, wallets);
    DrewInTurn(H, w, entries, holders, wallets);
    var end := Run(H, w, DrawsOf(entries, holders, wallets));
    forall i | 0 <= i < |entries|
      ensures DrawnInFull(end.state, entries[i].claimant)
    {
      DrawnOrWasDrawn(w.state, end.state, entries, holders, i);
    }
    AllDrawn(H, end, entries);
  }

  /**
   * From the first claim to the last token: from an open, funded state in which nobody has claimed, all
   * claims in any order, the wait until all is vested, and all withdrawals in any order succeed, and the
   * whole cap is paid out, to each what its entry is worth. No assumption on the hash.
   */
  lemma ClaimWaitDraw(H: Hasher, w: World, before: seq<Instruction>, entries: seq<Entry>, order: seq<nat>,
                      wait: Clock, holders: seq<nat>, wallets: Pubkey -> Pubkey)
    requires Born(w) && Commits(H, w.state.distributor.value, entries)
    requires var s := Run(H, w, before).state;
             Open(s) && Funded(s) && s.statuses == map[] && WalletsReady(s, entries, wallets)
    requires Distinct(order) && |order| == |entries| && forall k :: 0 <= k < |order| ==> order[k] < |entries|
    requires Distinct(holders) && forall k :: 0 <= k < |holders| ==> holders[k] < |entries|
    requires forall i :: 0 <= i < |entries| ==> (i in holders <==> entries[i].locked > 0)
    requires var claimed := Run(H, Run(H, w, before), ClaimsOf(H, entries, order, wallets)).state;
             && claimed.clock.ts <= wait.ts && claimed.clock.slot <= wait.slot
             && claimed.distributor.Some? && wait.ts >= claimed.distributor.value.endTs
    ensures var start, claims := Run(H, w, before), ClaimsOf(H, entries, order, wallets);
            && AllSucceed(H, start, claims)
            && AllDrawnAfter(H, Advance(H, Run(H, start, claims), Tick(wait)), entries, holders, wallets)
  {
    var start := Run(H, w, before);
    assert Served(H, start, entries, [], wallets) by {
      BornAgreed(H, w, entries);
      EveryRunKeepsAgreed(H, w, before, entries);
      NobodyServedYet(H, start, entries, wallets);
    }
    ClaimsSucceedInTurn(H, start, entries, order, wallets);
    ServedThenDrawn(H, start, entries, order, wait, holders, wallets);
  }

  /** The wait and the withdrawals, once all claims are served. */
  lemma ServedThenDrawn(H: Hasher, start: World, entries: seq<Entry>, order: seq<nat>, wait: Clock,
                        holders: seq<nat>, wallets: Pubkey -> Pubkey)
    requires Served(H, start, entries, [], wallets)
    requires Distinct(order) && |order| == |entries| && forall k :: 0 <= k < |order| ==> order[k] < |entries|
    requires Distinct(holders) && forall k :: 0 <= k < |holders| ==> holders[k] < |entries|
    requires forall i :: 0 <= i < |entries| ==> (i in holders <==> entries[i].locked > 0)
    requires var claimed := Run(H, start, ClaimsOf(H, entries, order, wallets)).state;
             && claimed.clock.ts <= wait.ts && claimed.clock.slot <= wait.slot
             && claimed.distributor.Some? && wait.ts >= claimed.distributor.value.endTs
    ensures var waited := Advance(H, Run(H, start, ClaimsOf(H, entries, order, wallets)), Tick(wait));
            AllVested(H, waited, entries, wallets) && AllDrawnAfter(H, waited, entries, holders, wallets)
  {
    var claimed := Run(H, start, ClaimsOf(H, entries, order, wallets));
    var waited := Advance(H, claimed, Tick(wait));
    assert Served(H, claimed, entries, order, wallets) by {
      ServedInTurn(H, start, entries, order, wallets);
    }
    ServedAndWaited(H, claimed, entries, order, wait, holders, wallets);
    EveryoneDrawsInAnyOrder(H, waited, entries, holders, wallets);
  }

  lemma AllServedHaveStatuses(s: State, entries: seq<Entry>, order: seq<nat>)
    requires forall k :: 0 <= k < |order| ==> order[k] < |entries|
    requires CameExactly(s, entries, order) && |order| == |entries| && DistinctClaimants(entries)
    requires Faithful(s.statuses, Register(entries))
    ensures forall i :: 0 <= i < |entries| ==> entries[i].claimant in s.statuses
    ensures forall i :: 0 <= i < |entries| ==> (DrawnInFull(s, entries[i].claimant) <==> entries[i].locked == 0)
  {
    RegisterExact(entries);
    RegisterTotals(entries);
    var statuses, register := s.statuses, Register(entries);
    assert |statuses| == |statuses.Keys| && |register| == |register.Keys|;
    SubsetOfSameSize(statuses.Keys, register.Keys);
    forall i | 0 <= i < |entries|
      ensures entries[i].claimant in statuses
      ensures DrawnInFull(s, entries[i].claimant) <==> entries[i].locked == 0
    {
      assert Matches(statuses[entries[i].claimant], register[entries[i].claimant]);
    }
  }

  lemma Waits(H: Hasher, w: World, wait: Clock)
    requires w.state.clock.ts <= wait.ts && w.state.clock.slot <= wait.slot
    ensures Advance(H, w, Tick(wait)) == World(w.state.(clock := wait), w.tally)
  {
  }

  lemma ServedAndWaited(H: Hasher, w: World, entries: seq<Entry>, order: seq<nat>, wait: Clock, holders: seq<nat>,
                        wallets: Pubkey -> Pubkey)
    requires forall k :: 0 <= k < |order| ==> order[k] < |entries|
    requires Served(H, w, entries, order, wallets) && |order| == |entries|
    requires w.state.clock.ts <= wait.ts && w.state.clock.slot <= wait.slot
    requires wait.ts >= w.state.distributor.value.endTs
    requires forall i :: 0 <= i < |entries| ==> (i in holders <==> entries[i].locked > 0)
    ensures var waited := Advance(H, w, Tick(wait));
            && AllVested(H, waited, entries, wallets)
            && forall i :: 0 <= i < |entries| ==> (i in holders <==> !DrawnInFull(waited.state, entries[i].claimant))
  {
    var waited := World(w.state.(clock := wait), w.tally);
    Waits(H, w, wait);
    assert Valid(waited) by { EveryStepKeepsValid(H, w, Tick(wait)); }
    WalletsStayReady(w.state, waited.state, entries, wallets);
    AllServedHaveStatuses(waited.state, entries, order);
  }
}
