/** The join of the two halves: a distributor whose root commits to a list of entries stays solvent. */
module Solvency {
  import opened Primitives
  import opened Accounts
  import opened LeafEncoding
  import opened MerkleProofs
  import opened Machine
  import opened MapSums
  import opened Invariants

  // ----- what a root commits to -----

  function Worth(e: Entry): nat {
    e.unlocked + e.locked
  }

  function TotalWorth(entries: seq<Entry>): nat {
    if entries == [] then 0 else TotalWorth(entries[..|entries| - 1]) + Worth(entries[|entries| - 1])
  }

  predicate DistinctClaimants(entries: seq<Entry>) {
    forall i, j :: 0 <= i < j < |entries| ==> entries[i].claimant != entries[j].claimant
  }

  /** The distributor's root and caps are those of these entries, and nothing of it can be closed. */
  ghost predicate Commits(H: Hasher, d: DistributorData, entries: seq<Entry>) {
    && entries != [] && DistinctClaimants(entries)
    && d.root == CommitRoot(H, entries)
    && d.maxTotalClaim == TotalWorth(entries)
    && d.maxNumNodes == |entries|
    && !d.closable
  }

  /** The entries by claimant. */
  function Register(entries: seq<Entry>): map<Pubkey, Entry> {
    if entries == [] then map[]
    else
      var last := entries[|entries| - 1];
      Register(entries[..|entries| - 1])[last.claimant := last]
  }

  /** The register holds exactly the entries, each under its claimant. */
  lemma {:induction false} RegisterExact(entries: seq<Entry>)
    ensures forall c :: c in Register(entries) ==> Register(entries)[c] in entries && Register(entries)[c].claimant == c
    ensures DistinctClaimants(entries) ==>
              forall i :: 0 <= i < |entries| ==>
                entries[i].claimant in Register(entries) && Register(entries)[entries[i].claimant] == entries[i]
  {
    if entries != [] {
      var n := |entries| - 1;
      var front, last := entries[..n], entries[n];
      RegisterExact(front);
      forall c | c in Register(entries)
        ensures Register(entries)[c] in entries && Register(entries)[c].claimant == c
      {
        assert c != last.claimant ==> Register(front)[c] in front;
      }
      forall i | DistinctClaimants(entries) && 0 <= i < |entries|
        ensures entries[i].claimant in Register(entries) && Register(entries)[entries[i].claimant] == entries[i]
      {
        assert i < n ==> front[i] == entries[i];
      }
    }
  }

  lemma {:induction false} RegisterTotals(entries: seq<Entry>)
    requires DistinctClaimants(entries)
    ensures |Register(entries)| == |entries|
    ensures Sum(Register(entries), Worth) == TotalWorth(entries)
  {
    if entries != [] {
      var n := |entries| - 1;
      var front, last := entries[..n], entries[n];
      RegisterTotals(front);
      RegisterExact(front);
      assert last.claimant !in Register(front);
      SumUpdate(Register(front), last.claimant, last, Worth);
    }
  }

  // ----- statuses agree with the entries -----

  function Outstanding(status: StatusData): nat {
    if status.lockedAmountWithdrawn <= status.lockedAmount
    then status.lockedAmount - status.lockedAmountWithdrawn else 0
  }

  predicate Matches(status: StatusData, e: Entry) {
    status.unlockedAmount == e.unlocked && status.lockedAmount == e.locked
  }

  predicate Faithful(statuses: map<Pubkey, StatusData>, register: map<Pubkey, Entry>) {
    forall c :: c in statuses ==> c in register && Matches(statuses[c], register[c])
  }

  /** Split the register into the claimants who came and those who did not. */
  lemma {:induction false} RegisterSplits(statuses: map<Pubkey, StatusData>, register: map<Pubkey, Entry>)
    requires Faithful(statuses, register)
    requires forall c :: c in statuses ==> statuses[c].lockedAmountWithdrawn <= statuses[c].lockedAmount
    ensures Sum(register, Worth)
         == Sum(register - statuses.Keys, Worth) + Sum(statuses, Paid) + Sum(statuses, Outstanding)
    decreases |statuses|
  {
    if statuses == map[] {
      assert register - statuses.Keys == register;
    } else {
      var c :| c in statuses;
      var rest := statuses - {c};
      RegisterSplits(rest, register);
      SumRemove(statuses, c, Paid);
      SumRemove(statuses, c, Outstanding);
      SumRemove(register - rest.Keys, c, Worth);
      assert register - rest.Keys - {c} == register - statuses.Keys;
    }
  }

  /** What the caps leave is what the entries are still owed. */
  ghost predicate OwedExactly(s: State, entries: seq<Entry>)
    requires s.distributor.Some?
  {
    var d := s.distributor.value;
    d.maxTotalClaim - d.totalAmountClaimed
      == Sum(Register(entries) - s.statuses.Keys, Worth) + Sum(s.statuses, Outstanding)
  }

  lemma FaithfulMeansOwedExactly(H: Hasher, w: World, entries: seq<Entry>)
    requires Valid(w) && w.state.distributor.Some? && Commits(H, w.state.distributor.value, entries)
    requires Faithful(w.state.statuses, Register(entries))
    ensures OwedExactly(w.state, entries)
  {
    RegisterTotals(entries);
    forall c | c in w.state.statuses
      ensures w.state.statuses[c].lockedAmountWithdrawn <= w.state.statuses[c].lockedAmount
    {
      assert StatusOk(w, w.state.distributor.value, c);
    }
    RegisterSplits(w.state.statuses, Register(entries));
  }

  // ----- every run keeps the agreement -----

  /** Statuses agree with the entries, or bytes that were hashed collide. */
  ghost predicate Agreed(H: Hasher, w: World, entries: seq<Entry>) {
    && w.state.distributor.Some? && Commits(H, w.state.distributor.value, entries)
    && (Collides(H, CommitInputs(H, entries) + w.tally.hashed)
        || Faithful(w.state.statuses, Register(entries)))
  }

  /** An accepted claim is one of the register's entries, or hashed bytes collide. */
  lemma AcceptedClaimListed(H: Hasher, entries: seq<Entry>, entry: Entry, proof: seq<Digest>)
    requires entries != [] && DistinctClaimants(entries)
    requires ClaimAccepted(H, CommitRoot(H, entries), entry, proof)
    ensures Collides(H, ClaimInputs(H, entry, proof) + CommitInputs(H, entries))
         || (entry.claimant in Register(entries) && Register(entries)[entry.claimant] == entry)
  {
    EntitlementAgreement(H, entries, entry, proof);
    RegisterExact(entries);
  }

  lemma CollidesInUnion(H: Hasher, a: set<Bytes>, b: set<Bytes>, c: set<Bytes>)
    requires Collides(H, a + b) || Collides(H, c + a)
    ensures Collides(H, a + (b + c))
  {
    if Collides(H, a + b) {
      CollidesMonotone(H, a + b, a + (b + c));
    } else {
      CollidesMonotone(H, c + a, a + (b + c));
    }
  }

  lemma ListedStaysFaithful(statuses: map<Pubkey, StatusData>, register: map<Pubkey, Entry>, entry: Entry,
                            status: StatusData)
    requires Faithful(statuses, register) && Matches(status, entry)
    requires entry.claimant in register && register[entry.claimant] == entry
    ensures Faithful(statuses[entry.claimant := status], register)
  {
  }

  /** A claim that passes the proof check keeps the agreement, whatever it claims. */
  lemma AcceptedClaimAgrees(H: Hasher, entries: seq<Entry>, statuses: map<Pubkey, StatusData>, hashed: set<Bytes>,
                            entry: Entry, proof: seq<Digest>, status: StatusData)
    requires entries != [] && DistinctClaimants(entries)
    requires ClaimAccepted(H, CommitRoot(H, entries), entry, proof) && Matches(status, entry)
    requires Collides(H, CommitInputs(H, entries) + hashed) || Faithful(statuses, Register(entries))
    ensures Collides(H, CommitInputs(H, entries) + (hashed + ClaimInputs(H, entry, proof)))
         || Faithful(statuses[entry.claimant := status], Register(entries))
  {
    var committed, claimed := CommitInputs(H, entries), ClaimInputs(H, entry, proof);
    if Collides(H, committed + hashed) || Collides(H, claimed + committed) {
      CollidesInUnion(H, committed, hashed, claimed);
    } else {
      AcceptedClaimListed(H, entries, entry, proof);
      ListedStaysFaithful(statuses, Register(entries), entry, status);
    }
  }

  /** No instruction changes the root, the caps or the closable flag; and a distributor that is not closable stays. */
  lemma TermsAreFixed(H: Hasher, s: State, ins: Instruction)
    requires s.distributor.Some? && !s.distributor.value.closable
    requires Exec(H, s, ins).Ok?
    ensures var d, after := s.distributor.value, Exec(H, s, ins).value;
            && after.distributor.Some?
            && var d' := after.distributor.value;
               d'.root == d.root && d'.maxTotalClaim == d.maxTotalClaim && d'.maxNumNodes == d.maxNumNodes
               && d'.closable == d.closable
  {
  }

  /** Only the two claim instructions and closing touch the statuses. */
  lemma StatusesOnlyByClaims(H: Hasher, s: State, ins: Instruction)
    requires !ins.NewClaim? && Exec(H, s, ins).Ok?
    ensures forall c :: c in Exec(H, s, ins).value.statuses ==>
              c in s.statuses
              && Exec(H, s, ins).value.statuses[c].unlockedAmount == s.statuses[c].unlockedAmount
              && Exec(H, s, ins).value.statuses[c].lockedAmount == s.statuses[c].lockedAmount
  {
  }

  lemma NewClaimKeepsAgreed(H: Hasher, w: World, ins: Instruction, entries: seq<Entry>)
    requires Valid(w) && Agreed(H, w, entries) && ins.NewClaim?
    ensures Agreed(H, Advance(H, w, ins), entries)
  {
    var s, entry := w.state, Entry(ins.claimant, ins.amountUnlocked, ins.amountLocked);
    if Exec(H, s, ins).Ok? {
      TermsAreFixed(H, s, ins);
      NewClaimStep(H, s, ins.to, entry, ins.proof);
      AcceptedClaimAgrees(H, entries, s.statuses, w.tally.hashed, entry, ins.proof,
                          Exec(H, s, ins).value.statuses[entry.claimant]);
    }
  }

  lemma OtherStepKeepsAgreed(H: Hasher, w: World, ins: Instruction, entries: seq<Entry>)
    requires Agreed(H, w, entries) && !ins.NewClaim? && Exec(H, w.state, ins).Ok?
    ensures Agreed(H, Advance(H, w, ins), entries)
  {
    TermsAreFixed(H, w.state, ins);
    StatusesOnlyByClaims(H, w.state, ins);
    assert Advance(H, w, ins).tally.hashed == w.tally.hashed;
  }

  lemma EveryStepKeepsAgreed(H: Hasher, w: World, ins: Instruction, entries: seq<Entry>)
    requires Valid(w) && Agreed(H, w, entries)
    ensures Agreed(H, Advance(H, w, ins), entries)
  {
    if ins.NewClaim? {
      NewClaimKeepsAgreed(H, w, ins, entries);
    } else if Exec(H, w.state, ins).Ok? {
      OtherStepKeepsAgreed(H, w, ins, entries);
    }
  }

  /** Before clawback, vault and payouts together cover the cap. Deposits may come at any time. */
  ghost predicate Funded(s: State) {
    s.distributor.Some? && (s.distributor.value.clawedBack ||
      VaultBalance(s) + s.distributor.value.totalAmountClaimed >= s.distributor.value.maxTotalClaim)
  }

  lemma OtherStepKeepsFunded(H: Hasher, s: State, ins: Instruction)
    requires Funded(s) && TokensOk(s, s.distributor.value) && !s.distributor.value.closable
    requires !ins.NewClaim? && !ins.ClaimLocked? && Exec(H, s, ins).Ok?
    ensures Funded(Exec(H, s, ins).value)
  {
    if !ins.Clawback? {
      assert !ins.CloseDistributor?;
      OthersLeaveVault(H, s, ins);
    }
  }

  lemma EveryStepKeepsFunded(H: Hasher, w: World, ins: Instruction)
    requires Valid(w) && Funded(w.state) && !w.state.distributor.value.closable
    ensures Funded(Advance(H, w, ins).state)
  {
    if Exec(H, w.state, ins).Ok? {
      match ins
      case NewClaim(c, to, u, l, proof) => NewClaimStep(H, w.state, to, Entry(c, u, l), proof);
      case ClaimLocked(c, to) => ClaimLockedStep(w.state, c, to);
      case _ => OtherStepKeepsFunded(H, w.state, ins);
    }
  }

  lemma {:induction false} EveryRunKeepsAgreed(H: Hasher, w: World, run: seq<Instruction>, entries: seq<Entry>)
    requires Valid(w) && Agreed(H, w, entries)
    ensures Valid(Run(H, w, run)) && Agreed(H, Run(H, w, run), entries)
    ensures Funded(w.state) ==> Funded(Run(H, w, run).state)
  {
    if run != [] {
      var n := |run| - 1;
      EveryRunKeepsAgreed(H, w, run[..n], entries);
      var mid := Run(H, w, run[..n]);
      EveryStepKeepsValid(H, mid, run[n]);
      EveryStepKeepsAgreed(H, mid, run[n], entries);
      if Funded(mid.state) {
        EveryStepKeepsFunded(H, mid, run[n]);
      }
    }
  }

  lemma BornAgreed(H: Hasher, w: World, entries: seq<Entry>)
    requires Born(w) && Commits(H, w.state.distributor.value, entries)
    ensures Valid(w) && Agreed(H, w, entries)
  {
    BirthIsValid(w);
  }

  /**
   * Solvency: once the vault of a distributor has been funded, then until clawback the cap left is
   * exactly what unclaimed entries and vesting claimants are owed, and the vault holds at least that;
   * or two byte strings hashed in the commitment or by claims of the run collide.
   */
  lemma SolventInEveryRun(H: Hasher, w: World, entries: seq<Entry>, before: seq<Instruction>, after: seq<Instruction>)
    requires Born(w) && Commits(H, w.state.distributor.value, entries)
    requires Funded(Run(H, w, before).state)
    ensures var later := Run(H, Run(H, w, before), after);
            var s := later.state;
            && s.distributor.Some?
            && (s.distributor.value.clawedBack
                || Collides(H, CommitInputs(H, entries) + later.tally.hashed)
                || (OwedExactly(s, entries)
                    && VaultBalance(s) >= s.distributor.value.maxTotalClaim - s.distributor.value.totalAmountClaimed))
  {
    BornAgreed(H, w, entries);
    var mid := Run(H, w, before);
    EveryRunKeepsAgreed(H, w, before, entries);
    EveryRunKeepsAgreed(H, mid, after, entries);
    var later := Run(H, mid, after);
    if Faithful(later.state.statuses, Register(entries)) {
      FaithfulMeansOwedExactly(H, later, entries);
    }
  }
}
