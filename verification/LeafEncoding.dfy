/** What a leaf commits to: claimant and amounts, encoded as 32 + 8 + 8 bytes and hashed. */
module LeafEncoding {
  import opened Primitives
  import opened MerkleTrees
  import opened MerkleProofs

  datatype Entry = Entry(claimant: Pubkey, unlocked: u64, locked: u64)

  function EntryBytes(e: Entry): Bytes {
    e.claimant + U64LeBytes(e.unlocked) + U64LeBytes(e.locked)
  }

  lemma EntryBytesInjective(d: Entry, e: Entry)
    requires EntryBytes(d) == EntryBytes(e)
    ensures d == e
  {
    var bs, cs := EntryBytes(d), EntryBytes(e);
    assert bs[..32] == d.claimant && cs[..32] == e.claimant;
    assert bs[32..40] == U64LeBytes(d.unlocked) && cs[32..40] == U64LeBytes(e.unlocked);
    assert bs[40..] == U64LeBytes(d.locked) && cs[40..] == U64LeBytes(e.locked);
    U64LeBytesInjective(d.unlocked, e.unlocked);
    U64LeBytesInjective(d.locked, e.locked);
  }

  /** The node hash the program recomputes from the claimant's key and the claimed amounts. */
  function NodeHash(H: Hasher, e: Entry): Digest {
    H(EntryBytes(e))
  }

  /** The items of the Merkle tree are the node hashes. */
  function Items(H: Hasher, entries: seq<Entry>): (items: seq<Bytes>)
    ensures |items| == |entries|
    ensures forall i :: 0 <= i < |items| ==> items[i] == NodeHash(H, entries[i])
  {
    seq(|entries|, i requires 0 <= i < |entries| => NodeHash(H, entries[i]))
  }

  function CommitRoot(H: Hasher, entries: seq<Entry>): Digest
    requires entries != []
  {
    SortedRoot(H, Items(H, entries))
  }

  function EntryProof(H: Hasher, entries: seq<Entry>, i: nat): seq<Digest>
    requires i < |entries|
  {
    StoredProof(H, Items(H, entries), i)
  }

  /** The proof check of `new_claim`. */
  predicate ClaimAccepted(H: Hasher, root: Digest, e: Entry, proof: seq<Digest>) {
    Accepts(H, proof, root, HashLeaf(H, NodeHash(H, e)))
  }

  /** Every byte string hashed while a claim is checked. */
  function ClaimInputs(H: Hasher, e: Entry, proof: seq<Digest>): set<Bytes> {
    {EntryBytes(e)} + VerifyInputs(H, proof, NodeHash(H, e))
  }

  /** Every byte string hashed while the entries are committed. */
  function CommitInputs(H: Hasher, entries: seq<Entry>): set<Bytes> {
    (set i | 0 <= i < |entries| :: EntryBytes(entries[i])) + TreeInputs(H, Items(H, entries))
  }

  lemma CollidesMonotone(H: Hasher, small: set<Bytes>, large: set<Bytes>)
    requires small <= large && Collides(H, small)
    ensures Collides(H, large)
  {
    var u, v :| u in small && v in small && u != v && H(u) == H(v);
    assert u in large && v in large;
  }

  /** Entitlement agreement: only a committed (claimant, unlocked, locked) passes, or the hash collides. */
  lemma EntitlementAgreement(H: Hasher, entries: seq<Entry>, e: Entry, proof: seq<Digest>)
    requires entries != [] && ClaimAccepted(H, CommitRoot(H, entries), e, proof)
    ensures e in entries || Collides(H, ClaimInputs(H, e, proof) + CommitInputs(H, entries))
  {
    var items := Items(H, entries);
    var all := ClaimInputs(H, e, proof) + CommitInputs(H, entries);
    Soundness(H, items, proof, NodeHash(H, e));
    if NodeHash(H, e) in items {
      var i :| 0 <= i < |items| && items[i] == NodeHash(H, e);
      var u, v := EntryBytes(e), EntryBytes(entries[i]);
      if u == v {
        EntryBytesInjective(e, entries[i]);
      } else {
        assert u in all && v in all && H(u) == H(v);
      }
    } else {
      CollidesMonotone(H, VerifyInputs(H, proof, NodeHash(H, e)) + TreeInputs(H, items), all);
    }
  }

  /** And every committed entry passes with its stored proof. */
  lemma CommittedEntryAccepted(H: Hasher, entries: seq<Entry>, i: nat)
    requires i < |entries|
    ensures ClaimAccepted(H, CommitRoot(H, entries), entries[i], EntryProof(H, entries, i))
  {
    Completeness(H, Items(H, entries), i);
  }
}
