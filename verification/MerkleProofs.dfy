/** The sorted-pair proof checker, the proofs stored with each leaf, and why the two agree. */
module MerkleProofs {
  import opened Primitives
  import opened MerkleTrees

  // ----- the checker -----

  function Combine(H: Hasher, current: Digest, element: Digest): Digest {
    H(PairInput(true, current, element))
  }

  /** The hash the checker has computed after the whole proof. */
  function Fold(H: Hasher, proof: seq<Digest>, leaf: Digest): Digest {
    if proof == [] then leaf
    else Combine(H, Fold(H, proof[..|proof| - 1], leaf), proof[|proof| - 1])
  }

  predicate Accepts(H: Hasher, proof: seq<Digest>, root: Digest, leaf: Digest) {
    Fold(H, proof, leaf) == root
  }

  method Verify(H: Hasher, proof: seq<Digest>, root: Digest, leaf: Digest) returns (accepted: bool)
    ensures accepted == Accepts(H, proof, root, leaf)
  {
    var computedHash := leaf;
    for k := 0 to |proof|
      invariant computedHash == Fold(H, proof[..k], leaf)
    {
      var proofElement := proof[k];
      assert proof[..k + 1][..k] == proof[..k];
      if LexLeq(computedHash, proofElement) {
        computedHash := HashIntermediate(H, computedHash, proofElement);
      } else {
        computedHash := HashIntermediate(H, proofElement, computedHash);
      }
    }
    assert proof[..|proof|] == proof;
    accepted := computedHash == root;
  }

  // ----- stored proofs -----

  function SiblingOf(level: seq<Digest>, i: nat): Digest
    requires i < |level|
  {
    if i % 2 == 0 then RightOf(level, i) else level[i - 1]
  }

  /** The siblings on the way from node i of this level to the root. */
  function SiblingPath(pair: Pairing, level: seq<Digest>, i: nat): seq<Digest>
    requires i < |level|
    decreases |level|
  {
    if |level| == 1 then [] else [SiblingOf(level, i)] + SiblingPath(pair, Up(pair, level), i / 2)
  }

  lemma {:induction false} PathHoldsSiblings(pair: Pairing, level: seq<Digest>, i: nat)
    requires i < |level|
    ensures var path, siblings := PathOf(pair, level, i), SiblingPath(pair, level, i);
            |path| == |siblings|
            && forall k :: 0 <= k < |path| ==>
                 siblings[k] == if path[k].left.Some? then path[k].left.value else path[k].right.value
    decreases |level|
  {
    if |level| > 1 {
      PathHoldsSiblings(pair, Up(pair, level), i / 2);
    }
  }

  /** `get_proof`; None stands for its panic on an index outside the tree. */
  method GetProof(mt: MerkleTree, index: nat, ghost pair: Pairing, ghost leaves: seq<Digest>)
    returns (result: Option<seq<Digest>>)
    requires LaysOut(mt, pair, leaves)
    ensures result == if index >= |leaves| then None else Some(SiblingPath(pair, leaves, index))
  {
    var found := FindPath(mt, index, pair, leaves);
    if found.None? {
      return None;
    }
    var path := found.value;
    PathHoldsSiblings(pair, leaves, index);
    ghost var siblings := SiblingPath(pair, leaves, index);
    var proof: seq<Digest> := [];
    for k := 0 to |path|
      invariant proof == [] + siblings[..k]
    {
      AppendNext([], siblings, k);
      var branch := path[k];
      if branch.left.Some? {
        proof := proof + [branch.left.value];
      } else if branch.right.Some? {
        proof := proof + [branch.right.value];
      } else {
        assert false;
      }
    }
    assert proof == siblings;
    return Some(proof);
  }

  // ----- completeness -----

  function SortedRoot(H: Hasher, items: seq<Bytes>): Digest
    requires items != []
  {
    Root(PairHash(H, true), Leaves(H, items))
  }

  function StoredProof(H: Hasher, items: seq<Bytes>, i: nat): seq<Digest>
    requires i < |items|
  {
    SiblingPath(PairHash(H, true), Leaves(H, items), i)
  }

  lemma CombineCommutes(H: Hasher, a: Digest, b: Digest)
    ensures Combine(H, a, b) == Combine(H, b, a)
  {
    LexLeqTotalOrder(a, b);
  }

  lemma {:induction false} FoldFront(H: Hasher, first: Digest, rest: seq<Digest>, leaf: Digest)
    ensures Fold(H, [first] + rest, leaf) == Fold(H, rest, Combine(H, leaf, first))
    decreases |rest|
  {
    var all := [first] + rest;
    if rest == [] {
      assert all == [first] && all[..0] == [];
    } else {
      var n := |rest| - 1;
      assert all[..|all| - 1] == [first] + rest[..n];
      FoldFront(H, first, rest[..n], leaf);
    }
  }

  lemma SiblingMakesParent(H: Hasher, level: seq<Digest>, i: nat)
    requires i < |level|
    ensures Combine(H, level[i], SiblingOf(level, i)) == Up(PairHash(H, true), level)[i / 2]
  {
    if i % 2 == 1 {
      CombineCommutes(H, level[i - 1], level[i]);
      PairHashIs(H, true, level[i - 1], level[i]);
    } else {
      PairHashIs(H, true, level[i], RightOf(level, i));
    }
  }

  lemma {:induction false} PathReachesRoot(H: Hasher, level: seq<Digest>, i: nat)
    requires i < |level|
    ensures Fold(H, SiblingPath(PairHash(H, true), level, i), level[i]) == Root(PairHash(H, true), level)
    decreases |level|
  {
    var pair := PairHash(H, true);
    if |level| > 1 {
      var up := Up(pair, level);
      PathReachesRoot(H, up, i / 2);
      SiblingMakesParent(H, level, i);
      FoldFront(H, SiblingOf(level, i), SiblingPath(pair, up, i / 2), level[i]);
    }
  }

  /** Completeness: every leaf's stored proof is accepted, whatever the hash and the shape of the tree. */
  lemma Completeness(H: Hasher, items: seq<Bytes>, i: nat)
    requires i < |items|
    ensures Accepts(H, StoredProof(H, items, i), SortedRoot(H, items), HashLeaf(H, items[i]))
  {
    PathReachesRoot(H, Leaves(H, items), i);
  }

  // ----- soundness -----

  /** The level k steps above the leaves. */
  function LevelAt(pair: Pairing, leaves: seq<Digest>, k: nat): seq<Digest> {
    if k == 0 then leaves else Up(pair, LevelAt(pair, leaves, k - 1))
  }

  lemma {:induction false} LevelAtUp(pair: Pairing, level: seq<Digest>, k: nat)
    ensures LevelAt(pair, Up(pair, level), k) == LevelAt(pair, level, k + 1)
  {
    if k > 0 {
      LevelAtUp(pair, level, k - 1);
    }
  }

  lemma {:induction false} RootLevel(pair: Pairing, level: seq<Digest>)
    requires level != []
    ensures LevelAt(pair, level, Height(|level|)) == [Root(pair, level)]
    decreases |level|
  {
    if |level| > 1 {
      RootLevel(pair, Up(pair, level));
      LevelAtUp(pair, level, Height(|level|) - 1);
    }
  }

  function LeafInput(item: Bytes): Bytes {
    LEAF_PREFIX + item
  }

  /** The bytes hashed to make node i of level k + 1. */
  function NodeInput(H: Hasher, items: seq<Bytes>, k: nat, i: nat): Bytes
    requires i < |LevelAt(PairHash(H, true), Leaves(H, items), k + 1)|
  {
    var below := LevelAt(PairHash(H, true), Leaves(H, items), k);
    PairInput(true, below[2 * i], RightOf(below, 2 * i))
  }

  /** Every byte string hashed while the tree is built. */
  function TreeInputs(H: Hasher, items: seq<Bytes>): set<Bytes> {
    (set i | 0 <= i < |items| :: LeafInput(items[i]))
    + (set k, i | 0 <= k < Height(|items|) && 0 <= i < |LevelAt(PairHash(H, true), Leaves(H, items), k + 1)|
         :: NodeInput(H, items, k, i))
  }

  /** Every byte string hashed while the checker folds a proof from the leaf hash of x. */
  function VerifyInputs(H: Hasher, proof: seq<Digest>, x: Bytes): set<Bytes> {
    if proof == [] then {LeafInput(x)}
    else
      var front := proof[..|proof| - 1];
      VerifyInputs(H, front, x) + {PairInput(true, Fold(H, front, HashLeaf(H, x)), proof[|proof| - 1])}
  }

  datatype Finding = Member(index: nat) | Collision(left: Bytes, right: Bytes)

  lemma PairInputsDiffer(a: Digest, b: Digest, l: Digest, r: Digest)
    requires PairInput(true, a, b) == PairInput(true, l, r)
    ensures a == l || a == r
  {
    var u := PairInput(true, a, b);
    var v := PairInput(true, l, r);
    assert u[1..33] == (if LexLeq(a, b) then a else b) && u[33..] == (if LexLeq(a, b) then b else a);
    assert v[1..33] == (if LexLeq(l, r) then l else r) && v[33..] == (if LexLeq(l, r) then r else l);
  }

  /**
   * Reads an accepted proof backwards against node i of level k: either the leaf is found in the
   * tree, or the first place where the two sides hashed different bytes is a collision.
   * The proof may be shorter or longer than the tree is high.
   */
  function Extract(H: Hasher, items: seq<Bytes>, k: nat, i: nat, proof: seq<Digest>, x: Bytes): (finding: Finding)
    requires k <= Height(|items|)
    requires i < |LevelAt(PairHash(H, true), Leaves(H, items), k)|
    requires Fold(H, proof, HashLeaf(H, x)) == LevelAt(PairHash(H, true), Leaves(H, items), k)[i]
    ensures match finding
            case Member(j) => j < |items| && items[j] == x
            case Collision(u, v) =>
              u != v && H(u) == H(v) && u in VerifyInputs(H, proof, x) && v in TreeInputs(H, items)
    decreases k
  {
    var pair, leaves := PairHash(H, true), Leaves(H, items);
    var theirs := if k == 0 then LeafInput(items[i]) else NodeInput(H, items, k - 1, i);
    assert theirs in TreeInputs(H, items);
    if proof == [] then
      assert LeafInput(x)[0] == 0;
      if k == 0 && items[i] == x then Member(i)
      else
        assert k == 0 ==> LeafInput(items[i])[1..] == items[i] && LeafInput(x)[1..] == x;
        assert k > 0 ==> theirs[0] == 1;
        assert k > 0 ==> H(theirs) == LevelAt(pair, leaves, k)[i] by {
          if k > 0 {
            var below := LevelAt(pair, leaves, k - 1);
            PairHashIs(H, true, below[2 * i], RightOf(below, 2 * i));
          }
        }
        Collision(LeafInput(x), theirs)
    else
      var front := proof[..|proof| - 1];
      var current, element := Fold(H, front, HashLeaf(H, x)), proof[|proof| - 1];
      var ours := PairInput(true, current, element);
      assert ours[0] == 1;
      if k == 0 then
        assert theirs[0] == 0;
        Collision(ours, theirs)
      else
        var below := LevelAt(pair, leaves, k - 1);
        var l, r := below[2 * i], RightOf(below, 2 * i);
        assert H(theirs) == LevelAt(pair, leaves, k)[i] by { PairHashIs(H, true, l, r); }
        if ours != theirs then Collision(ours, theirs)
        else
          PairInputsDiffer(current, element, l, r);
          if current == l then Extract(H, items, k - 1, 2 * i, front, x)
          else Extract(H, items, k - 1, 2 * i + 1, front, x)
  }

  /** The computation a challenger runs on an accepted proof. */
  function Examine(H: Hasher, items: seq<Bytes>, proof: seq<Digest>, x: Bytes): (finding: Finding)
    requires items != [] && Accepts(H, proof, SortedRoot(H, items), HashLeaf(H, x))
    ensures match finding
            case Member(j) => j < |items| && items[j] == x
            case Collision(u, v) =>
              u != v && H(u) == H(v) && u in VerifyInputs(H, proof, x) && v in TreeInputs(H, items)
  {
    RootLevel(PairHash(H, true), Leaves(H, items));
    Extract(H, items, Height(|items|), 0, proof, x)
  }

  /** Two different members of the set have the same hash. */
  ghost predicate Collides(H: Hasher, inputs: set<Bytes>) {
    exists u, v :: u in inputs && v in inputs && u != v && H(u) == H(v)
  }

  /** Soundness: an accepted leaf is committed, unless the hash collides on bytes that were hashed. */
  lemma Soundness(H: Hasher, items: seq<Bytes>, proof: seq<Digest>, x: Bytes)
    requires items != []
    requires Accepts(H, proof, SortedRoot(H, items), HashLeaf(H, x))
    ensures x in items || Collides(H, VerifyInputs(H, proof, x) + TreeInputs(H, items))
  {
    match Examine(H, items, proof, x)
    case Member(j) => assert items[j] == x;
    case Collision(u, v) =>
      assert u in VerifyInputs(H, proof, x) + TreeInputs(H, items);
      assert v in VerifyInputs(H, proof, x) + TreeInputs(H, items);
  }

  // ----- unsorted proof objects -----

  /** The hash an entry makes of a candidate: the missing sibling is the candidate itself. */
  function EntryHash(H: Hasher, entry: ProofEntry, candidate: Digest): Digest {
    HashIntermediate(H, if entry.left.Some? then entry.left.value else candidate,
                     if entry.right.Some? then entry.right.value else candidate)
  }

  /** `Proof::verify`: every recorded target must be reproduced on the way up. */
  predicate PathAccepts(H: Hasher, path: seq<ProofEntry>, candidate: Digest) {
    path == [] ||
    (EntryHash(H, path[0], candidate) == path[0].target && PathAccepts(H, path[1..], path[0].target))
  }

  lemma EntryHashOfOwnNode(H: Hasher, level: seq<Digest>, i: nat)
    requires i < |level|
    ensures var entry := EntryAbove(PairHash(H, false), level, i);
            EntryHash(H, entry, level[i]) == entry.target
  {
    var l, r := if i % 2 == 0 then level[i] else level[i - 1], if i % 2 == 0 then RightOf(level, i) else level[i];
    PairHashIs(H, false, l, r);
    assert Up(PairHash(H, false), level)[i / 2] == HashIntermediate(H, l, r);
  }

  lemma {:induction false} OwnPathAccepts(H: Hasher, level: seq<Digest>, i: nat)
    requires i < |level|
    ensures PathAccepts(H, PathOf(PairHash(H, false), level, i), level[i])
    decreases |level|
  {
    if |level| > 1 {
      var up := Up(PairHash(H, false), level);
      OwnPathAccepts(H, up, i / 2);
      EntryHashOfOwnNode(H, level, i);
    }
  }

  /** What is hashed first when the path of node i is tried on a candidate. */
  function FirstInput(level: seq<Digest>, i: nat, candidate: Digest): Bytes
    requires i < |level|
  {
    if i % 2 == 0 then IntermediateInput(candidate, RightOf(level, i)) else IntermediateInput(level[i - 1], candidate)
  }

  /**
   * With two leaves or more, the path of leaf i accepts a candidate exactly when the first pair it
   * forms hashes like the true pair: the leaf itself, or one side of an explicit collision.
   */
  lemma UnsortedPathBinds(H: Hasher, items: seq<Bytes>, i: nat, candidate: Digest)
    requires i < |items| && |items| >= 2
    ensures var leaves := Leaves(H, items);
            var ours, theirs := FirstInput(leaves, i, candidate), FirstInput(leaves, i, leaves[i]);
            && (PathAccepts(H, PathOf(PairHash(H, false), leaves, i), candidate) <==> H(ours) == H(theirs))
            && (ours == theirs <==> candidate == leaves[i])
  {
    var leaves := Leaves(H, items);
    OwnPathAccepts(H, leaves, i);
    var ours, theirs := FirstInput(leaves, i, candidate), FirstInput(leaves, i, leaves[i]);
    assert i % 2 == 0 ==> ours[1..33] == candidate && theirs[1..33] == leaves[i];
    assert i % 2 == 1 ==> ours[33..] == candidate && theirs[33..] == leaves[i];
  }

  /** With a single leaf the path is empty and binds nothing, so the bound above is needed. */
  lemma SingleLeafPathAcceptsAnything(H: Hasher, item: Bytes, candidate: Digest)
    ensures PathAccepts(H, PathOf(PairHash(H, false), Leaves(H, [item]), 0), candidate)
  {
  }
}
