/**
 * The tree, the checker and the leaf written out in bytes: which digest comes first, how a level that is not a
 * power of two is completed, and what a claim hashes to. Nothing here is said through the functions that build them.
 */
module TreeBytes {
  import opened Primitives
  import opened MerkleTrees
  import opened MerkleProofs
  import opened LeafEncoding

  // ----- the order of a pair -----

  /** The two agree on their first k bytes, and then x has the smaller one. */
  predicate PrecedesAt(x: Digest, y: Digest, k: nat) {
    k < 32 && x[..k] == y[..k] && x[k] < y[k]
  }

  /** Of two different digests one precedes the other. */
  lemma OnePrecedes(x: Digest, y: Digest) returns (k: nat)
    requires x != y
    ensures PrecedesAt(x, y, k) || PrecedesAt(y, x, k)
  {
    var d :| 0 <= d < 32 && x[d] != y[d];
    k := 0;
    while x[k] == y[k]
      invariant k <= d && x[..k] == y[..k]
      decreases d - k
    {
      k := k + 1;
    }
  }

  lemma {:induction false} FirstDifferenceDecides(a: Bytes, b: Bytes, k: nat)
    requires k < |a| && k < |b| && a[..k] == b[..k] && a[k] < b[k]
    ensures LexLeq(a, b) && !LexLeq(b, a)
  {
    if k > 0 {
      assert a[0] == a[..k][0] == b[..k][0] == b[0];
      assert a[1..][..k - 1] == a[..k][1..] && b[1..][..k - 1] == b[..k][1..];
      FirstDifferenceDecides(a[1..], b[1..], k - 1);
    }
  }

  /** A sorted pair is hashed with the smaller digest first, whichever side it is on; an unsorted one as it stands. */
  lemma SmallerHashFirst(H: Hasher, x: Digest, y: Digest, k: nat)
    requires PrecedesAt(x, y, k)
    ensures PairHash(H, true)(x, y) == PairHash(H, true)(y, x) == H([1] + x + y)
    ensures PairHash(H, false)(x, y) == H([1] + x + y) && PairHash(H, false)(y, x) == H([1] + y + x)
    ensures PairHash(H, true)(x, x) == PairHash(H, false)(x, x) == H([1] + x + x)
  {
    FirstDifferenceDecides(x, y, k);
    PairHashIs(H, true, x, y);
    PairHashIs(H, true, y, x);
    PairHashIs(H, true, x, x);
    PairHashIs(H, false, x, y);
    PairHashIs(H, false, y, x);
    PairHashIs(H, false, x, x);
  }

  /** The trees of one item and of two. */
  lemma SmallTrees(H: Hasher, a: Bytes, b: Bytes, k: nat)
    ensures forall sorted :: GetRoot(TreeOf(H, [a], sorted)) == Some(H([0] + a))
    ensures GetRoot(TreeOf(H, [a, b], false)) == Some(H([1] + H([0] + a) + H([0] + b)))
    ensures PrecedesAt(H([0] + a), H([0] + b), k) ==>
      && GetRoot(TreeOf(H, [a, b], true)) == Some(H([1] + H([0] + a) + H([0] + b)))
      && GetRoot(TreeOf(H, [b, a], true)) == Some(H([1] + H([0] + a) + H([0] + b)))
  {
    var x, y := H([0] + a), H([0] + b);
    assert Leaves(H, [a, b]) == [x, y] && Leaves(H, [b, a]) == [y, x];
    RootOfTwo(PairHash(H, false), x, y);
    RootOfTwo(PairHash(H, true), x, y);
    RootOfTwo(PairHash(H, true), y, x);
    PairHashIs(H, false, x, y);
    RootIsLast(H, [a, b], false);
    RootIsLast(H, [a, b], true);
    RootIsLast(H, [b, a], true);
    if PrecedesAt(x, y, k) {
      SmallerHashFirst(H, x, y, k);
    }
  }

  lemma RootOfTwo(pair: Pairing, x: Digest, y: Digest)
    ensures Root(pair, [x, y]) == pair(x, y)
  {
    assert Up(pair, [x, y]) == [pair(x, y)];
  }

  /**
   * The checker, round by round: no proof element left means the leaf is compared with the root; otherwise the
   * next element and the hash so far are hashed under the byte 1, the smaller first.
   */
  lemma VerifyRound(H: Hasher, proof: seq<Digest>, root: Digest, leaf: Digest, k: nat)
    ensures Accepts(H, [], root, leaf) <==> leaf == root
    ensures proof != [] && PrecedesAt(leaf, proof[0], k) ==>
      (Accepts(H, proof, root, leaf) <==> Accepts(H, proof[1..], root, H([1] + leaf + proof[0])))
    ensures proof != [] && PrecedesAt(proof[0], leaf, k) ==>
      (Accepts(H, proof, root, leaf) <==> Accepts(H, proof[1..], root, H([1] + proof[0] + leaf)))
    ensures proof != [] && proof[0] == leaf ==>
      (Accepts(H, proof, root, leaf) <==> Accepts(H, proof[1..], root, H([1] + leaf + leaf)))
  {
    if proof != [] {
      assert proof == [proof[0]] + proof[1..];
      FoldFront(H, proof[0], proof[1..], leaf);
      if PrecedesAt(leaf, proof[0], k) {
        FirstDifferenceDecides(leaf, proof[0], k);
      } else if PrecedesAt(proof[0], leaf, k) {
        FirstDifferenceDecides(proof[0], leaf, k);
      }
    }
  }

  /** An unsorted path entry, in bytes: a left sibling goes before the candidate, a right one after it. */
  lemma EntryRound(H: Hasher, target: Digest, sibling: Digest, candidate: Digest, rest: seq<ProofEntry>)
    ensures PathAccepts(H, [ProofEntry(target, Some(sibling), None)] + rest, candidate)
        <==> H([1] + sibling + candidate) == target && PathAccepts(H, rest, target)
    ensures PathAccepts(H, [ProofEntry(target, None, Some(sibling))] + rest, candidate)
        <==> H([1] + candidate + sibling) == target && PathAccepts(H, rest, target)
  {
    assert ([ProofEntry(target, Some(sibling), None)] + rest)[1..] == rest;
    assert ([ProofEntry(target, None, Some(sibling))] + rest)[1..] == rest;
  }

  // ----- the shape -----

  /** An odd level of two or more nodes counts its last node twice. */
  lemma OddLevelRepeatsLast(pair: Pairing, level: seq<Digest>)
    requires |level| >= 2 && |level| % 2 == 1
    ensures Root(pair, level) == Root(pair, level + [level[|level| - 1]])
  {
    var even := level + [level[|level| - 1]];
    forall i | 0 <= i < |Up(pair, level)|
      ensures Up(pair, level)[i] == Up(pair, even)[i]
    {
      OddParent(pair, level, i);
    }
    SameLevel(Up(pair, level), Up(pair, even));
    assert Root(pair, level) == Root(pair, Up(pair, level));
    assert Root(pair, even) == Root(pair, Up(pair, even));
  }

  lemma OddParent(pair: Pairing, level: seq<Digest>, i: nat)
    requires |level| % 2 == 1 && 2 * i < |level|
    ensures Parent(pair, level, i) == Parent(pair, level + [level[|level| - 1]], i)
  {
    var even := level + [level[|level| - 1]];
    assert even[2 * i] == level[2 * i] && RightOf(even, 2 * i) == RightOf(level, 2 * i);
  }

  lemma SameLevel(a: seq<Digest>, b: seq<Digest>)
    requires |a| == |b| && forall i :: 0 <= i < |a| ==> a[i] == b[i]
    ensures a == b
  {
  }

  /** A root that is alone on its level is paired with itself, once for every level still missing. */
  function Raised(pair: Pairing, root: Digest, levels: nat): Digest
    decreases levels
  {
    if levels == 0 then root else Raised(pair, pair(root, root), levels - 1)
  }

  lemma UpSplits(pair: Pairing, level: seq<Digest>, half: nat)
    requires 0 < 2 * half < |level|
    ensures Up(pair, level)[..half] == Up(pair, level[..2 * half])
    ensures Up(pair, level)[half..] == Up(pair, level[2 * half..])
  {
    forall i | 0 <= i < half
      ensures Up(pair, level)[i] == Up(pair, level[..2 * half])[i]
    {
    }
    var rest := level[2 * half..];
    forall i | 0 <= i < |Up(pair, rest)|
      ensures Up(pair, level)[half + i] == Up(pair, rest)[i]
    {
      assert Parent(pair, level, half + i) == Parent(pair, rest, i);
    }
  }

  lemma {:induction false} FullHeight(k: nat)
    ensures Pow2(k) > 0 && Height(Pow2(k)) == k
  {
    if k > 0 {
      FullHeight(k - 1);
    }
  }

  /** Going up one level from what is left over leaves one level less to raise. */
  lemma RestRises(pair: Pairing, rest: seq<Digest>, k: nat)
    requires rest != [] && k > 0 && Height(|Up(pair, rest)|) <= k - 1
    ensures Height(|rest|) <= k
    ensures Raised(pair, Root(pair, rest), k - Height(|rest|))
         == Raised(pair, Root(pair, Up(pair, rest)), k - 1 - Height(|Up(pair, rest)|))
  {
    if |rest| == 1 {
      assert Up(pair, rest) == [pair(rest[0], rest[0])];
    }
  }

  /** The level falls apart into a full tree of 2^k leaves and a rest, which is raised to the same height. */
  ghost predicate SplitsAt(pair: Pairing, level: seq<Digest>, k: nat)
    requires Pow2(k) < |level| <= 2 * Pow2(k)
  {
    var full, rest := level[..Pow2(k)], level[Pow2(k)..];
    && full != [] && Height(|rest|) <= k
    && Root(pair, level) == pair(Root(pair, full), Raised(pair, Root(pair, rest), k - Height(|rest|)))
  }

  lemma SplitStep(pair: Pairing, level: seq<Digest>, k: nat)
    requires k > 0 && Pow2(k) < |level| <= 2 * Pow2(k) && Pow2(k - 1) > 0
    requires SplitsAt(pair, Up(pair, level), k - 1)
    ensures SplitsAt(pair, level, k)
  {
    UpSplits(pair, level, Pow2(k - 1));
    RestRises(pair, level[Pow2(k)..], k);
  }

  /**
   * The whole shape of the tree, by halves instead of by levels: its left part is the largest full tree that
   * leaves something over, and what is left over is raised to the same height. Two full halves of equal size
   * make the pair of their roots.
   */
  lemma {:induction false} RootSplits(pair: Pairing, level: seq<Digest>, k: nat)
    requires Pow2(k) < |level| <= 2 * Pow2(k)
    ensures SplitsAt(pair, level, k)
    ensures |level| == 2 * Pow2(k) ==>
      Pow2(k) > 0 && Root(pair, level) == pair(Root(pair, level[..Pow2(k)]), Root(pair, level[Pow2(k)..]))
    decreases k
  {
    FullHeight(k);
    if k == 0 {
      assert level == [level[0], level[1]];
      RootOfTwo(pair, level[0], level[1]);
    } else {
      FullHeight(k - 1);
      RootSplits(pair, Up(pair, level), k - 1);
      SplitStep(pair, level, k);
    }
  }

  // ----- the leaf -----

  lemma {:induction false} LeByteAt(n: nat, width: nat, i: nat)
    requires i < width
    ensures Pow256(i) > 0 && ToLeBytes(n, width)[i] == n / Pow256(i) % 0x100
  {
    if i > 0 {
      LeByteAt(n / 0x100, width - 1, i - 1);
      DivideTwice(n, Pow256(i - 1));
    }
  }

  lemma DivideTwice(n: nat, q: nat)
    requires q > 0
    ensures n / 0x100 / q == n / (0x100 * q)
  {
    var a, r := n / 0x100, n % 0x100;
    var b, t := a / q, a % q;
    assert n == 0x100 * (b * q + t) + r;
    assert n == b * (0x100 * q) + (0x100 * t + r) && 0 <= 0x100 * t + r < 0x100 * q;
    QuotientIs(n, 0x100 * q, b, 0x100 * t + r);
  }

  lemma QuotientIs(n: nat, q: nat, b: nat, r: nat)
    requires q > 0 && n == b * q + r && r < q
    ensures n / q == b
  {
    assert (n / q - b) * q == r - n % q;
    SmallMultiple(n / q - b, q);
  }

  lemma SmallMultiple(x: int, q: int)
    requires -q < x * q < q
    ensures x == 0
  {
  }

  /** The 48 bytes: the key, then both amounts with their least significant byte first. */
  predicate SpellsOut(bytes: Bytes, e: Entry) {
    && |bytes| == 48 && bytes[..32] == e.claimant
    && forall i :: 0 <= i < 8 ==>
         && Pow256(i) > 0 && bytes[32 + i] == e.unlocked / Pow256(i) % 0x100
         && bytes[40 + i] == e.locked / Pow256(i) % 0x100
  }

  /** A claim starts from the hash, under the byte 0, of the hash of these 48 bytes. */
  lemma ClaimOnBytes(H: Hasher, root: Digest, e: Entry, bytes: Bytes, proof: seq<Digest>)
    requires SpellsOut(bytes, e)
    ensures ClaimAccepted(H, root, e, proof) <==> Accepts(H, proof, root, H([0] + H(bytes)))
    ensures SpellsOut(EntryBytes(e), e)
  {
    var encoded := EntryBytes(e);
    forall i | 0 <= i < 8
      ensures Pow256(i) > 0 && encoded[32 + i] == e.unlocked / Pow256(i) % 0x100
      ensures encoded[40 + i] == e.locked / Pow256(i) % 0x100
    {
      LeByteAt(e.unlocked, 8, i);
      LeByteAt(e.locked, 8, i);
    }
    assert encoded[..32] == e.claimant;
    SpelledAlike(encoded, bytes, e);
  }

  lemma SpelledAlike(a: Bytes, b: Bytes, e: Entry)
    requires SpellsOut(a, e) && SpellsOut(b, e)
    ensures a == b
  {
    forall j | 0 <= j < 48
      ensures a[j] == b[j]
    {
      if j < 32 {
        assert a[j] == a[..32][j] == b[..32][j] == b[j];
      } else if j < 40 {
        var i := j - 32;
        assert Pow256(i) > 0 && a[32 + i] == b[32 + i];
      } else {
        var i := j - 40;
        assert Pow256(i) > 0 && a[40 + i] == b[40 + i];
      }
    }
  }
}
