/** The Merkle tree: a recursive definition by levels, and the flat vector that lays the levels end to end. */
module MerkleTrees {
  import opened Primitives

  const LEAF_PREFIX: Bytes := [0]
  const INTERMEDIATE_PREFIX: Bytes := [1]

  function HashLeaf(H: Hasher, item: Bytes): Digest {
    H(LEAF_PREFIX + item)
  }

  function IntermediateInput(l: Digest, r: Digest): Bytes {
    INTERMEDIATE_PREFIX + l + r
  }

  function HashIntermediate(H: Hasher, l: Digest, r: Digest): Digest {
    H(IntermediateInput(l, r))
  }

  /** The bytes hashed for a pair of siblings: in sorted mode the smaller digest comes first. */
  function PairInput(sorted: bool, l: Digest, r: Digest): Bytes {
    if sorted && !LexLeq(l, r) then IntermediateInput(r, l) else IntermediateInput(l, r)
  }

  /** How two siblings are combined; the level structure does not depend on it. */
  type Pairing = (Digest, Digest) -> Digest

  function PairHash(H: Hasher, sorted: bool): Pairing {
    (l: Digest, r: Digest) => H(PairInput(sorted, l, r))
  }

  lemma PairHashIs(H: Hasher, sorted: bool, l: Digest, r: Digest)
    ensures PairHash(H, sorted)(l, r) == H(PairInput(sorted, l, r))
  {
  }

  // ----- the tree by levels -----

  function Leaves(H: Hasher, items: seq<Bytes>): (leaves: seq<Digest>)
    ensures |leaves| == |items|
    ensures forall i :: 0 <= i < |items| ==> leaves[i] == HashLeaf(H, items[i])
  {
    seq(|items|, i requires 0 <= i < |items| => HashLeaf(H, items[i]))
  }

  /** The right partner of the node at an even index: the last node of an odd level is its own partner. */
  function RightOf(level: seq<Digest>, j: nat): Digest
    requires j < |level|
  {
    if j + 1 < |level| then level[j + 1] else level[j]
  }

  function Parent(pair: Pairing, level: seq<Digest>, i: nat): Digest
    requires 2 * i < |level|
  {
    pair(level[2 * i], RightOf(level, 2 * i))
  }

  /** The level above. */
  function Up(pair: Pairing, level: seq<Digest>): (up: seq<Digest>)
    ensures |up| == (|level| + 1) / 2
    ensures forall i :: 0 <= i < |up| ==> up[i] == Parent(pair, level, i)
  {
    seq((|level| + 1) / 2, i requires 0 <= i < (|level| + 1) / 2 => Parent(pair, level, i))
  }

  function Root(pair: Pairing, level: seq<Digest>): Digest
    requires level != []
    decreases |level|
  {
    if |level| == 1 then level[0] else Root(pair, Up(pair, level))
  }

  /** All levels from this one to the root, laid end to end. */
  function Flat(pair: Pairing, level: seq<Digest>): seq<Digest>
    requires level != []
    decreases |level|
  {
    if |level| == 1 then level else level + Flat(pair, Up(pair, level))
  }

  lemma {:induction false} FlatShape(pair: Pairing, level: seq<Digest>)
    requires level != []
    ensures |Flat(pair, level)| == NodeCount(|level|)
    ensures level <= Flat(pair, level)
    decreases |level|
  {
    if |level| > 1 {
      FlatShape(pair, Up(pair, level));
    }
  }

  lemma {:induction false} FlatEndsWithRoot(pair: Pairing, level: seq<Digest>)
    requires level != []
    ensures var flat := Flat(pair, level);
            flat != [] && flat[|flat| - 1] == Root(pair, level)
    decreases |level|
  {
    if |level| > 1 {
      FlatEndsWithRoot(pair, Up(pair, level));
    }
  }

  // ----- the flat vector -----

  datatype MerkleTree = MerkleTree(leafCount: nat, nodes: seq<Digest>)

  ghost predicate LaysOut(mt: MerkleTree, pair: Pairing, leaves: seq<Digest>) {
    mt.leafCount == |leaves| && mt.nodes == if leaves == [] then [] else Flat(pair, leaves)
  }

  /** The tree that `New` must build. */
  function TreeOf(H: Hasher, items: seq<Bytes>, sorted: bool): MerkleTree {
    MerkleTree(|items|, if items == [] then [] else Flat(PairHash(H, sorted), Leaves(H, items)))
  }

  function NextLevelLen(levelLen: nat): nat {
    if levelLen == 1 then 0 else (levelLen + 1) / 2
  }

  /** The vector holds every level below `start`, and from `start` on exactly one whole level. */
  ghost predicate BuiltUpTo(pair: Pairing, leaves: seq<Digest>, nodes: seq<Digest>, start: nat) {
    leaves != [] && start < |nodes| && nodes[..start] + Flat(pair, nodes[start..]) == Flat(pair, leaves)
  }

  lemma ConcatAssociates<T>(a: seq<T>, b: seq<T>, c: seq<T>)
    ensures a + b + c == a + (b + c)
  {
  }

  lemma LevelAdded(pair: Pairing, leaves: seq<Digest>, nodes: seq<Digest>, start: nat)
    requires BuiltUpTo(pair, leaves, nodes, start) && |nodes| - start > 1
    ensures BuiltUpTo(pair, leaves, nodes + Up(pair, nodes[start..]), |nodes|)
  {
    var level, up := nodes[start..], Up(pair, nodes[start..]);
    var grown := nodes + up;
    assert grown[|nodes|..] == up && grown[..|nodes|] == nodes;
    assert nodes == nodes[..start] + level;
    ConcatAssociates(nodes[..start], level, Flat(pair, up));
  }

  lemma LastLevel(pair: Pairing, leaves: seq<Digest>, nodes: seq<Digest>, start: nat)
    requires BuiltUpTo(pair, leaves, nodes, start) && |nodes| - start == 1
    ensures nodes == Flat(pair, leaves)
  {
    assert nodes == nodes[..start] + nodes[start..];
  }

  lemma AppendNext<T>(done: seq<T>, more: seq<T>, i: nat)
    requires i < |more|
    ensures done + more[..i] + [more[i]] == done + more[..i + 1]
  {
  }

  method New(H: Hasher, items: seq<Bytes>, sorted: bool) returns (mt: MerkleTree)
    ensures mt == TreeOf(H, items, sorted)
  {
    var nodes: seq<Digest> := [];
    for k := 0 to |items|
      invariant nodes == [] + Leaves(H, items)[..k]
    {
      var hash := HashLeaf(H, items[k]);
      AppendNext([], Leaves(H, items), k);
      nodes := nodes + [hash];
    }
    ghost var leaves, pair := Leaves(H, items), PairHash(H, sorted);
    assert nodes == leaves && nodes[..0] + nodes[0..] == nodes;

    var levelLen := NextLevelLen(|items|);
    var levelStart := |items|;
    var prevLevelLen: nat := |items|;
    var prevLevelStart: nat := 0;
    while levelLen > 0
      invariant levelLen == NextLevelLen(prevLevelLen)
      invariant prevLevelStart + prevLevelLen == levelStart == |nodes|
      invariant if items == [] then nodes == [] else BuiltUpTo(pair, leaves, nodes, prevLevelStart)
      decreases prevLevelLen
    {
      ghost var done := nodes;
      ghost var up := Up(pair, done[prevLevelStart..]);
      for i := 0 to levelLen
        invariant nodes == done + up[..i]
      {
        var prevLevelIdx := 2 * i;
        var lsib := nodes[prevLevelStart + prevLevelIdx];
        var rsib: Digest;
        if prevLevelIdx + 1 < prevLevelLen {
          rsib := nodes[prevLevelStart + prevLevelIdx + 1];
        } else {
          rsib := nodes[prevLevelStart + prevLevelIdx];
        }
        var hash: Digest;
        if sorted {
          if LexLeq(lsib, rsib) {
            hash := HashIntermediate(H, lsib, rsib);
          } else {
            hash := HashIntermediate(H, rsib, lsib);
          }
        } else {
          hash := HashIntermediate(H, lsib, rsib);
        }
        PairHashIs(H, sorted, lsib, rsib);
        assert hash == up[i];
        AppendNext(done, up, i);
        nodes := nodes + [hash];
      }
      assert nodes == done + up;
      LevelAdded(pair, leaves, done, prevLevelStart);
      prevLevelStart := levelStart;
      prevLevelLen := levelLen;
      levelStart := levelStart + levelLen;
      levelLen := NextLevelLen(levelLen);
    }
    if items != [] {
      LastLevel(pair, leaves, nodes, prevLevelStart);
    }
    mt := MerkleTree(|items|, nodes);
  }

  function GetRoot(mt: MerkleTree): Option<Digest> {
    if mt.nodes == [] then None else Some(mt.nodes[|mt.nodes| - 1])
  }

  /** The last pushed node is the root of the recursive tree; only the empty tree has none. */
  lemma RootIsLast(H: Hasher, items: seq<Bytes>, sorted: bool)
    ensures GetRoot(TreeOf(H, items, sorted))
         == if items == [] then None else Some(Root(PairHash(H, sorted), Leaves(H, items)))
  {
    if items != [] {
      FlatEndsWithRoot(PairHash(H, sorted), Leaves(H, items));
    }
  }

  // ----- paths -----

  datatype ProofEntry = ProofEntry(target: Digest, left: Option<Digest>, right: Option<Digest>) {
    /** The assertion `ProofEntry::new` makes: exactly one sibling is present. */
    predicate OneSibling() { left.None? != right.None? }
  }

  /** The sibling a path needs at node i, on its left or on its right. */
  function SiblingsOf(level: seq<Digest>, i: nat): (Option<Digest>, Option<Digest>)
    requires i < |level|
  {
    if i % 2 == 0 then (None, Some(RightOf(level, i))) else (Some(level[i - 1]), None)
  }

  function EntryAbove(pair: Pairing, level: seq<Digest>, i: nat): (entry: ProofEntry)
    requires i < |level|
    ensures entry.OneSibling()
  {
    var (l, r) := SiblingsOf(level, i);
    ProofEntry(Up(pair, level)[i / 2], l, r)
  }

  /** The path from node i of this level to the root. */
  function PathOf(pair: Pairing, level: seq<Digest>, i: nat): (path: seq<ProofEntry>)
    requires i < |level|
    ensures forall k :: 0 <= k < |path| ==> path[k].OneSibling()
    decreases |level|
  {
    if |level| == 1 then [] else [EntryAbove(pair, level, i)] + PathOf(pair, Up(pair, level), i / 2)
  }

  /** What the walk has yet to add to its path when it stands on node i of a level, with the siblings seen below. */
  function PathFrom(pair: Pairing, level: seq<Digest>, i: nat, lsib: Option<Digest>, rsib: Option<Digest>)
    : seq<ProofEntry>
    requires i < |level|
  {
    (if lsib.None? && rsib.None? then [] else [ProofEntry(level[i], lsib, rsib)]) + PathOf(pair, level, i)
  }

  lemma PathPush(pair: Pairing, level: seq<Digest>, i: nat, lsib: Option<Digest>, rsib: Option<Digest>,
                 path: seq<ProofEntry>)
    requires i < |level|
    ensures path + PathFrom(pair, level, i, lsib, rsib)
         == (if lsib.None? && rsib.None? then path else path + [ProofEntry(level[i], lsib, rsib)])
            + PathOf(pair, level, i)
  {
  }

  lemma PathStep(pair: Pairing, level: seq<Digest>, i: nat)
    requires i < |level| && |level| > 1
    ensures var (l, r) := SiblingsOf(level, i);
            PathOf(pair, level, i) == PathFrom(pair, Up(pair, level), i / 2, l, r)
  {
  }

  /**
   * The walk stands on node i of `level`, which the vector holds from `start` on,
   * and `path` lacks only what is above.
   */
  ghost predicate Walking(pair: Pairing, nodes: seq<Digest>, whole: seq<ProofEntry>,
                          start: nat, level: seq<Digest>, i: nat,
                          lsib: Option<Digest>, rsib: Option<Digest>, path: seq<ProofEntry>) {
    && i < |level| && start <= |nodes|
    && nodes[start..] == Flat(pair, level)
    && whole == path + PathFrom(pair, level, i, lsib, rsib)
  }

  /** One round of the walk: emit the entry for this level, remember the sibling, go up. */
  lemma WalkStep(pair: Pairing, nodes: seq<Digest>, whole: seq<ProofEntry>,
                 start: nat, level: seq<Digest>, i: nat,
                 lsib: Option<Digest>, rsib: Option<Digest>, path: seq<ProofEntry>)
    requires Walking(pair, nodes, whole, start, level, i, lsib, rsib, path)
    ensures i < |level| && start + |level| <= |nodes| && nodes[start..start + |level|] == level
    ensures var path' := if lsib.None? && rsib.None? then path else path + [ProofEntry(level[i], lsib, rsib)];
            if |level| == 1 then whole == path'
            else
              var (l, r) := SiblingsOf(level, i);
              Walking(pair, nodes, whole, start + |level|, Up(pair, level), i / 2, l, r, path')
  {
    FlatShape(pair, level);
    assert nodes[start..][..|level|] == nodes[start..start + |level|];
    assert nodes[start..][|level|..] == nodes[start + |level|..];
    PathPush(pair, level, i, lsib, rsib, path);
    if |level| > 1 {
      PathStep(pair, level, i);
    }
  }

  /** Walks the flat vector with running offsets. The ghost arguments say which tree the vector lays out. */
  method FindPath(mt: MerkleTree, index: nat, ghost pair: Pairing, ghost leaves: seq<Digest>)
    returns (result: Option<seq<ProofEntry>>)
    requires LaysOut(mt, pair, leaves)
    ensures result == if index >= |leaves| then None else Some(PathOf(pair, leaves, index))
  {
    if index >= mt.leafCount {
      return None;
    }
    ghost var here := leaves;  // the level the walk stands on
    ghost var whole := PathOf(pair, here, index);
    var levelLen := mt.leafCount;
    var levelStart: nat := 0;
    var path: seq<ProofEntry> := [];
    var nodeIndex: nat := index;
    var lsib: Option<Digest>, rsib: Option<Digest> := None, None;
    assert mt.nodes[0..] == mt.nodes;
    while levelLen > 0
      invariant lsib.None? || rsib.None?
      invariant if levelLen == 0 then path == whole else
        && levelLen == |here|
        && Walking(pair, mt.nodes, whole, levelStart, here, nodeIndex, lsib, rsib, path)
      decreases levelLen
    {
      WalkStep(pair, mt.nodes, whole, levelStart, here, nodeIndex, lsib, rsib, path);
      var level := mt.nodes[levelStart..levelStart + levelLen];
      assert level == here;
      var target := level[nodeIndex];
      if lsib.Some? || rsib.Some? {
        assert ProofEntry(target, lsib, rsib).OneSibling();
        path := path + [ProofEntry(target, lsib, rsib)];
      }
      var siblings := SiblingsOf(level, nodeIndex);
      lsib, rsib := siblings.0, siblings.1;
      here := Up(pair, here);
      nodeIndex := nodeIndex / 2;
      levelStart := levelStart + levelLen;
      levelLen := NextLevelLen(levelLen);
    }
    return Some(path);
  }

  // ----- number of nodes and capacity -----

  /** The number of nodes pushed for n leaves. */
  function NodeCount(n: nat): nat {
    if n <= 1 then n else n + NodeCount((n + 1) / 2)
  }

  function FloorLog2(n: nat): nat
    requires n > 0
  {
    if n == 1 then 0 else 1 + FloorLog2(n / 2)
  }

  /** `calculate_vec_capacity`, with the truncated floating-point logarithm as an argument. */
  function VecCapacity(leafCount: nat, log2Estimate: nat): nat {
    if leafCount > 0 then log2Estimate + 2 * leafCount + 1 else 0
  }

  lemma {:induction false} NodeCountBound(n: nat)
    requires n >= 2
    ensures NodeCount(n) <= 2 * n - 1 + FloorLog2(n - 1)
  {
    if n == 3 {
      assert NodeCount(2) == 3;
    } else if n > 3 {
      NodeCountBound((n + 1) / 2);
      assert (n - 1) / 2 == (n + 1) / 2 - 1;
    }
  }

  function Pow2(k: nat): nat {
    if k == 0 then 1 else 2 * Pow2(k - 1)
  }

  /** One more leaf than a full tree is the worst case: there the bound is met exactly. */
  lemma {:induction false} NodeCountTight(k: nat)
    ensures NodeCount(Pow2(k) + 1) == 2 * (Pow2(k) + 1) - 1 + k
    ensures Pow2(k) > 0 && FloorLog2(Pow2(k)) == k
    ensures k > 0 ==> FloorLog2(Pow2(k) + 1) == k
  {
    if k == 1 {
      assert NodeCount(2) == 3;
    } else if k > 1 {
      NodeCountTight(k - 1);
      var n := Pow2(k) + 1;
      assert (n + 1) / 2 == Pow2(k - 1) + 1;
      assert NodeCount(n) == n + NodeCount((n + 1) / 2);
      assert n / 2 == Pow2(k - 1);
    }
  }

  lemma {:induction false} FloorLog2Monotone(m: nat, n: nat)
    requires 0 < m <= n
    ensures FloorLog2(m) <= FloorLog2(n)
  {
    if m > 1 {
      FloorLog2Monotone(m / 2, n / 2);
    }
  }

  /** The reserved capacity covers every push, for every leaf count, even when the estimate is two too low. */
  lemma CapacitySuffices(n: nat, log2Estimate: nat)
    requires n > 0 ==> log2Estimate + 2 >= FloorLog2(n)
    ensures NodeCount(n) <= VecCapacity(n, log2Estimate)
    ensures n == 0 ==> VecCapacity(n, log2Estimate) == 0
    ensures n > 0 ==> NodeCount(n) <= 2 * n + FloorLog2(n)
  {
    if n >= 2 {
      NodeCountBound(n);
      FloorLog2Monotone(n - 1, n);
    }
  }

  /** And three too low is not enough: some leaf count then needs more than was reserved. */
  lemma CapacityMarginIsExact(k: nat, log2Estimate: nat)
    requires k >= 1
    ensures NodeCount(Pow2(k) + 1) <= VecCapacity(Pow2(k) + 1, log2Estimate)
        <==> log2Estimate + 2 >= FloorLog2(Pow2(k) + 1)
  {
    NodeCountTight(k);
  }

  // ----- path length -----

  function Height(n: nat): nat {
    if n <= 1 then 0 else 1 + Height((n + 1) / 2)
  }

  lemma {:induction false} PathLength(pair: Pairing, level: seq<Digest>, i: nat)
    requires i < |level|
    ensures |PathOf(pair, level, i)| == Height(|level|)
    decreases |level|
  {
    if |level| > 1 {
      PathLength(pair, Up(pair, level), i / 2);
    }
  }

  /** Height is the ceiling of the base-2 logarithm. */
  lemma {:induction false} HeightIsCeilLog2(n: nat)
    requires n > 0
    ensures n <= Pow2(Height(n))
    ensures n > 1 ==> Height(n) > 0 && Pow2(Height(n) - 1) < n
  {
    if n > 1 {
      HeightIsCeilLog2((n + 1) / 2);
    }
  }

  lemma {:induction false} Pow2Monotone(j: nat, k: nat)
    requires j <= k
    ensures Pow2(j) <= Pow2(k)
  {
    if j < k {
      Pow2Monotone(j, k - 1);
    }
  }

  lemma Pow2Plus8(k: nat)
    ensures Pow2(k + 8) == 0x100 * Pow2(k)
  {
    assert Pow2(k + 4) == 2 * Pow2(k + 3) == 4 * Pow2(k + 2) == 8 * Pow2(k + 1);
    assert Pow2(k + 8) == 2 * Pow2(k + 7) == 4 * Pow2(k + 6) == 8 * Pow2(k + 5);
  }

  lemma Pow2Of32()
    ensures Pow2(32) == 0x1_0000_0000
  {
    Pow2Plus8(0);
    Pow2Plus8(8);
    Pow2Plus8(16);
    Pow2Plus8(24);
  }

  /** A tree within the validated node limit has paths of at most 32 entries. */
  lemma PathFitsHeight32(pair: Pairing, level: seq<Digest>, i: nat)
    requires i < |level| <= 0xFFFF_FFFF
    ensures |PathOf(pair, level, i)| <= 32
  {
    PathLength(pair, level, i);
    HeightIsCeilLog2(|level|);
    var h := Height(|level|);
    if h > 32 {
      Pow2Monotone(32, h - 1);
      Pow2Of32();
    }
  }
}
