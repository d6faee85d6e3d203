/**
The Merkle tree with odd-node promotion, its inclusion paths, and the replay a verifier
performs (packages/distribution/src/commitment.ts).

The source folds level by level. Its partner here is the recursive tree of section 2.1 of
RFC 6962 and the audit path of its section 2.1.1: the fold computes the same tree, the
prover the same path, and the replay accepts exactly that path.
*/
module Merkle {
  import opened Prelude
  import opened Digests

  // ---------------------------------------------------------------- the level fold

  /** Width of the level above one of width n: `Math.ceil(n / 2)`. */
  function Above(n: nat): nat {
    (n + 1) / 2
  }

  function FoldLevel(level: seq<Digest>): (next: seq<Digest>)
    ensures |next| == Above(|level|)
  {
    seq(Above(|level|), j requires 0 <= j < Above(|level|) =>
      if 2 * j + 1 < |level| then Node(level[2 * j], level[2 * j + 1]) else level[2 * j])
  }

  function MerkleRoot(leaves: seq<Digest>): Digest
    requires |leaves| > 0
    decreases |leaves|
  {
    if |leaves| == 1 then leaves[0] else MerkleRoot(FoldLevel(leaves))
  }

  method ComputeFoldLevel(level: seq<Digest>) returns (next: seq<Digest>)
    ensures next == FoldLevel(level)
  {
    next := [];
    var i := 0;
    while i < |level|
      invariant 0 <= i <= |level| + 1 && i % 2 == 0
      invariant |next| == i / 2
      invariant forall j :: 0 <= j < |next| ==> next[j] == FoldLevel(level)[j]
      decreases |level| - i
    {
      if i + 1 < |level| {
        next := next + [Node(level[i], level[i + 1])];
      } else {
        next := next + [level[i]];
      }
      i := i + 2;
    }
  }

  method ComputeMerkleRoot(leaves: seq<Digest>) returns (root: Digest)
    requires |leaves| > 0
    ensures root == MerkleRoot(leaves)
  {
    var level := leaves;
    while |level| > 1
      invariant |level| > 0
      invariant MerkleRoot(level) == MerkleRoot(leaves)
    {
      level := ComputeFoldLevel(level);
    }
    root := level[0];
  }

  // ---------------------------------------------------------------- the recursive tree

  predicate IsPowerOfTwo(k: nat) {
    k == 1 || (k > 0 && k % 2 == 0 && IsPowerOfTwo(k / 2))
  }

  /** The largest power of two strictly below n. */
  function SplitPoint(n: nat): (k: nat)
    requires n >= 2
    ensures IsPowerOfTwo(k) && k < n <= 2 * k
  {
    SplitFrom(n, 1)
  }

  function SplitFrom(n: nat, k: nat): (r: nat)
    requires IsPowerOfTwo(k) && k < n
    ensures IsPowerOfTwo(r) && r < n <= 2 * r
    decreases n - k
  {
    if 2 * k < n then SplitFrom(n, 2 * k) else k
  }

  lemma {:induction false} SplitUnique(n: nat, j: nat, k: nat)
    requires IsPowerOfTwo(j) && j < n <= 2 * j
    requires IsPowerOfTwo(k) && k < n <= 2 * k
    ensures j == k
  {
    if j > 1 && k > 1 {
      SplitUnique((n + 1) / 2, j / 2, k / 2);
    }
  }

  /** MTH of RFC 6962 section 2.1, over leaf hashes. */
  function Mth(leaves: seq<Digest>): Digest
    requires |leaves| > 0
    decreases |leaves|
  {
    if |leaves| == 1 then leaves[0]
    else
      var k := SplitPoint(|leaves|);
      Node(Mth(leaves[..k]), Mth(leaves[k..]))
  }

  /** PATH of RFC 6962 section 2.1.1. */
  function AuditPath(m: nat, leaves: seq<Digest>): seq<Digest>
    requires m < |leaves|
    decreases |leaves|
  {
    if |leaves| == 1 then []
    else
      var k := SplitPoint(|leaves|);
      if m < k then AuditPath(m, leaves[..k]) + [Mth(leaves[k..])]
      else AuditPath(m - k, leaves[k..]) + [Mth(leaves[..k])]
  }

  /** Halving a level commutes with splitting it where RFC 6962 splits. */
  lemma FoldSplits(leaves: seq<Digest>, k: nat)
    requires |leaves| > 2 && k == SplitPoint(|leaves|)
    ensures k % 2 == 0 && k / 2 == SplitPoint(Above(|leaves|))
    ensures FoldLevel(leaves)[..k / 2] == FoldLevel(leaves[..k])
    ensures FoldLevel(leaves)[k / 2..] == FoldLevel(leaves[k..])
  {
    SplitUnique(Above(|leaves|), k / 2, SplitPoint(Above(|leaves|)));
  }

  lemma {:induction false} MthOfFold(leaves: seq<Digest>)
    requires |leaves| > 1
    ensures Mth(FoldLevel(leaves)) == Mth(leaves)
    decreases |leaves|
  {
    if |leaves| > 2 {
      var k := SplitPoint(|leaves|);
      FoldSplits(leaves, k);
      MthOfFold(leaves[..k]);
      if |leaves[k..]| > 1 {
        MthOfFold(leaves[k..]);
      }
    }
  }

  /** The iterative fold with promotion computes the tree of RFC 6962 section 2.1. */
  lemma {:induction false} FoldIsRfc6962(leaves: seq<Digest>)
    requires |leaves| > 0
    ensures MerkleRoot(leaves) == Mth(leaves)
    decreases |leaves|
  {
    if |leaves| > 1 {
      MthOfFold(leaves);
      FoldIsRfc6962(FoldLevel(leaves));
    }
  }

  // ---------------------------------------------------------------- proving

  /** Whether the node under the cursor is the odd one out, carried up unhashed. */
  predicate Promoted(cursor: nat, width: nat) {
    cursor + 1 == width && width % 2 == 1
  }

  function SiblingOf(cursor: nat): (sibling: int) {
    if cursor % 2 == 0 then cursor + 1 else cursor - 1
  }

  /** The node above a cursor is its node promoted, or its node and sibling hashed in order. */
  lemma FoldAt(level: seq<Digest>, cursor: nat)
    requires cursor < |level| && |level| > 1
    ensures Promoted(cursor, |level|) ==> FoldLevel(level)[cursor / 2] == level[cursor]
    ensures !Promoted(cursor, |level|) ==>
      && 0 <= SiblingOf(cursor) < |level|
      && FoldLevel(level)[cursor / 2] == Join(cursor, level[cursor], level[SiblingOf(cursor)])
  {
    var j := cursor / 2;
    assert cursor == 2 * j || cursor == 2 * j + 1;
  }

  /** A node and its sibling under one parent, left and right by the cursor's parity. */
  function Join(cursor: nat, hash: Digest, sibling: Digest): Digest {
    if cursor % 2 == 0 then Node(hash, sibling) else Node(sibling, hash)
  }

  function ProvePath(level: seq<Digest>, cursor: nat): seq<Digest>
    requires cursor < |level|
    decreases |level|
  {
    if |level| == 1 then []
    else
      (if Promoted(cursor, |level|) then [] else [level[SiblingOf(cursor)]])
      + ProvePath(FoldLevel(level), cursor / 2)
  }

  /** The sibling the prover records at the bottom level, if it records one. */
  function FirstSibling(m: nat, leaves: seq<Digest>): seq<Digest>
    requires m < |leaves|
  {
    if Promoted(m, |leaves|) || |leaves| == 1 then [] else [leaves[SiblingOf(m)]]
  }

  function HexPath(path: seq<Digest>): seq<Hex> {
    seq(|path|, i requires 0 <= i < |path| => ToHex(path[i]))
  }

  lemma HexPathStep(level: seq<Digest>, cursor: nat)
    requires cursor < |level| && |level| > 1
    ensures HexPath(ProvePath(level, cursor))
         == HexPath(FirstSibling(cursor, level)) + HexPath(ProvePath(FoldLevel(level), cursor / 2))
  {
    HexPathConcat(FirstSibling(cursor, level), ProvePath(FoldLevel(level), cursor / 2));
  }

  lemma HexPathConcat(a: seq<Digest>, b: seq<Digest>)
    ensures HexPath(a + b) == HexPath(a) + HexPath(b)
  {
  }

  /** The sibling one level contributes to the path: none where the node is promoted. */
  method PathEntry(level: seq<Digest>, cursor: nat) returns (entry: seq<Hex>)
    requires cursor < |level| && |level| > 1
    ensures entry == HexPath(FirstSibling(cursor, level))
  {
    FoldAt(level, cursor);
    entry := [];
    if !Promoted(cursor, |level|) {
      var sibling := if cursor % 2 == 0 then cursor + 1 else cursor - 1;
      assert sibling == SiblingOf(cursor);
      entry := [ToHex(level[sibling])];
    }
  }

  method ComputeProvePath(leaves: seq<Digest>, index: nat) returns (path: seq<Hex>)
    requires index < |leaves|
    ensures path == HexPath(ProvePath(leaves, index))
  {
    hide FoldLevel, HexPath, FirstSibling;
    var level := leaves;
    var cursor := index;
    path := [];
    ghost var rest := HexPath(ProvePath(leaves, index));
    while |level| > 1
      invariant 0 <= cursor < |level|
      invariant rest == HexPath(ProvePath(level, cursor))
      invariant path + rest == HexPath(ProvePath(leaves, index))
      decreases |level|
    {
      HexPathStep(level, cursor);
      rest := HexPath(ProvePath(FoldLevel(level), cursor / 2));
      var entry := PathEntry(level, cursor);
      ConcatAssociates(path, entry, rest);
      path := path + entry;
      level := ComputeFoldLevel(level);
      cursor := cursor / 2;
    }
    NoPath(level, cursor);
    ConcatUnit(path);
  }

  lemma NoPath(level: seq<Digest>, cursor: nat)
    requires cursor < |level| == 1
    ensures HexPath(ProvePath(level, cursor)) == []
  {
  }

  lemma FirstSiblingLeft(m: nat, leaves: seq<Digest>, k: nat)
    requires m < k < |leaves| && k % 2 == 0
    ensures FirstSibling(m, leaves[..k]) == FirstSibling(m, leaves)
  {
  }

  lemma EvenShift(m: nat, k: nat)
    requires k <= m && k % 2 == 0
    ensures (m - k) % 2 == m % 2
    ensures (m - k) / 2 == m / 2 - k / 2
  {
  }

  lemma FirstSiblingRight(m: nat, leaves: seq<Digest>, k: nat)
    requires 2 < |leaves| && 0 < k <= m < |leaves| && k % 2 == 0
    ensures FirstSibling(m - k, leaves[k..]) == FirstSibling(m, leaves)
  {
    EvenShift(m, k);
    EvenShift(|leaves|, k);
    assert Promoted(m - k, |leaves[k..]|) <==> Promoted(m, |leaves|);
    assert SiblingOf(m - k) == SiblingOf(m) - k;
  }

  /** Folding a non-empty row keeps its tree, a single node included. */
  lemma MthKept(leaves: seq<Digest>)
    requires |leaves| > 0
    ensures Mth(FoldLevel(leaves)) == Mth(leaves)
  {
    if |leaves| > 1 {
      MthOfFold(leaves);
    } else {
      assert FoldLevel(leaves) == leaves;
    }
  }

  /** The prover's bottom step is the audit path's, at this position of this row. */
  ghost predicate StepsLikeAudit(m: nat, leaves: seq<Digest>)
    requires m < |leaves|
  {
    AuditPath(m, leaves) == FirstSibling(m, leaves) + AuditPath(m / 2, FoldLevel(leaves))
  }

  lemma StepInLeftHalf(m: nat, leaves: seq<Digest>, k: nat)
    requires 2 < |leaves| && k == SplitPoint(|leaves|) && m < k
    requires StepsLikeAudit(m, leaves[..k])
    ensures StepsLikeAudit(m, leaves)
  {
    FoldSplits(leaves, k);
    FirstSiblingLeft(m, leaves, k);
    MthKept(leaves[k..]);
    hide FoldLevel, FirstSibling, IsPowerOfTwo;
    var rest := AuditPath(m / 2, FoldLevel(leaves[..k]));
    ConcatAssociates(FirstSibling(m, leaves), rest, [Mth(leaves[k..])]);
  }

  lemma StepInRightHalf(m: nat, leaves: seq<Digest>, k: nat)
    requires 2 < |leaves| && k == SplitPoint(|leaves|) && k <= m < |leaves|
    requires StepsLikeAudit(m - k, leaves[k..])
    ensures StepsLikeAudit(m, leaves)
  {
    hide FoldLevel, FirstSibling, IsPowerOfTwo;
    FoldSplits(leaves, k);
    FirstSiblingRight(m, leaves, k);
    MthKept(leaves[..k]);
    EvenShift(m, k);
    var rest := AuditPath((m - k) / 2, FoldLevel(leaves[k..]));
    ConcatAssociates(FirstSibling(m, leaves), rest, [Mth(leaves[..k])]);
  }

  /** One step of the prover is one step of the audit path. */
  lemma {:induction false} AuditPathOfFold(m: nat, leaves: seq<Digest>)
    requires 1 < |leaves| && m < |leaves|
    ensures StepsLikeAudit(m, leaves)
    decreases |leaves|
  {
    if |leaves| == 2 {
      assert AuditPath(m, leaves) == [leaves[1 - m]];
    } else {
      var k := SplitPoint(|leaves|);
      FoldSplits(leaves, k);
      hide StepsLikeAudit;
      if m < k {
        AuditPathOfFold(m, leaves[..k]);
        StepInLeftHalf(m, leaves, k);
      } else {
        if |leaves[k..]| > 1 {
          AuditPathOfFold(m - k, leaves[k..]);
        } else {
          NothingToStep(leaves[k..]);
        }
        StepInRightHalf(m, leaves, k);
      }
    }
  }

  lemma NothingToStep(leaves: seq<Digest>)
    requires |leaves| == 1
    ensures StepsLikeAudit(0, leaves)
  {
    assert FoldLevel(leaves) == leaves;
  }

  /** The prover's path is the audit path of RFC 6962 section 2.1.1. */
  lemma {:induction false} PathIsRfc6962(leaves: seq<Digest>, index: nat)
    requires index < |leaves|
    ensures ProvePath(leaves, index) == AuditPath(index, leaves)
    decreases |leaves|
  {
    if |leaves| > 1 {
      AuditPathOfFold(index, leaves);
      PathIsRfc6962(FoldLevel(leaves), index / 2);
    }
  }

  // ---------------------------------------------------------------- verifying

  /**
  The verifier's loop: fold a hash up a tree of the given width along decoded siblings.
  None where a sibling is missing, is not 32 bytes, or is left over.
  */
  function Replay(hash: Digest, cursor: nat, width: nat, path: seq<Hex>): Option<Digest>
    requires cursor < width
    decreases width
  {
    if width == 1 then (if path == [] then Some(hash) else None)
    else if Promoted(cursor, width) then Replay(hash, cursor / 2, Above(width), path)
    else if path == [] then None
    else
      match Decode(path[0])
      case Whole(sibling) =>
        Replay(Join(cursor, hash, sibling), cursor / 2, Above(width), path[1..])
      case _ => None
  }

  method ComputeReplay(leaf: Digest, index: nat, count: nat, path: seq<Hex>)
    returns (root: Option<Digest>)
    requires index < count
    ensures root == Replay(leaf, index, count, path)
  {
    var hash, cursor, width, consumed := leaf, index, count, 0;
    while width > 1
      invariant cursor < width && consumed <= |path|
      invariant Replay(hash, cursor, width, path[consumed..]) == Replay(leaf, index, count, path)
      decreases width
    {
      if !Promoted(cursor, width) {
        if consumed == |path| {
          return None;
        }
        var sibling := Decode(path[consumed]);
        if !sibling.Whole? {
          return None;
        }
        consumed := consumed + 1;
        hash := if cursor % 2 == 0 then Node(hash, sibling.digest) else Node(sibling.digest, hash);
      }
      width := Above(width);
      cursor := cursor / 2;
    }
    if consumed != |path| {
      return None;
    }
    return Some(hash);
  }

  /** Completeness: the prover's own path replays to the root, at every width and position. */
  lemma {:induction false} ReplayComplete(level: seq<Digest>, cursor: nat)
    requires cursor < |level|
    ensures Replay(level[cursor], cursor, |level|, HexPath(ProvePath(level, cursor)))
         == Some(MerkleRoot(level))
    decreases |level|
  {
    if |level| > 1 {
      var next := FoldLevel(level);
      var path := HexPath(ProvePath(level, cursor));
      FoldAt(level, cursor);
      ReplayComplete(next, cursor / 2);
      if Promoted(cursor, |level|) {
        assert path == HexPath(ProvePath(next, cursor / 2));
      } else {
        assert path[0] == ToHex(level[SiblingOf(cursor)]);
        assert path[1..] == HexPath(ProvePath(next, cursor / 2));
      }
    }
  }

  /** The texts decode, entry by entry, to the given digests. */
  ghost predicate DecodesTo(path: seq<Hex>, digests: seq<Digest>) {
    |path| == |digests| && forall i :: 0 <= i < |path| ==> Decode(path[i]) == Whole(digests[i])
  }

  /**
  Soundness: whatever replays to the root of a level is the node standing at that position,
  along a path that decodes to the honest one.
  */
  lemma {:induction false} ReplaySound(level: seq<Digest>, hash: Digest, cursor: nat, path: seq<Hex>)
    requires cursor < |level|
    requires Replay(hash, cursor, |level|, path) == Some(MerkleRoot(level))
    ensures hash == level[cursor]
    ensures DecodesTo(path, ProvePath(level, cursor))
    decreases |level|
  {
    if |level| > 1 {
      var next := FoldLevel(level);
      FoldAt(level, cursor);
      if Promoted(cursor, |level|) {
        ReplaySound(next, hash, cursor / 2, path);
        assert ProvePath(level, cursor) == ProvePath(next, cursor / 2);
      } else {
        var sibling := Decode(path[0]).digest;
        ReplaySound(next, Join(cursor, hash, sibling), cursor / 2, path[1..]);
        DecodesCons(path, sibling, ProvePath(next, cursor / 2));
      }
    }
  }

  lemma DecodesCons(path: seq<Hex>, first: Digest, rest: seq<Digest>)
    requires path != [] && Decode(path[0]) == Whole(first) && DecodesTo(path[1..], rest)
    ensures DecodesTo(path, [first] + rest)
  {
    forall i | 0 <= i < |path|
      ensures Decode(path[i]) == Whole(([first] + rest)[i])
    {
      if i > 0 {
        assert path[i] == path[1..][i - 1];
      }
    }
  }

  /** Two leaf rows of one length with one root are one row: the tree cannot be restated. */
  lemma {:induction false} RootBindsLeaves(a: seq<Digest>, b: seq<Digest>)
    requires |a| == |b| > 0
    requires MerkleRoot(a) == MerkleRoot(b)
    ensures a == b
    decreases |a|
  {
    if |a| > 1 {
      RootBindsLeaves(FoldLevel(a), FoldLevel(b));
      forall i | 0 <= i < |a|
        ensures a[i] == b[i]
      {
        assert FoldLevel(a)[i / 2] == FoldLevel(b)[i / 2];
      }
    }
  }
}
