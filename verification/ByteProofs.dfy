/**
Inclusion proofs over the bytes themselves (packages/distribution/src/commitment.ts): for any hash
function and any siblings a hostile path holds, what a verifier accepts is honest, or two byte
strings with one hash are at hand.
*/
module ByteProofs {
  import opened Prelude
  import opened Digests
  import opened Commitments
  import opened Framing
  import Merkle

  type Row = seq<seq<Byte>>

  predicate All32(level: Row) {
    forall i :: 0 <= i < |level| ==> |level[i]| == 32
  }

  // ---------------------------------------------------------------- the tree of bytes

  function FoldBytes(h: Hash, level: Row): (next: Row)
    ensures |next| == Merkle.Above(|level|)
  {
    seq(Merkle.Above(|level|), j requires 0 <= j < Merkle.Above(|level|) =>
      if 2 * j + 1 < |level| then h(NodePreimage(level[2 * j], level[2 * j + 1])) else level[2 * j])
  }

  function RootOfBytes(h: Hash, level: Row): seq<Byte>
    requires |level| > 0
    decreases |level|
  {
    if |level| == 1 then level[0] else RootOfBytes(h, FoldBytes(h, level))
  }

  /** What a node and its sibling are hashed from, left and right by the cursor's parity. */
  function Pair(cursor: nat, hash: seq<Byte>, sibling: seq<Byte>): seq<Byte> {
    if cursor % 2 == 0 then NodePreimage(hash, sibling) else NodePreimage(sibling, hash)
  }

  function PathOfBytes(h: Hash, level: Row, cursor: nat): Row
    requires cursor < |level|
    decreases |level|
  {
    if |level| == 1 then []
    else
      (if Merkle.Promoted(cursor, |level|) then [] else [level[Merkle.SiblingOf(cursor)]])
      + PathOfBytes(h, FoldBytes(h, level), cursor / 2)
  }

  /** The verifier's loop over decoded siblings: None where one is missing, is not 32 bytes, or is left over. */
  function ReplayBytes(h: Hash, hash: seq<Byte>, cursor: nat, width: nat, path: Row): Option<seq<Byte>>
    requires cursor < width
    decreases width
  {
    if width == 1 then (if path == [] then Some(hash) else None)
    else if Merkle.Promoted(cursor, width) then ReplayBytes(h, hash, cursor / 2, Merkle.Above(width), path)
    else if path == [] || |path[0]| != 32 then None
    else ReplayBytes(h, h(Pair(cursor, hash, path[0])), cursor / 2, Merkle.Above(width), path[1..])
  }

  lemma FoldBytesAt(h: Hash, level: Row, cursor: nat)
    requires cursor < |level| && |level| > 1
    ensures Merkle.Promoted(cursor, |level|) ==> FoldBytes(h, level)[cursor / 2] == level[cursor]
    ensures !Merkle.Promoted(cursor, |level|) ==>
      && 0 <= Merkle.SiblingOf(cursor) < |level|
      && FoldBytes(h, level)[cursor / 2] == h(Pair(cursor, level[cursor], level[Merkle.SiblingOf(cursor)]))
  {
    var j := cursor / 2;
    assert cursor == 2 * j || cursor == 2 * j + 1;
  }

  lemma FoldBytes32(h: Hash, level: Row)
    requires Digests32(h) && All32(level)
    ensures All32(FoldBytes(h, level))
  {
  }

  lemma PairBinds(cursor: nat, a: seq<Byte>, x: seq<Byte>, b: seq<Byte>, y: seq<Byte>)
    requires |a| == |b| == |x| == |y| && Pair(cursor, a, x) == Pair(cursor, b, y)
    ensures a == b && x == y
  {
    if cursor % 2 == 0 {
      NodeBinds(a, x, b, y);
    } else {
      NodeBinds(x, a, y, b);
    }
    hide NodePreimage;
  }

  /**
  Whatever 32 bytes replay to the root of a row, along whatever siblings, are the bytes standing
  at that position along the honest path, or a collision is at hand.
  */
  lemma {:induction false} ReplaySoundOrCollision(h: Hash, level: Row, hash: seq<Byte>, cursor: nat, path: Row)
    returns (x: seq<Byte>, y: seq<Byte>)
    requires Digests32(h) && All32(level) && |hash| == 32 && cursor < |level|
    requires ReplayBytes(h, hash, cursor, |level|, path) == Some(RootOfBytes(h, level))
    ensures Collision(h, x, y) || (hash == level[cursor] && path == PathOfBytes(h, level, cursor))
    decreases |level|
  {
    hide FoldBytes, Pair;
    x, y := [], [];
    if |level| > 1 {
      var next := FoldBytes(h, level);
      FoldBytesAt(h, level, cursor);
      FoldBytes32(h, level);
      if Merkle.Promoted(cursor, |level|) {
        x, y := ReplaySoundOrCollision(h, next, hash, cursor / 2, path);
      } else {
        var claimed := Pair(cursor, hash, path[0]);
        var honest := Pair(cursor, level[cursor], level[Merkle.SiblingOf(cursor)]);
        x, y := ReplaySoundOrCollision(h, next, h(claimed), cursor / 2, path[1..]);
        if !Collision(h, x, y) {
          if claimed != honest {
            x, y := claimed, honest;
          } else {
            PairBinds(cursor, hash, path[0], level[cursor], level[Merkle.SiblingOf(cursor)]);
            assert path == [path[0]] + path[1..];
          }
        }
      }
    }
  }

  // ---------------------------------------------------------------- what the terms stand for

  ghost function Values(h: Hash, level: seq<Digest>): (row: Row)
    requires Digests32(h) && AllComputed(level)
    ensures |row| == |level|
  {
    seq(|level|, i requires 0 <= i < |level| => Value(h, level[i]))
  }

  lemma FoldComputed(level: seq<Digest>)
    requires AllComputed(level)
    ensures AllComputed(Merkle.FoldLevel(level))
  {
  }

  lemma ValuesOfFold(h: Hash, level: seq<Digest>)
    requires Digests32(h) && AllComputed(level)
    ensures AllComputed(Merkle.FoldLevel(level))
    ensures Values(h, Merkle.FoldLevel(level)) == FoldBytes(h, Values(h, level))
  {
    FoldComputed(level);
    var next := Merkle.FoldLevel(level);
    forall j | 0 <= j < |next|
      ensures Value(h, next[j]) == FoldBytes(h, Values(h, level))[j]
    {
      hide Digests32;
      if 2 * j + 1 < |level| {
        assert next[j] == Node(level[2 * j], level[2 * j + 1]);
      }
    }
  }

  /** The tree of terms, hashed, is the tree of bytes. */
  lemma {:induction false} ValueOfRoot(h: Hash, level: seq<Digest>)
    requires Digests32(h) && level != [] && AllComputed(level)
    ensures Computed(Merkle.MerkleRoot(level))
    ensures Value(h, Merkle.MerkleRoot(level)) == RootOfBytes(h, Values(h, level))
    decreases |level|
  {
    hide Value, FoldBytes, Merkle.FoldLevel, AllComputed;
    MerkleRootComputed(level);
    if |level| > 1 {
      ValuesOfFold(h, level);
      ValueOfRoot(h, Merkle.FoldLevel(level));
    }
  }

  // ---------------------------------------------------------------- inclusion

  /** The leaf hashes of a run. */
  function LeafRow(h: Hash, ticks: seq<Tick>): (row: Row)
    requires AllEncodable(ticks)
    ensures |row| == |ticks|
  {
    seq(|ticks|, i requires 0 <= i < |ticks| => h(LeafPreimage(ticks[i])))
  }

  /** The record whose bytes a committed link's root is the hash of. */
  ghost function CommittedBytes(h: Hash, link: Commitment, ticks: seq<Tick>): RootBytes
    requires Digests32(h) && ticks != [] && AllEncodable(ticks)
    requires IsAssetId(link.assetId) && ComputedPrevious(Decode(link.previousRoot))
  {
    RootBytes(Ascii(link.assetId), link.fromSequence, link.toSequence, link.count,
              PreviousValue(h, Decode(link.previousRoot)), link.resumesAfter, RootOfBytes(h, LeafRow(h, ticks)))
  }

  lemma LeavesComputed(h: Hash, ticks: seq<Tick>)
    requires Digests32(h) && AllEncodable(ticks)
    ensures AllComputed(Leaves(ticks)) && Values(h, Leaves(ticks)) == LeafRow(h, ticks)
  {
    hide Digests32, LeafPreimage;
    forall i | 0 <= i < |ticks|
      ensures Value(h, Leaves(ticks)[i]) == LeafRow(h, ticks)[i]
    {
      assert Leaves(ticks)[i] == Leaf(ticks[i]);
    }
  }

  lemma {:induction false} RootOfBytes32(h: Hash, level: Row)
    requires Digests32(h) && level != [] && All32(level)
    ensures |RootOfBytes(h, level)| == 32
    decreases |level|
  {
    if |level| > 1 {
      hide All32, FoldBytes;
      FoldBytes32(h, level);
      RootOfBytes32(h, FoldBytes(h, level));
    }
  }

  lemma LeafRow32(h: Hash, ticks: seq<Tick>)
    requires Digests32(h) && AllEncodable(ticks)
    ensures All32(LeafRow(h, ticks))
  {
    hide LeafPreimage;
    forall i | 0 <= i < |ticks|
      ensures |LeafRow(h, ticks)[i]| == 32
    {
      assert |h(LeafPreimage(ticks[i]))| == 32;
    }
  }

  lemma CommittedFits(link: Commitment, ticks: seq<Tick>)
    requires CommitsTo(link, ticks)
    ensures ticks != [] && AllEncodable(ticks) && link.count == |ticks|
    ensures IsAssetId(link.assetId) && FieldsFit(Fields(link)) && (link.resumesAfter.Some? ==> IsU64(link.resumesAfter.value))
  {
  }

  /** The root a committed link stores is the hash of exactly those bytes. */
  lemma CommittedValue(h: Hash, link: Commitment, ticks: seq<Tick>)
    requires Digests32(h) && CommitsTo(link, ticks) && ComputedPrevious(Decode(link.previousRoot))
    ensures ticks != [] && AllEncodable(ticks) && IsAssetId(link.assetId)
    ensures CommittedBytes(h, link, ticks).Fits()
    ensures link.root.Digits? && Computed(link.root.digest)
    ensures Value(h, link.root.digest) == h(RootPreimage(CommittedBytes(h, link, ticks)))
  {
    CommittedRun(link, ticks);
    CommittedFits(link, ticks);
    CommitComputes(link, ticks);
    LeavesComputed(h, ticks);
    ValueOfRoot(h, Leaves(ticks));
    LeafRow32(h, ticks);
    RootOfBytes32(h, LeafRow(h, ticks));
    hide CommitsTo, RootPreimage, Digests32, Merkle.MerkleRoot, RootOfBytes, LeafRow, Leaves, Ascii;
  }

  /**
  Inclusion over bytes: against the root of a committed link, a record of any bytes and a proof of
  any 32-byte siblings are accepted only if the record is the link's own, the tick named is the
  committed one at that index and the siblings are the honest ones, or a collision is at hand.
  */
  lemma InclusionSoundOrCollision(
    h: Hash, link: Commitment, ticks: seq<Tick>, claimed: RootBytes, named: Tick, index: nat, path: Row)
    returns (x: seq<Byte>, y: seq<Byte>)
    requires Digests32(h) && CommitsTo(link, ticks) && ComputedPrevious(Decode(link.previousRoot))
    requires link.root.Digits? && Computed(link.root.digest)
    requires claimed.Fits() && named.Encodable() && index < claimed.count
    requires ReplayBytes(h, h(LeafPreimage(named)), index, claimed.count, path) == Some(claimed.merkle)
    requires h(RootPreimage(claimed)) == Value(h, link.root.digest)
    ensures !Collision(h, x, y) ==>
      && ticks != [] && AllEncodable(ticks) && IsAssetId(link.assetId)
      && claimed == CommittedBytes(h, link, ticks)
      && index < |ticks| && named == ticks[index]
      && path == PathOfBytes(h, LeafRow(h, ticks), index)
  {
    CommittedValue(h, link, ticks);
    CommittedFits(link, ticks);
    LeafRow32(h, ticks);
    var honest := CommittedBytes(h, link, ticks);
    var row := LeafRow(h, ticks);
    var leaf := LeafPreimage(named);
    assert |h(leaf)| == 32;
    hide Digests32, RootPreimage, LeafPreimage, CommitsTo, Value, ReplayBytes, RootOfBytes, PathOfBytes, Ascii, Preimage;
    x, y := RootPreimage(claimed), RootPreimage(honest);
    if x == y {
      RootBinds(claimed, honest);
      x, y := ReplaySoundOrCollision(h, row, h(leaf), index, path);
      if !Collision(h, x, y) {
        x, y := leaf, LeafPreimage(ticks[index]);
        if x == y {
          LeafBinds(named, ticks[index]);
        }
      }
    }
  }
}
