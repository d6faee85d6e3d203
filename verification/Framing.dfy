/**
The bytes the source hashes (packages/distribution/src/commitment.ts), and why digests can be
free terms: two different terms with one digest hand over a collision of the hash function.
*/
module Framing {
  import opened Prelude
  import opened Digests
  import opened Commitments
  import Merkle

  type Byte = b: int | 0 <= b < 256

  /** A hash function, uninterpreted. */
  type Hash = seq<Byte> -> seq<Byte>

  // ---------------------------------------------------------------- fixed-width integers

  function Capacity(width: nat): (n: nat)
    ensures n > 0
  {
    if width == 0 then 1 else 256 * Capacity(width - 1)
  }

  /** Big-endian: the most significant byte first. */
  function BigEndian(n: nat, width: nat): (bytes: seq<Byte>)
    ensures |bytes| == width
  {
    if width == 0 then [] else BigEndian(n / 256, width - 1) + [n % 256]
  }

  lemma {:induction false} BigEndianBinds(n: nat, m: nat, width: nat)
    requires n < Capacity(width) && m < Capacity(width)
    requires BigEndian(n, width) == BigEndian(m, width)
    ensures n == m
    decreases width
  {
    if width > 0 {
      var a, b := BigEndian(n / 256, width - 1), BigEndian(m / 256, width - 1);
      assert (a + [n % 256])[..width - 1] == a && (b + [m % 256])[..width - 1] == b;
      assert (a + [n % 256])[width - 1] == n % 256 && (b + [m % 256])[width - 1] == m % 256;
      BigEndianBinds(n / 256, m / 256, width - 1);
    }
  }

  lemma Capacities()
    ensures Capacity(4) == 0x1_0000_0000 && Capacity(8) == 0x1_0000_0000_0000_0000
  {
    assert Capacity(1) == 256;
    assert Capacity(2) == 0x1_0000;
    assert Capacity(3) == 0x100_0000;
    assert Capacity(4) == 0x1_0000_0000;
    assert Capacity(5) == 0x100_0000_0000;
    assert Capacity(6) == 0x1_0000_0000_0000;
    assert Capacity(7) == 0x100_0000_0000_0000;
  }

  predicate IsU32(n: int) {
    0 <= n < 0x1_0000_0000
  }

  function U32(n: int): (bytes: seq<Byte>)
    requires IsU32(n)
    ensures |bytes| == 4
  {
    BigEndian(n, 4)
  }

  function U64(n: int): (bytes: seq<Byte>)
    requires IsU64(n)
    ensures |bytes| == 8
  {
    BigEndian(n, 8)
  }

  /** Two's complement. */
  function I64(n: int): (bytes: seq<Byte>)
    requires IsI64(n)
    ensures |bytes| == 8
  {
    BigEndian(if n < 0 then n + 0x1_0000_0000_0000_0000 else n, 8)
  }

  /** Four bytes of length, then the field. */
  function Framed(value: seq<Byte>): (bytes: seq<Byte>)
    requires IsU32(|value|)
    ensures |bytes| == 4 + |value|
  {
    U32(|value|) + value
  }

  // ---------------------------------------------------------------- reading fields back

  /** Fields of one width are read apart by position. */
  lemma Cut(a: seq<Byte>, x: seq<Byte>, b: seq<Byte>, y: seq<Byte>)
    requires a + x == b + y && |a| == |b|
    ensures a == b && x == y
  {
    assert (a + x)[..|a|] == a && (b + y)[..|b|] == b;
    assert (a + x)[|a|..] == x && (b + y)[|b|..] == y;
  }

  lemma CutU64(n: int, x: seq<Byte>, m: int, y: seq<Byte>)
    requires IsU64(n) && IsU64(m) && U64(n) + x == U64(m) + y
    ensures n == m && x == y
  {
    Cut(U64(n), x, U64(m), y);
    Capacities();
    BigEndianBinds(n, m, 8);
  }

  lemma U32Binds(n: int, m: int)
    requires IsU32(n) && IsU32(m) && U32(n) == U32(m)
    ensures n == m
  {
    Capacities();
    BigEndianBinds(n, m, 4);
  }

  lemma I64Binds(n: int, m: int)
    requires IsI64(n) && IsI64(m) && I64(n) == I64(m)
    ensures n == m
  {
    Capacities();
    var wrap := 0x1_0000_0000_0000_0000;
    BigEndianBinds(if n < 0 then n + wrap else n, if m < 0 then m + wrap else m, 8);
  }

  /** A framed field is read apart whatever follows it, and whatever it contains. */
  lemma CutFramed(a: seq<Byte>, x: seq<Byte>, b: seq<Byte>, y: seq<Byte>)
    requires IsU32(|a|) && IsU32(|b|) && Framed(a) + x == Framed(b) + y
    ensures a == b && x == y
  {
    assert Framed(a) + x == U32(|a|) + (a + x);
    assert Framed(b) + y == U32(|b|) + (b + y);
    Cut(U32(|a|), a + x, U32(|b|), b + y);
    U32Binds(|a|, |b|);
    Cut(a, x, b, y);
  }

  // ---------------------------------------------------------------- hashed preimages

  const LEAF_TAG: Byte := 0x00
  const NODE_TAG: Byte := 0x01
  const ROOT_TAG: Byte := 0x02
  const RESUME_ROOT_TAG: Byte := 0x03

  /** The fields of a root preimage, as bytes. */
  datatype RootBytes = RootBytes(
    assetId: seq<Byte>,
    fromSequence: int,
    toSequence: int,
    count: int,
    previousRoot: seq<Byte>,
    resumesAfter: Option<int>,
    merkle: seq<Byte>)
  {
    predicate Fits() {
      && IsU32(|assetId|) && IsU64(fromSequence) && IsU64(toSequence) && IsU64(count)
      && IsU32(|previousRoot|) && (resumesAfter.Some? ==> IsU64(resumesAfter.value)) && |merkle| == 32
    }
  }

  function LeafPreimage(tick: Tick): seq<Byte>
    requires tick.Encodable()
  {
    [LEAF_TAG] + (U64(tick.sequence) + (U64(tick.instant) + I64(tick.price)))
  }

  function NodePreimage(left: seq<Byte>, right: seq<Byte>): seq<Byte> {
    [NODE_TAG] + (left + right)
  }

  function RootTag(root: RootBytes): Byte {
    if root.resumesAfter.None? then ROOT_TAG else RESUME_ROOT_TAG
  }

  function ResumeBytes(root: RootBytes): seq<Byte>
    requires root.Fits()
  {
    if root.resumesAfter.None? then [] else U64(root.resumesAfter.value)
  }

  function RootPreimage(root: RootBytes): seq<Byte>
    requires root.Fits()
  {
    [RootTag(root)] + (Framed(root.assetId) + (U64(root.fromSequence) + (U64(root.toSequence)
      + (U64(root.count) + (Framed(root.previousRoot) + (ResumeBytes(root) + root.merkle))))))
  }

  lemma LeafBinds(a: Tick, b: Tick)
    requires a.Encodable() && b.Encodable() && LeafPreimage(a) == LeafPreimage(b)
    ensures a == b
  {
    hide U64, I64;
    Cut([LEAF_TAG], U64(a.sequence) + (U64(a.instant) + I64(a.price)),
        [LEAF_TAG], U64(b.sequence) + (U64(b.instant) + I64(b.price)));
    CutU64(a.sequence, U64(a.instant) + I64(a.price), b.sequence, U64(b.instant) + I64(b.price));
    CutU64(a.instant, I64(a.price), b.instant, I64(b.price));
    I64Binds(a.price, b.price);
  }

  lemma NodeBinds(a: seq<Byte>, x: seq<Byte>, b: seq<Byte>, y: seq<Byte>)
    requires |a| == |b| && NodePreimage(a, x) == NodePreimage(b, y)
    ensures a == b && x == y
  {
    Cut([NODE_TAG], a + x, [NODE_TAG], b + y);
    Cut(a, x, b, y);
  }

  /** Equal root preimages are of equal records, the optional resume point included. */
  lemma RootBinds(a: RootBytes, b: RootBytes)
    requires a.Fits() && b.Fits() && RootPreimage(a) == RootPreimage(b)
    ensures a == b
  {
    hide U64, Framed;
    var a4, b4 := ResumeBytes(a) + a.merkle, ResumeBytes(b) + b.merkle;
    var a3, b3 := U64(a.count) + (Framed(a.previousRoot) + a4), U64(b.count) + (Framed(b.previousRoot) + b4);
    var a2, b2 := U64(a.toSequence) + a3, U64(b.toSequence) + b3;
    var a1, b1 := U64(a.fromSequence) + a2, U64(b.fromSequence) + b2;
    Cut([RootTag(a)], Framed(a.assetId) + a1, [RootTag(b)], Framed(b.assetId) + b1);
    assert [RootTag(a)][0] == [RootTag(b)][0];
    CutFramed(a.assetId, a1, b.assetId, b1);
    CutU64(a.fromSequence, a2, b.fromSequence, b2);
    CutU64(a.toSequence, a3, b.toSequence, b3);
    CutU64(a.count, Framed(a.previousRoot) + a4, b.count, Framed(b.previousRoot) + b4);
    CutFramed(a.previousRoot, a4, b.previousRoot, b4);
    Cut(ResumeBytes(a), a.merkle, ResumeBytes(b), b.merkle);
    if a.resumesAfter.Some? {
      ConcatUnit(ResumeBytes(a));
      CutU64(a.resumesAfter.value, [], b.resumesAfter.value, []);
    }
  }

  // ---------------------------------------------------------------- digests as terms

  /** A digest that was computed all the way down, from fields that fit. */
  predicate Computed(digest: Digest) {
    match digest
    case Leaf(tick) => tick.Encodable()
    case Node(left, right) => Computed(left) && Computed(right)
    case Root(fields, merkle) => FieldsFit(fields) && ComputedPrevious(fields.previous) && Computed(merkle)
    case ResumeRoot(fields, after, merkle) =>
      FieldsFit(fields) && ComputedPrevious(fields.previous) && IsU64(after) && Computed(merkle)
    case Opaque(_) => false
  }

  predicate ComputedPrevious(previous: Bytes) {
    match previous
    case NoBytes => true
    case Whole(digest) => Computed(digest)
    case Ragged(_) => false
  }

  predicate FieldsFit(fields: LinkFields) {
    IsAssetId(fields.assetId) && IsU64(fields.fromSequence) && IsU64(fields.toSequence) && IsU64(fields.count)
  }

  /** An asset id is ASCII, so its UTF-8 is its characters. */
  function Ascii(id: string): (bytes: seq<Byte>)
    requires IsAssetId(id)
    ensures |bytes| == |id|
  {
    seq(|id|, i requires 0 <= i < |id| => assert id[i] < 128 as char by { IdIsAscii(id, i); } id[i] as int)
  }

  lemma IdIsAscii(id: string, i: nat)
    requires IsAssetId(id) && i < |id|
    ensures id[i] < 128 as char
  {
  }

  lemma AsciiBinds(a: string, b: string)
    requires IsAssetId(a) && IsAssetId(b) && Ascii(a) == Ascii(b)
    ensures a == b
  {
    assert |a| == |b|;
    forall i | 0 <= i < |a|
      ensures a[i] == b[i]
    {
      assert Ascii(a)[i] == Ascii(b)[i];
      assert a[i] as int == b[i] as int;
    }
  }

  /** Digests are 32 bytes. */
  ghost predicate Digests32(h: Hash) {
    forall bytes :: |h(bytes)| == 32
  }

  function RootFields(fields: LinkFields, after: Option<int>, previous: seq<Byte>, merkle: seq<Byte>): (root: RootBytes)
    requires FieldsFit(fields) && IsU32(|previous|) && |merkle| == 32 && (after.Some? ==> IsU64(after.value))
    ensures root.Fits()
  {
    RootBytes(Ascii(fields.assetId), fields.fromSequence, fields.toSequence, fields.count, previous, after, merkle)
  }

  /** The bytes a term's digest is computed from. */
  ghost function Preimage(h: Hash, digest: Digest): seq<Byte>
    requires Digests32(h) && Computed(digest)
    decreases digest, 0
  {
    match digest
    case Leaf(tick) => LeafPreimage(tick)
    case Node(left, right) => NodePreimage(Value(h, left), Value(h, right))
    case Root(fields, merkle) =>
      RootPreimage(RootFields(fields, None, PreviousValue(h, fields.previous), Value(h, merkle)))
    case ResumeRoot(fields, after, merkle) =>
      RootPreimage(RootFields(fields, Some(after), PreviousValue(h, fields.previous), Value(h, merkle)))
  }

  /** The digest a term stands for. */
  ghost function Value(h: Hash, digest: Digest): (bytes: seq<Byte>)
    requires Digests32(h) && Computed(digest)
    ensures |bytes| == 32
    decreases digest, 1
  {
    h(Preimage(h, digest))
  }

  ghost function PreviousValue(h: Hash, previous: Bytes): (bytes: seq<Byte>)
    requires Digests32(h) && ComputedPrevious(previous)
    ensures |bytes| == if previous.NoBytes? then 0 else 32
    decreases previous, 2
  {
    match previous
    case NoBytes => []
    case Whole(digest) => Value(h, digest)
  }

  ghost predicate Collision(h: Hash, x: seq<Byte>, y: seq<Byte>) {
    x != y && h(x) == h(y)
  }

  /** The first byte says which kind of term was hashed. */
  lemma TagSaysKind(h: Hash, digest: Digest)
    requires Digests32(h) && Computed(digest)
    ensures Preimage(h, digest) != []
    ensures Preimage(h, digest)[0] ==
      (match digest case Leaf(_) => LEAF_TAG case Node(_, _) => NODE_TAG case Root(_, _) => ROOT_TAG case _ => RESUME_ROOT_TAG)
  {
  }

  /**
  Free terms are faithful: whatever the hash function, two different terms with one digest hand
  over two different byte strings it maps to one value. A claim proved of terms therefore holds of
  the bytes, or its proof exhibits a collision.
  */
  lemma {:induction false} DifferentTermsCollide(h: Hash, a: Digest, b: Digest) returns (x: seq<Byte>, y: seq<Byte>)
    requires Digests32(h) && Computed(a) && Computed(b)
    requires a != b && Value(h, a) == Value(h, b)
    ensures Collision(h, x, y)
    decreases a
  {
    hide LeafPreimage, NodePreimage, RootPreimage, Digests32;
    x, y := Preimage(h, a), Preimage(h, b);
    if x == y {
      TagSaysKind(h, a);
      TagSaysKind(h, b);
      match a {
        case Leaf(tick) =>
          LeafBinds(tick, b.tick);
          assert false;
        case Node(left, right) =>
          NodeBinds(Value(h, left), Value(h, right), Value(h, b.left), Value(h, b.right));
          if left != b.left {
            x, y := DifferentTermsCollide(h, left, b.left);
          } else {
            x, y := DifferentTermsCollide(h, right, b.right);
          }
        case Root(fields, merkle) =>
          x, y := DifferentRootsCollide(h, a, fields, None, merkle, b.fields, None, b.merkle);
        case ResumeRoot(fields, after, merkle) =>
          x, y := DifferentRootsCollide(h, a, fields, Some(after), merkle, b.fields, Some(b.resumesAfter), b.merkle);
      }
    }
  }

  lemma {:induction false} DifferentRootsCollide(
    h: Hash, whole: Digest, fa: LinkFields, ra: Option<int>, ma: Digest, fb: LinkFields, rb: Option<int>, mb: Digest)
    returns (x: seq<Byte>, y: seq<Byte>)
    requires Digests32(h)
    requires FieldsFit(fa) && ComputedPrevious(fa.previous) && Computed(ma) && (ra.Some? ==> IsU64(ra.value))
    requires FieldsFit(fb) && ComputedPrevious(fb.previous) && Computed(mb) && (rb.Some? ==> IsU64(rb.value))
    requires fa < whole && ma < whole
    requires (fa, ra, ma) != (fb, rb, mb)
    requires
      RootPreimage(RootFields(fa, ra, PreviousValue(h, fa.previous), Value(h, ma)))
      == RootPreimage(RootFields(fb, rb, PreviousValue(h, fb.previous), Value(h, mb)))
    ensures Collision(h, x, y)
    decreases whole, 0
  {
    hide RootPreimage, Digests32;
    RootBinds(RootFields(fa, ra, PreviousValue(h, fa.previous), Value(h, ma)),
              RootFields(fb, rb, PreviousValue(h, fb.previous), Value(h, mb)));
    AsciiBinds(fa.assetId, fb.assetId);
    if ma != mb {
      x, y := DifferentTermsCollide(h, ma, mb);
    } else {
      assert fa.previous != fb.previous;
      x, y := DifferentTermsCollide(h, fa.previous.digest, fb.previous.digest);
    }
  }

  // ---------------------------------------------------------------- what the source computes

  predicate AllComputed(level: seq<Digest>) {
    forall i :: 0 <= i < |level| ==> Computed(level[i])
  }

  lemma {:induction false} MerkleRootComputed(leaves: seq<Digest>)
    requires leaves != [] && AllComputed(leaves)
    ensures Computed(Merkle.MerkleRoot(leaves))
    decreases |leaves|
  {
    if |leaves| > 1 {
      MerkleRootComputed(Merkle.FoldLevel(leaves));
    }
  }

  /** Every root `commit` returns is a computed term, when the root it names is one. */
  lemma CommitComputes(link: Commitment, ticks: seq<Tick>)
    requires CommitsTo(link, ticks) && ComputedPrevious(Decode(link.previousRoot))
    ensures link.root.Digits? && Computed(link.root.digest)
  {
    CommittedRun(link, ticks);
    MerkleRootComputed(Leaves(ticks));
  }
}
