/**
Readers of the hashed and signed bytes, written field by field from the formats
(packages/distribution/src/commitment.ts, signing.ts and rotation.ts): each gives back what was
written, in its place and with its tag or label.
*/
module Readers {
  import opened Prelude
  import opened Framing
  import opened Text
  import opened Encodings

  // ---------------------------------------------------------------- numbers and frames

  /** The number these bytes are the base-256 digits of, the most significant first. */
  function NumberOf(bytes: seq<Byte>): nat {
    if bytes == [] then 0
    else
      var n := |bytes| - 1;
      var low: int := bytes[n];
      NumberOf(bytes[..n]) * 256 + low
  }

  lemma {:induction false} NumberComesBack(n: nat, width: nat)
    requires n < Capacity(width)
    ensures NumberOf(BigEndian(n, width)) == n
    decreases width
  {
    if width > 0 {
      NumberComesBack(n / 256, width - 1);
      var bytes := BigEndian(n, width);
      assert bytes[..width - 1] == BigEndian(n / 256, width - 1);
    }
  }

  /** What is read first, and the bytes after it. */
  datatype Read<T> = Nothing | Got(value: T, rest: seq<Byte>)

  function ReadNumber(bytes: seq<Byte>, width: nat): Read<nat> {
    if |bytes| < width then Nothing else Got(NumberOf(bytes[..width]), bytes[width..])
  }

  /** A field that says its own length in four bytes. */
  function ReadFrame(bytes: seq<Byte>): Read<seq<Byte>> {
    match ReadNumber(bytes, 4)
    case Nothing => Nothing
    case Got(length, rest) => if |rest| < length then Nothing else Got(rest[..length], rest[length..])
  }

  lemma FrontAndBack(a: seq<Byte>, x: seq<Byte>)
    ensures |a + x| >= |a| && (a + x)[..|a|] == a && (a + x)[|a|..] == x
  {
  }

  lemma ReadsU64(n: int, x: seq<Byte>)
    requires IsU64(n)
    ensures ReadNumber(U64(n) + x, 8) == Got(n, x)
  {
    Capacities();
    NumberComesBack(n, 8);
    hide BigEndian, NumberOf;
    FrontAndBack(U64(n), x);
  }

  lemma ReadsU32(n: int, x: seq<Byte>)
    requires IsU32(n)
    ensures ReadNumber(U32(n) + x, 4) == Got(n, x)
  {
    Capacities();
    NumberComesBack(n, 4);
    hide BigEndian, NumberOf;
    FrontAndBack(U32(n), x);
  }

  lemma ReadsFrame(a: seq<Byte>, x: seq<Byte>)
    requires IsU32(|a|)
    ensures ReadFrame(Framed(a) + x) == Got(a, x)
  {
    ReadsU32(|a|, a + x);
    FrontAndBack(a, x);
    ConcatAssociates(U32(|a|), a, x);
    hide U32, ReadNumber;
  }

  // ---------------------------------------------------------------- leaves and nodes

  function LeafRead(bytes: seq<Byte>): Option<Tick> {
    if |bytes| != 25 || bytes[0] != 0x00 then None
    else
      var price := NumberOf(bytes[17..25]);
      Some(Tick(NumberOf(bytes[1..9]), NumberOf(bytes[9..17]),
                if price >= 0x8000_0000_0000_0000 then price - 0x1_0000_0000_0000_0000 else price))
  }

  /** A leaf is 25 bytes: 0x00, the sequence, the instant, and the price in two's complement, big-endian. */
  lemma LeafComesBack(tick: Tick)
    requires tick.Encodable()
    ensures LeafRead(LeafPreimage(tick)) == Some(tick)
  {
    Capacities();
    var wrap := 0x1_0000_0000_0000_0000;
    NumberComesBack(tick.sequence, 8);
    NumberComesBack(tick.instant, 8);
    NumberComesBack(if tick.price < 0 then tick.price + wrap else tick.price, 8);
    hide BigEndian, NumberOf;
    LeafParts(U64(tick.sequence), U64(tick.instant), I64(tick.price));
  }

  lemma LeafParts(a: seq<Byte>, b: seq<Byte>, c: seq<Byte>)
    requires |a| == |b| == |c| == 8
    ensures var bytes := [LEAF_TAG] + (a + (b + c));
      |bytes| == 25 && bytes[0] == 0x00 && bytes[1..9] == a && bytes[9..17] == b && bytes[17..25] == c
  {
  }

  /** A node is 65 bytes: 0x01, the left child and the right one. */
  lemma NodeComesBack(left: seq<Byte>, right: seq<Byte>)
    requires |left| == |right| == 32
    ensures var bytes := NodePreimage(left, right);
      |bytes| == 65 && bytes[0] == 0x01 && bytes[1..33] == left && bytes[33..] == right
  {
  }

  // ---------------------------------------------------------------- roots

  /** Three numbers of eight bytes. */
  function ReadThree(bytes: seq<Byte>): Read<(nat, nat, nat)> {
    match ReadNumber(bytes, 8)
    case Nothing => Nothing
    case Got(a, afterA) =>
      match ReadNumber(afterA, 8)
      case Nothing => Nothing
      case Got(b, afterB) =>
        match ReadNumber(afterB, 8)
        case Nothing => Nothing
        case Got(c, rest) => Got((a, b, c), rest)
  }

  lemma ReadsThree(a: int, b: int, c: int, x: seq<Byte>)
    requires IsU64(a) && IsU64(b) && IsU64(c)
    ensures ReadThree(U64(a) + (U64(b) + (U64(c) + x))) == Got((a, b, c), x)
  {
    hide U64, ReadNumber;
    ReadsU64(a, U64(b) + (U64(c) + x));
    ReadsU64(b, U64(c) + x);
    ReadsU64(c, x);
  }

  /** An asset's bytes, and its range and count. */
  function ReadRange(bytes: seq<Byte>): Read<(seq<Byte>, (nat, nat, nat))> {
    match ReadFrame(bytes)
    case Nothing => Nothing
    case Got(assetId, afterAsset) =>
      match ReadThree(afterAsset)
      case Nothing => Nothing
      case Got(range, rest) => Got((assetId, range), rest)
  }

  lemma ReadsRange(assetId: seq<Byte>, a: int, b: int, c: int, x: seq<Byte>)
    requires IsU32(|assetId|) && IsU64(a) && IsU64(b) && IsU64(c)
    ensures ReadRange(Framed(assetId) + (U64(a) + (U64(b) + (U64(c) + x)))) == Got((assetId, (a, b, c)), x)
  {
    hide U64, Framed, ReadFrame, ReadThree;
    ReadsFrame(assetId, U64(a) + (U64(b) + (U64(c) + x)));
    ReadsThree(a, b, c, x);
  }

  /** The two records: 0x02, or 0x03 with a resume point before the Merkle root. */
  function RootRead(bytes: seq<Byte>): Option<RootBytes> {
    if bytes == [] || (bytes[0] != 0x02 && bytes[0] != 0x03) then None
    else
      match ReadRange(bytes[1..])
      case Nothing => None
      case Got(range, afterRange) =>
        match ReadFrame(afterRange)
        case Nothing => None
        case Got(previous, rest) => RootEnd(bytes[0] == 0x03, range.0, range.1, previous, rest)
  }

  function RootEnd(resumes: bool, assetId: seq<Byte>, range: (nat, nat, nat), previous: seq<Byte>, rest: seq<Byte>)
    : Option<RootBytes>
  {
    if !resumes then Some(RootBytes(assetId, range.0, range.1, range.2, previous, None, rest))
    else
      match ReadNumber(rest, 8)
      case Nothing => None
      case Got(after, merkle) =>
        Some(RootBytes(assetId, range.0, range.1, range.2, previous, Some(after), merkle))
  }

  lemma RootEnds(root: RootBytes)
    requires root.Fits()
    ensures RootEnd(root.resumesAfter.Some?, root.assetId, (root.fromSequence, root.toSequence, root.count),
                    root.previousRoot, ResumeBytes(root) + root.merkle) == Some(root)
  {
    hide U64, ReadNumber;
    if root.resumesAfter.None? {
      ConcatUnit(root.merkle);
    } else {
      ReadsU64(root.resumesAfter.value, root.merkle);
    }
  }

  lemma Tagged(tag: Byte, rest: seq<Byte>)
    ensures ([tag] + rest)[0] == tag && ([tag] + rest)[1..] == rest && [tag] + rest != []
  {
  }

  lemma RootComesBack(root: RootBytes)
    requires root.Fits()
    ensures RootRead(RootPreimage(root)) == Some(root)
  {
    RootEnds(root);
    hide U64, Framed, ReadFrame, ReadRange, RootEnd, ResumeBytes;
    var tail := ResumeBytes(root) + root.merkle;
    var rest := Framed(root.previousRoot) + tail;
    Tagged(RootTag(root), Framed(root.assetId)
      + (U64(root.fromSequence) + (U64(root.toSequence) + (U64(root.count) + rest))));
    ReadsRange(root.assetId, root.fromSequence, root.toSequence, root.count, rest);
    ReadsFrame(root.previousRoot, tail);
  }

  // ---------------------------------------------------------------- signed bytes

  /** A commitment as its signed bytes say it. */
  datatype SignedFields = SignedFields(
    title: seq<Byte>,
    assetId: seq<Byte>,
    range: (nat, nat, nat),
    previousRoot: seq<Byte>,
    root: seq<Byte>,
    resumesAfter: Option<int>)

  function CommitmentRead(bytes: seq<Byte>): Option<SignedFields> {
    match ReadFrame(bytes)
    case Nothing => None
    case Got(title, afterTitle) =>
      match ReadRange(afterTitle)
      case Nothing => None
      case Got(range, afterRange) => CommitmentEnd(title, range, afterRange)
  }

  function CommitmentEnd(title: seq<Byte>, range: (seq<Byte>, (nat, nat, nat)), bytes: seq<Byte>): Option<SignedFields> {
    match ReadFrame(bytes)
    case Nothing => None
    case Got(previous, afterPrevious) =>
      match ReadFrame(afterPrevious)
      case Nothing => None
      case Got(root, tail) =>
        if tail == [] then Some(SignedFields(title, range.0, range.1, previous, root, None))
        else
          match ReadNumber(tail, 8)
          case Nothing => None
          case Got(after, _) => Some(SignedFields(title, range.0, range.1, previous, root, Some(after)))
  }

  /** The characters of an ASCII label. */
  function Characters(text: string): (bytes: seq<Byte>)
    requires forall i :: 0 <= i < |text| ==> text[i] < 128 as char
  {
    seq(|text|, i requires 0 <= i < |text| => text[i] as int)
  }

  lemma {:induction false} AsciiIsItself(units: seq<Unit>, bytes: seq<Byte>)
    requires |bytes| == |units| && forall i :: 0 <= i < |units| ==> units[i] < 128 && bytes[i] as int == units[i] as int
    ensures Utf8(units) == bytes
    decreases |units|
  {
    if units != [] {
      AsciiIsItself(units[1..], bytes[1..]);
      assert bytes == [bytes[0]] + bytes[1..];
    }
  }

  lemma LabelIs(text: string)
    requires forall i :: 0 <= i < |text| ==> text[i] < 128 as char
    ensures Utf8(Label(text)) == Characters(text)
  {
    AsciiIsItself(Label(text), Characters(text));
  }

  function CommitmentTitle(): (bytes: seq<Byte>) {
    Characters("otc-commitment-v2")
  }

  function RotationTitle(): (bytes: seq<Byte>) {
    Characters("otc-key-rotation-v2")
  }

  lemma Titles()
    ensures Utf8(CommitmentLabel()) == CommitmentTitle() && Utf8(RotationLabel()) == RotationTitle()
  {
    hide Utf8, Label, Characters;
    LabelIs("otc-commitment-v2");
    LabelIs("otc-key-rotation-v2");
  }

  lemma CommitmentEnds(c: CommitmentText, title: seq<Byte>, range: (seq<Byte>, (nat, nat, nat)))
    requires c.Fits()
    ensures CommitmentEnd(title, range, Field(c.previousRoot) + (Field(c.root) + Trailer(c.resumesAfter)))
      == Some(SignedFields(title, range.0, range.1, Utf8(c.previousRoot), Utf8(c.root), c.resumesAfter))
  {
    hide U64, Framed, Utf8, ReadNumber, ReadFrame;
    ReadsFrame(Utf8(c.previousRoot), Field(c.root) + Trailer(c.resumesAfter));
    ReadsFrame(Utf8(c.root), Trailer(c.resumesAfter));
    if c.resumesAfter.Some? {
      ConcatUnit(U64(c.resumesAfter.value));
      ReadsU64(c.resumesAfter.value, []);
    }
  }

  /** What a commitment's signature covers: the label and the fields, each in its place. */
  lemma CommitmentComesBack(c: CommitmentText)
    requires c.Fits()
    ensures CommitmentRead(CanonicalEncoding(c)) ==
      Some(SignedFields(CommitmentTitle(), Utf8(c.assetId), (c.fromSequence, c.toSequence, c.count),
                        Utf8(c.previousRoot), Utf8(c.root), c.resumesAfter))
  {
    Titles();
    hide U64, Framed, Utf8, CommitmentLabel, ReadFrame, ReadRange, CommitmentEnd, Trailer, CommitmentTitle;
    var rest := Field(c.previousRoot) + (Field(c.root) + Trailer(c.resumesAfter));
    ReadsFrame(Utf8(CommitmentLabel()), CanonicalTail(c));
    ReadsRange(Utf8(c.assetId), c.fromSequence, c.toSequence, c.count, rest);
    CommitmentEnds(c, Utf8(CommitmentLabel()), (Utf8(c.assetId), (c.fromSequence, c.toSequence, c.count)));
  }

  /** A rotation as its signed bytes say it. */
  datatype RotationFields = RotationFields(
    title: seq<Byte>,
    epoch: int,
    fromPublicKey: seq<Byte>,
    toPublicKey: seq<Byte>,
    heads: seq<(seq<Byte>, seq<Byte>)>,
    reason: seq<Byte>)

  function ReadHeads(bytes: seq<Byte>, n: nat): Read<seq<(seq<Byte>, seq<Byte>)>>
    decreases n
  {
    if n == 0 then Got([], bytes)
    else
      match ReadFrame(bytes)
      case Nothing => Nothing
      case Got(assetId, afterAsset) =>
        match ReadFrame(afterAsset)
        case Nothing => Nothing
        case Got(root, afterRoot) =>
          match ReadHeads(afterRoot, n - 1)
          case Nothing => Nothing
          case Got(others, rest) => Got([(assetId, root)] + others, rest)
  }

  function RotationRead(bytes: seq<Byte>): Option<RotationFields> {
    match ReadFrame(bytes)
    case Nothing => None
    case Got(title, afterTitle) =>
      match ReadNumber(afterTitle, 8)
      case Nothing => None
      case Got(epoch, afterEpoch) =>
        match ReadKeys(afterEpoch)
        case Nothing => None
        case Got(keys, afterKeys) => RotationEnd(title, epoch, keys, afterKeys)
  }

  function ReadKeys(bytes: seq<Byte>): Read<(seq<Byte>, seq<Byte>)> {
    match ReadFrame(bytes)
    case Nothing => Nothing
    case Got(retired, afterRetired) =>
      match ReadFrame(afterRetired)
      case Nothing => Nothing
      case Got(named, rest) => Got((retired, named), rest)
  }

  function RotationEnd(title: seq<Byte>, epoch: nat, keys: (seq<Byte>, seq<Byte>), bytes: seq<Byte>): Option<RotationFields> {
    match ReadNumber(bytes, 8)
    case Nothing => None
    case Got(n, afterCount) =>
      match ReadHeads(afterCount, n)
      case Nothing => None
      case Got(heads, afterHeads) =>
        match ReadFrame(afterHeads)
        case Nothing => None
        case Got(reason, _) => Some(RotationFields(title, epoch, keys.0, keys.1, heads, reason))
  }

  function HeadPairs(heads: seq<HeadText>): seq<(seq<Byte>, seq<Byte>)> {
    if heads == [] then [] else [(Utf8(heads[0].assetId), Utf8(heads[0].root))] + HeadPairs(heads[1..])
  }

  lemma {:induction false} ReadsHeads(heads: seq<HeadText>, x: seq<Byte>)
    requires forall i :: 0 <= i < |heads| ==> FitsFrame(heads[i].assetId) && FitsFrame(heads[i].root)
    ensures ReadHeads(HeadBytes(heads) + x, |heads|) == Got(HeadPairs(heads), x)
    decreases |heads|
  {
    hide ReadFrame, Framed, Utf8;
    if heads == [] {
      ConcatUnit(x);
    } else {
      var rest := HeadBytes(heads[1..]) + x;
      HeadsFirst(heads, x);
      ReadsHeads(heads[1..], x);
      ReadsFrame(Utf8(heads[0].assetId), Field(heads[0].root) + rest);
      ReadsFrame(Utf8(heads[0].root), rest);
    }
  }

  lemma ReadsKeys(a: seq<Byte>, b: seq<Byte>, x: seq<Byte>)
    requires IsU32(|a|) && IsU32(|b|)
    ensures ReadKeys(Framed(a) + (Framed(b) + x)) == Got((a, b), x)
  {
    hide Framed, ReadFrame;
    ReadsFrame(a, Framed(b) + x);
    ReadsFrame(b, x);
  }

  lemma RotationEnds(r: RotationText, title: seq<Byte>, keys: (seq<Byte>, seq<Byte>))
    requires r.Fits()
    ensures RotationEnd(title, r.epoch, keys, U64(|r.heads|) + (HeadBytes(r.heads) + (Field(r.reason) + [])))
      == Some(RotationFields(title, r.epoch, keys.0, keys.1, HeadPairs(r.heads), Utf8(r.reason)))
  {
    hide U64, Framed, Utf8, ReadNumber, ReadFrame, ReadHeads, HeadBytes, HeadPairs;
    ReadsU64(|r.heads|, HeadBytes(r.heads) + (Field(r.reason) + []));
    ReadsHeads(r.heads, Field(r.reason) + []);
    ReadsFrame(Utf8(r.reason), []);
  }

  /** What a rotation's signature covers: the label, the epoch, the two keys, every head in order, and the reason. */
  lemma RotationComesBack(r: RotationText)
    requires r.Fits()
    ensures RotationRead(CanonicalRotation(r)) ==
      Some(RotationFields(RotationTitle(), r.epoch, Utf8(r.fromPublicKey), Utf8(r.toPublicKey),
                          HeadPairs(r.heads), Utf8(r.reason)))
  {
    Titles();
    hide U64, Framed, Utf8, RotationLabel, ReadNumber, ReadFrame, ReadKeys, RotationEnd, HeadBytes, HeadPairs, RotationTitle;
    var rest := U64(|r.heads|) + (HeadBytes(r.heads) + (Field(r.reason) + []));
    var keys := Field(r.fromPublicKey) + (Field(r.toPublicKey) + rest);
    ReadsFrame(Utf8(RotationLabel()), RotationTail(r));
    ReadsU64(r.epoch, keys);
    ReadsKeys(Utf8(r.fromPublicKey), Utf8(r.toPublicKey), rest);
    RotationEnds(r, Utf8(RotationLabel()), (Utf8(r.fromPublicKey), Utf8(r.toPublicKey)));
  }
}
