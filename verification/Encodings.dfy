/**
The bytes a signature covers: `canonicalEncoding` (packages/distribution/src/signing.ts) and
`canonicalRotation` (packages/distribution/src/rotation.ts). Each reads only one way.
*/
module Encodings {
  import opened Prelude
  import opened Framing
  import opened Text

  type Str = seq<Unit>

  predicate FitsFrame(text: Str) {
    IsU32(|Utf8(text)|)
  }

  function Field(text: Str): seq<Byte>
    requires FitsFrame(text)
  {
    Framed(Utf8(text))
  }

  /** Two strings a signature cannot tell apart. */
  predicate SameBytes(a: Str, b: Str) {
    Utf8(a) == Utf8(b)
  }

  lemma CutField(a: Str, x: seq<Byte>, b: Str, y: seq<Byte>)
    requires FitsFrame(a) && FitsFrame(b) && Field(a) + x == Field(b) + y
    ensures SameBytes(a, b) && x == y
  {
    CutFramed(Utf8(a), x, Utf8(b), y);
  }

  /** A label of ASCII characters. */
  function Label(text: string): (units: Str)
    requires forall i :: 0 <= i < |text| ==> text[i] < 128 as char
    ensures |units| == |text|
  {
    seq(|text|, i requires 0 <= i < |text| => text[i] as int)
  }

  lemma {:induction false} AsciiIsWellFormed(units: Str)
    requires forall i :: 0 <= i < |units| ==> units[i] < 128
    ensures WellFormed(units) && |Utf8(units)| == |units|
    decreases |units|
  {
    if units != [] {
      AsciiIsWellFormed(units[1..]);
    }
  }

  function CommitmentLabel(): (text: Str)
    ensures |text| == 17 == |Utf8(text)| && FitsFrame(text)
  {
    AsciiIsWellFormed(Label("otc-commitment-v2"));
    Label("otc-commitment-v2")
  }

  function RotationLabel(): (text: Str)
    ensures |text| == 19 == |Utf8(text)| && FitsFrame(text)
  {
    AsciiIsWellFormed(Label("otc-key-rotation-v2"));
    Label("otc-key-rotation-v2")
  }

  // ---------------------------------------------------------------- commitments

  /** A commitment as its signature sees it: text, and integers. */
  datatype CommitmentText = CommitmentText(
    assetId: Str,
    fromSequence: int,
    toSequence: int,
    count: int,
    previousRoot: Str,
    root: Str,
    resumesAfter: Option<int>)
  {
    /** Where the source's writes do not throw. */
    predicate Fits() {
      && FitsFrame(assetId) && IsU64(fromSequence) && IsU64(toSequence) && IsU64(count)
      && FitsFrame(previousRoot) && FitsFrame(root) && (resumesAfter.Some? ==> IsU64(resumesAfter.value))
    }

    predicate AllWellFormed() {
      WellFormed(assetId) && WellFormed(previousRoot) && WellFormed(root)
    }
  }

  function Trailer(resumesAfter: Option<int>): seq<Byte>
    requires resumesAfter.Some? ==> IsU64(resumesAfter.value)
  {
    if resumesAfter.None? then [] else U64(resumesAfter.value)
  }

  function CanonicalEncoding(c: CommitmentText): seq<Byte>
    requires c.Fits()
  {
    Field(CommitmentLabel()) + CanonicalTail(c)
  }

  function CanonicalTail(c: CommitmentText): seq<Byte>
    requires c.Fits()
  {
    Field(c.assetId) + (U64(c.fromSequence) + (U64(c.toSequence)
      + (U64(c.count) + (Field(c.previousRoot) + (Field(c.root) + Trailer(c.resumesAfter))))))
  }

  /** Equal in every field, up to strings that encode alike. */
  predicate SameCommitment(a: CommitmentText, b: CommitmentText) {
    && SameBytes(a.assetId, b.assetId) && SameBytes(a.previousRoot, b.previousRoot) && SameBytes(a.root, b.root)
    && a.fromSequence == b.fromSequence && a.toSequence == b.toSequence && a.count == b.count
    && a.resumesAfter == b.resumesAfter
  }

  /** The trailing resume point is read from the length alone. */
  lemma TrailerBinds(a: Option<int>, b: Option<int>)
    requires (a.Some? ==> IsU64(a.value)) && (b.Some? ==> IsU64(b.value)) && Trailer(a) == Trailer(b)
    ensures a == b
  {
    if a.Some? && b.Some? {
      CutU64(a.value, [], b.value, []);
    }
  }

  /** One signature attests one commitment: equal bytes mean equal fields, and only then. */
  lemma EncodingBinds(a: CommitmentText, b: CommitmentText)
    requires a.Fits() && b.Fits()
    ensures CanonicalEncoding(a) == CanonicalEncoding(b) <==> SameCommitment(a, b)
    ensures CanonicalEncoding(a) == CanonicalEncoding(b) && a.AllWellFormed() && b.AllWellFormed() ==> a == b
  {
    hide U64, Framed, CommitmentLabel;
    if CanonicalEncoding(a) == CanonicalEncoding(b) {
      var a5, b5 := Field(a.root) + Trailer(a.resumesAfter), Field(b.root) + Trailer(b.resumesAfter);
      var a4, b4 := Field(a.previousRoot) + a5, Field(b.previousRoot) + b5;
      var a3, b3 := U64(a.count) + a4, U64(b.count) + b4;
      var a2, b2 := U64(a.toSequence) + a3, U64(b.toSequence) + b3;
      var a1, b1 := U64(a.fromSequence) + a2, U64(b.fromSequence) + b2;
      CutField(CommitmentLabel(), Field(a.assetId) + a1, CommitmentLabel(), Field(b.assetId) + b1);
      hide Field;
      CutField(a.assetId, a1, b.assetId, b1);
      CutU64(a.fromSequence, a2, b.fromSequence, b2);
      CutU64(a.toSequence, a3, b.toSequence, b3);
      CutU64(a.count, a4, b.count, b4);
      CutField(a.previousRoot, a5, b.previousRoot, b5);
      CutField(a.root, Trailer(a.resumesAfter), b.root, Trailer(b.resumesAfter));
      TrailerBinds(a.resumesAfter, b.resumesAfter);
      if a.AllWellFormed() && b.AllWellFormed() {
        Utf8Binds(a.assetId, b.assetId);
        Utf8Binds(a.previousRoot, b.previousRoot);
        Utf8Binds(a.root, b.root);
      }
    }
  }

  // ---------------------------------------------------------------- rotations

  datatype HeadText = HeadText(assetId: Str, root: Str)

  datatype RotationText = RotationText(
    epoch: int,
    fromPublicKey: Str,
    toPublicKey: Str,
    heads: seq<HeadText>,
    reason: Str)
  {
    predicate Fits() {
      && IsU64(epoch) && FitsFrame(fromPublicKey) && FitsFrame(toPublicKey) && IsU64(|heads|)
      && (forall i :: 0 <= i < |heads| ==> FitsFrame(heads[i].assetId) && FitsFrame(heads[i].root))
      && FitsFrame(reason)
    }

    predicate AllWellFormed() {
      && WellFormed(fromPublicKey) && WellFormed(toPublicKey) && WellFormed(reason)
      && (forall i :: 0 <= i < |heads| ==> WellFormed(heads[i].assetId) && WellFormed(heads[i].root))
    }
  }

  function HeadBytes(heads: seq<HeadText>): seq<Byte>
    requires forall i :: 0 <= i < |heads| ==> FitsFrame(heads[i].assetId) && FitsFrame(heads[i].root)
  {
    if heads == [] then []
    else Field(heads[0].assetId) + (Field(heads[0].root) + HeadBytes(heads[1..]))
  }

  function CanonicalRotation(r: RotationText): seq<Byte>
    requires r.Fits()
  {
    Field(RotationLabel()) + RotationTail(r)
  }

  function RotationTail(r: RotationText): seq<Byte>
    requires r.Fits()
  {
    U64(r.epoch) + (Field(r.fromPublicKey) + (Field(r.toPublicKey)
      + (U64(|r.heads|) + (HeadBytes(r.heads) + (Field(r.reason) + [])))))
  }

  predicate SameHeads(a: seq<HeadText>, b: seq<HeadText>) {
    |a| == |b| && forall i :: 0 <= i < |a| ==> SameBytes(a[i].assetId, b[i].assetId) && SameBytes(a[i].root, b[i].root)
  }

  predicate SameRotation(a: RotationText, b: RotationText) {
    && a.epoch == b.epoch && SameBytes(a.fromPublicKey, b.fromPublicKey) && SameBytes(a.toPublicKey, b.toPublicKey)
    && SameHeads(a.heads, b.heads) && SameBytes(a.reason, b.reason)
  }

  /** Lists of one length are read apart head by head, whatever follows them. */
  lemma {:induction false} CutHeads(a: seq<HeadText>, x: seq<Byte>, b: seq<HeadText>, y: seq<Byte>)
    requires forall i :: 0 <= i < |a| ==> FitsFrame(a[i].assetId) && FitsFrame(a[i].root)
    requires forall i :: 0 <= i < |b| ==> FitsFrame(b[i].assetId) && FitsFrame(b[i].root)
    requires |a| == |b| && HeadBytes(a) + x == HeadBytes(b) + y
    ensures SameHeads(a, b) && x == y
    decreases |a|
  {
    hide Field;
    ConcatUnit(x);
    ConcatUnit(y);
    if a != [] {
      var c, d := HeadBytes(a[1..]), HeadBytes(b[1..]);
      HeadsFirst(a, x);
      HeadsFirst(b, y);
      CutField(a[0].assetId, Field(a[0].root) + (c + x), b[0].assetId, Field(b[0].root) + (d + y));
      CutField(a[0].root, c + x, b[0].root, d + y);
      CutHeads(a[1..], x, b[1..], y);
      forall i | 0 <= i < |a|
        ensures SameBytes(a[i].assetId, b[i].assetId) && SameBytes(a[i].root, b[i].root)
      {
        if i > 0 {
          assert a[i] == a[1..][i - 1] && b[i] == b[1..][i - 1];
        }
      }
    }
  }

  lemma HeadsFirst(a: seq<HeadText>, x: seq<Byte>)
    requires a != []
    requires forall i :: 0 <= i < |a| ==> FitsFrame(a[i].assetId) && FitsFrame(a[i].root)
    ensures HeadBytes(a) + x == Field(a[0].assetId) + (Field(a[0].root) + (HeadBytes(a[1..]) + x))
  {
    hide Field;
    ConcatAssociates(Field(a[0].root), HeadBytes(a[1..]), x);
    ConcatAssociates(Field(a[0].assetId), Field(a[0].root) + HeadBytes(a[1..]), x);
  }

  lemma {:induction false} SameHeadsSameBytes(a: seq<HeadText>, b: seq<HeadText>)
    requires forall i :: 0 <= i < |a| ==> FitsFrame(a[i].assetId) && FitsFrame(a[i].root)
    requires forall i :: 0 <= i < |b| ==> FitsFrame(b[i].assetId) && FitsFrame(b[i].root)
    requires SameHeads(a, b)
    ensures HeadBytes(a) == HeadBytes(b)
    decreases |a|
  {
    if a != [] {
      SameHeadsSameBytes(a[1..], b[1..]);
    }
  }

  /** One signature attests one succession: no rearrangement of keys, heads or reason encodes alike. */
  lemma RotationBinds(a: RotationText, b: RotationText)
    requires a.Fits() && b.Fits()
    ensures CanonicalRotation(a) == CanonicalRotation(b) <==> SameRotation(a, b)
    ensures CanonicalRotation(a) == CanonicalRotation(b) && a.AllWellFormed() && b.AllWellFormed() ==> a == b
  {
    hide U64, Framed, RotationLabel;
    if CanonicalRotation(a) == CanonicalRotation(b) {
      var a4, b4 := HeadBytes(a.heads) + (Field(a.reason) + []), HeadBytes(b.heads) + (Field(b.reason) + []);
      var a3, b3 := U64(|a.heads|) + a4, U64(|b.heads|) + b4;
      var a2, b2 := Field(a.toPublicKey) + a3, Field(b.toPublicKey) + b3;
      var a1, b1 := Field(a.fromPublicKey) + a2, Field(b.fromPublicKey) + b2;
      CutField(RotationLabel(), U64(a.epoch) + a1, RotationLabel(), U64(b.epoch) + b1);
      hide Field, HeadBytes;
      CutU64(a.epoch, a1, b.epoch, b1);
      CutField(a.fromPublicKey, a2, b.fromPublicKey, b2);
      CutField(a.toPublicKey, a3, b.toPublicKey, b3);
      CutU64(|a.heads|, a4, |b.heads|, b4);
      CutHeads(a.heads, Field(a.reason) + [], b.heads, Field(b.reason) + []);
      CutField(a.reason, [], b.reason, []);
      if a.AllWellFormed() && b.AllWellFormed() {
        SameRotationIsEqual(a, b);
      }
    }
    if SameRotation(a, b) {
      SameHeadsSameBytes(a.heads, b.heads);
    }
  }

  lemma SameRotationIsEqual(a: RotationText, b: RotationText)
    requires SameRotation(a, b) && a.AllWellFormed() && b.AllWellFormed()
    ensures a == b
  {
    Utf8Binds(a.fromPublicKey, b.fromPublicKey);
    Utf8Binds(a.toPublicKey, b.toPublicKey);
    Utf8Binds(a.reason, b.reason);
    forall i | 0 <= i < |a.heads|
      ensures a.heads[i] == b.heads[i]
    {
      Utf8Binds(a.heads[i].assetId, b.heads[i].assetId);
      Utf8Binds(a.heads[i].root, b.heads[i].root);
    }
    assert a.heads == b.heads;
  }

  lemma FrameStarts(value: seq<Byte>, rest: seq<Byte>)
    requires IsU32(|value|)
    ensures |Framed(value) + rest| >= 4 && (Framed(value) + rest)[..4] == U32(|value|)
  {
  }

  /** No signature over a commitment is a signature over a rotation. */
  lemma EncodingsDisjoint(c: CommitmentText, r: RotationText)
    requires c.Fits() && r.Fits()
    ensures CanonicalEncoding(c) != CanonicalRotation(r)
  {
    hide U64, U32, Framed, CommitmentLabel, RotationLabel, HeadBytes, Utf8, Trailer;
    FrameStarts(Utf8(CommitmentLabel()), CanonicalTail(c));
    FrameStarts(Utf8(RotationLabel()), RotationTail(r));
    if U32(17) == U32(19) {
      U32Binds(17, 19);
    }
  }
}
