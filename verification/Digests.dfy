/**
Digests as free terms, and the hex text the source stores them in.

SHA-256 is a foreign call. A digest is represented by the preimage it was computed
from, so two digests are equal exactly when their preimages are; the module Framing
shows that the byte strings the source really hashes have that property. `Opaque`
stands for 32 bytes nobody computed: whatever a hostile record holds.
*/
module Digests {
  import opened Prelude

  /** What `Buffer.from(text, 'hex')` yields: nothing, exactly 32 bytes, or some other length. */
  datatype Bytes = NoBytes | Whole(digest: Digest) | Ragged(id: nat)

  /** Every field of a link that its root binds, besides the Merkle root. */
  datatype LinkFields = LinkFields(
    assetId: string,
    fromSequence: int,
    toSequence: int,
    count: int,
    previous: Bytes)

  datatype Digest =
    | Leaf(tick: Tick)
    | Node(left: Digest, right: Digest)
    | Root(fields: LinkFields, merkle: Digest)
    | ResumeRoot(fields: LinkFields, resumesAfter: int, merkle: Digest)
    | Opaque(id: nat)

  /**
  A string where the source expects hex.

  `Blank` is the empty string. `Digits` is 64 hex characters; spelling 0 is lower case,
  every other spelling capitalises some letters and decodes to the same bytes. `Other` is
  any other string, with the bytes it decodes to: decoding stops at the first character
  that is not hex, so trailing junk can follow 32 whole bytes.
  */
  datatype Hex = Blank | Digits(digest: Digest, spelling: nat) | Other(decoded: Bytes, id: nat)

  /** `digest.toString('hex')`: always lower case. */
  function ToHex(digest: Digest): Hex {
    Digits(digest, 0)
  }

  /** `Buffer.from(text, 'hex')`. */
  function Decode(text: Hex): Bytes {
    match text
    case Blank => NoBytes
    case Digits(digest, _) => Whole(digest)
    case Other(decoded, _) => decoded
  }
}
