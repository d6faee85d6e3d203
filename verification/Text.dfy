/**
JavaScript strings and their UTF-8 (the `wellFormed` guard of
packages/distribution/src/rotation.ts): exactly which strings the signed bytes identify.
*/
module Text {
  import opened Framing
  import opened Prelude

  /** One UTF-16 code unit. */
  type Unit = u: int | 0 <= u < 0x1_0000

  predicate IsHigh(u: Unit) {
    0xD800 <= u <= 0xDBFF
  }

  predicate IsLow(u: Unit) {
    0xDC00 <= u <= 0xDFFF
  }

  /** The first two units are a surrogate pair. */
  predicate Paired(units: seq<Unit>) {
    |units| > 1 && IsHigh(units[0]) && IsLow(units[1])
  }

  /** The first unit is half a pair. */
  predicate Lone(units: seq<Unit>)
    requires units != []
  {
    (IsHigh(units[0]) || IsLow(units[0])) && !Paired(units)
  }

  function Width(units: seq<Unit>): (width: nat)
    requires units != []
    ensures 1 <= width <= |units|
  {
    if Paired(units) then 2 else 1
  }

  /** The code point an encoder writes first: half a pair is written as U+FFFD. */
  function First(units: seq<Unit>): (point: nat)
    requires units != []
    ensures point < 0x11_0000
  {
    if Paired(units) then
      var high: int, low: int := units[0], units[1];
      0x1_0000 + (high - 0xD800) * 0x400 + (low - 0xDC00)
    else if Lone(units) then 0xFFFD
    else units[0]
  }

  function EncodePoint(point: nat): (bytes: seq<Byte>)
    requires point < 0x11_0000
    ensures bytes != []
  {
    if point < 0x80 then [point]
    else if point < 0x800 then [0xC0 + point / 0x40, 0x80 + point % 0x40]
    else if point < 0x1_0000 then [0xE0 + point / 0x1000, 0x80 + point / 0x40 % 0x40, 0x80 + point % 0x40]
    else [0xF0 + point / 0x4_0000, 0x80 + point / 0x1000 % 0x40, 0x80 + point / 0x40 % 0x40, 0x80 + point % 0x40]
  }

  /** `Buffer.from(value, 'utf8')`. */
  function Utf8(units: seq<Unit>): seq<Byte> {
    if units == [] then [] else EncodePoint(First(units)) + Utf8(units[Width(units)..])
  }

  predicate WellFormed(units: seq<Unit>) {
    units == [] || (!Lone(units) && WellFormed(units[Width(units)..]))
  }

  /** `wellFormed`: the index walk, skipping the second half of a pair. */
  method IsWellFormed(value: seq<Unit>) returns (ok: bool)
    ensures ok <==> WellFormed(value)
  {
    var index := 0;
    while index < |value|
      invariant 0 <= index <= |value|
      invariant WellFormed(value) <==> WellFormed(value[index..])
    {
      var code := value[index];
      ghost var rest := value[index..];
      assert rest[0] == code && (|rest| > 1 ==> rest[1] == value[index + 1]);
      DropDrop(value, index, Width(rest));
      if 0xD800 <= code <= 0xDBFF {
        if !(index + 1 < |value| && 0xDC00 <= value[index + 1] <= 0xDFFF) {
          return false;
        }
        index := index + 1;
      } else if 0xDC00 <= code <= 0xDFFF {
        return false;
      }
      index := index + 1;
    }
    return true;
  }

  // ---------------------------------------------------------------- what the bytes identify

  /** A lead byte says how many bytes follow, and the bytes say the point. */
  lemma CutPoint(p: nat, x: seq<Byte>, q: nat, y: seq<Byte>)
    requires p < 0x11_0000 && q < 0x11_0000 && EncodePoint(p) + x == EncodePoint(q) + y
    ensures p == q && x == y
  {
    assert (EncodePoint(p) + x)[0] == EncodePoint(p)[0] && (EncodePoint(q) + y)[0] == EncodePoint(q)[0];
    SameLead(p, q);
    Cut(EncodePoint(p), x, EncodePoint(q), y);
    PointBinds(p, q);
  }

  lemma SameLead(p: nat, q: nat)
    requires p < 0x11_0000 && q < 0x11_0000 && EncodePoint(p)[0] == EncodePoint(q)[0]
    ensures |EncodePoint(p)| == |EncodePoint(q)|
  {
  }

  /** A point is the digits its bytes carry, six bits each. */
  lemma SixBitDigits(p: nat)
    ensures p == p / 0x40 * 0x40 + p % 0x40
    ensures p / 0x40 == p / 0x1000 * 0x40 + p / 0x40 % 0x40
    ensures p / 0x1000 == p / 0x4_0000 * 0x40 + p / 0x1000 % 0x40
  {
  }

  lemma PointBinds(p: nat, q: nat)
    requires p < 0x11_0000 && q < 0x11_0000 && EncodePoint(p) == EncodePoint(q)
    ensures p == q
  {
    var a, b := EncodePoint(p), EncodePoint(q);
    SixBitDigits(p);
    SixBitDigits(q);
    assert a[0] == b[0];
    if |a| > 1 {
      assert a[1] == b[1];
    }
    if |a| > 2 {
      assert a[2] == b[2];
    }
    if |a| > 3 {
      assert a[3] == b[3];
    }
  }

  lemma FirstBinds(a: seq<Unit>, b: seq<Unit>)
    requires a != [] && b != [] && !Lone(a) && !Lone(b) && First(a) == First(b)
    ensures Width(a) == Width(b) && a[..Width(a)] == b[..Width(b)]
  {
  }

  /** Among well-formed strings the bytes identify the string. */
  lemma {:induction false} Utf8Binds(a: seq<Unit>, b: seq<Unit>)
    requires WellFormed(a) && WellFormed(b) && Utf8(a) == Utf8(b)
    ensures a == b
    decreases |a|
  {
    if a == [] || b == [] {
      assert a == b;
    } else {
      var x, y := a[Width(a)..], b[Width(b)..];
      CutPoint(First(a), Utf8(x), First(b), Utf8(y));
      FirstBinds(a, b);
      Utf8Binds(x, y);
      CutAt(a, Width(a));
      CutAt(b, Width(b));
    }
  }

  /** Every half pair replaced by U+FFFD. */
  function Repaired(units: seq<Unit>): seq<Unit> {
    if units == [] then []
    else (if Lone(units) then [0xFFFD] else units[..Width(units)]) + Repaired(units[Width(units)..])
  }

  /**
  The guard is exact: a string that is not well formed signs the same bytes as another string, one
  that is well formed.
  */
  lemma {:induction false} IllFormedIsAmbiguous(units: seq<Unit>)
    ensures WellFormed(Repaired(units)) && Utf8(Repaired(units)) == Utf8(units)
    ensures WellFormed(units) <==> Repaired(units) == units
    decreases |units|
  {
    if units != [] {
      var rest := units[Width(units)..];
      var head := if Lone(units) then [0xFFFD] else units[..Width(units)];
      IllFormedIsAmbiguous(rest);
      PrefixDecides(head, Repaired(rest));
      assert (head + Repaired(rest))[|head|..] == Repaired(rest);
      CutAt(units, Width(units));
      if Repaired(units) == units {
        assert units[..|head|] == head;
        assert units[|head|..] == Repaired(rest);
      }
    }
  }

  /** What a string starts with is decided by its first units alone, once they are not half a pair. */
  lemma PrefixDecides(head: seq<Unit>, tail: seq<Unit>)
    requires head != [] && !Lone(head) && Width(head) == |head|
    ensures !Lone(head + tail) && Width(head + tail) == |head| && First(head + tail) == First(head)
  {
  }
}
