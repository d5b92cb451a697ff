/**
 * The reflected CRC-8 of `crc_8_digest` (zephyr/util.py, with the same
 * algorithm, identical up to the parameter name, in zephyr/message.py): initial value 0, each byte XORed into the
 * accumulator, then eight rounds of "shift right, XOR 0x8C if the bit
 * shifted out was set", no final XOR.  This is the Dallas/Maxim 1-Wire CRC-8
 * (polynomial x^8 + x^5 + x^4 + 1).
 *
 * Python integers are unbounded, so the accumulator is a `nat` and XOR is
 * defined arithmetically; that the result stays in 0..255 is a lemma.
 */
module Checksum {

  /** A byte value as produced by Python's `ord` on a serial string. */
  type byte = x: int | 0 <= x < 256

  /** The reflected polynomial constant of the source. */
  const POLYNOMIAL: nat := 0x8C

  function Pow2(n: nat): (r: nat)
    ensures r >= 1
  {
    if n == 0 then 1 else 2 * Pow2(n - 1)
  }

  /** Bitwise exclusive or of two naturals (Python's `^` on non-negative ints). */
  function Xor(a: nat, b: nat): nat
    decreases a + b
  {
    if a == 0 then b
    else if b == 0 then a
    else 2 * Xor(a / 2, b / 2) + (a % 2 + b % 2) % 2
  }

  lemma {:induction false} XorBounded(a: nat, b: nat, n: nat)
    requires a < Pow2(n) && b < Pow2(n)
    ensures Xor(a, b) < Pow2(n)
    decreases a + b
  {
    if a != 0 && b != 0 {
      XorBounded(a / 2, b / 2, n - 1);
    }
  }

  lemma {:induction false} XorSelf(a: nat)
    ensures Xor(a, a) == 0
    decreases a
  {
    if a != 0 {
      XorSelf(a / 2);
    }
  }

  /** One of the eight inner rounds: `(crc >> 1) ^ 0x8C` if `crc & 1`, else `crc >> 1`. */
  function Round(crc: nat): nat
  {
    if crc % 2 == 1 then Xor(crc / 2, POLYNOMIAL) else crc / 2
  }

  /** `n` inner rounds applied to `crc`, the last one outermost. */
  function Rounds(crc: nat, n: nat): nat
  {
    if n == 0 then crc else Round(Rounds(crc, n - 1))
  }

  /** What the body of the outer loop does with one input byte. */
  function DigestByte(crc: nat, b: nat): nat
  {
    Rounds(Xor(crc, b), 8)
  }

  /** The outer loop as a left fold from accumulator `crc` over `s`. */
  function CrcFrom(crc: nat, s: seq<nat>): nat
    decreases |s|
  {
    if s == [] then crc else CrcFrom(DigestByte(crc, s[0]), s[1..])
  }

  /** The value `crc_8_digest(s)` returns. */
  function Crc8(s: seq<nat>): nat
  {
    CrcFrom(0, s)
  }

  predicate AllBytes(s: seq<nat>)
  {
    forall i :: 0 <= i < |s| ==> s[i] < 256
  }

  lemma {:induction false} RoundsBounded(crc: nat, n: nat)
    requires crc < 256
    ensures Rounds(crc, n) < 256
  {
    if n > 0 {
      RoundsBounded(crc, n - 1);
      var c := Rounds(crc, n - 1);
      if c % 2 == 1 {
        assert Pow2(8) == 256;
        XorBounded(c / 2, POLYNOMIAL, 8);
      }
    }
  }

  lemma DigestByteBounded(crc: nat, b: nat)
    requires crc < 256 && b < 256
    ensures DigestByte(crc, b) < 256
  {
    assert Pow2(8) == 256;
    XorBounded(crc, b, 8);
    RoundsBounded(Xor(crc, b), 8);
  }

  /** If every input is in 0..255 the digest is in 0..255. */
  lemma {:induction false} CrcFromBounded(crc: nat, s: seq<nat>)
    requires crc < 256 && AllBytes(s)
    ensures CrcFrom(crc, s) < 256
    decreases |s|
  {
    if s != [] {
      DigestByteBounded(crc, s[0]);
      CrcFromBounded(DigestByte(crc, s[0]), s[1..]);
    }
  }

  lemma Crc8Bounded(s: seq<nat>)
    requires AllBytes(s)
    ensures Crc8(s) < 256
  {
    CrcFromBounded(0, s);
  }

  /** The digest of the empty list is 0. */
  lemma Crc8Empty()
    ensures Crc8([]) == 0
  {
  }

  /** The digest is a left fold: appending a byte applies one more `Step`. */
  lemma {:induction false} CrcFromSnoc(crc: nat, s: seq<nat>, b: nat)
    ensures CrcFrom(crc, s + [b]) == DigestByte(CrcFrom(crc, s), b)
    decreases |s|
  {
    if s == [] {
      assert [b][1..] == [];
    } else {
      assert (s + [b])[1..] == s[1..] + [b];
      CrcFromSnoc(DigestByte(crc, s[0]), s[1..], b);
    }
  }

  lemma Crc8Snoc(s: seq<nat>, b: nat)
    ensures Crc8(s + [b]) == DigestByte(Crc8(s), b)
  {
    CrcFromSnoc(0, s, b);
  }

  lemma {:induction false} RoundsOfZero(n: nat)
    ensures Rounds(0, n) == 0
  {
    if n > 0 {
      RoundsOfZero(n - 1);
    }
  }

  /** Appending the digest to the data it covers makes the digest zero. */
  lemma Crc8AppendDigest(s: seq<nat>)
    ensures Crc8(s + [Crc8(s)]) == 0
  {
    Crc8Snoc(s, Crc8(s));
    XorSelf(Crc8(s));
    RoundsOfZero(8);
  }

  /**
   * `crc_8_digest` as written: a loop over the bytes with a nested loop of
   * eight rounds updating the accumulator.
   */
  method Crc8Digest(values: seq<nat>) returns (crc: nat)
    ensures crc == Crc8(values)
    ensures AllBytes(values) ==> crc < 256
  {
    crc := 0;
    for k := 0 to |values|
      invariant crc == Crc8(values[..k])
    {
      var b := values[k];
      crc := Xor(crc, b);
      ghost var start := crc;
      for i := 0 to 8
        invariant crc == Rounds(start, i)
      {
        if crc % 2 == 1 {
          crc := Xor(crc / 2, POLYNOMIAL);
        } else {
          crc := crc / 2;
        }
      }
      assert values[..k + 1] == values[..k] + [b];
      Crc8Snoc(values[..k], b);
    }
    assert values[..|values|] == values;
    if AllBytes(values) {
      Crc8Bounded(values);
    }
  }
}
