/** Rotations of 32-bit words (ModifiedRC5.rotate_left and its inverse). */
module Word32 {

  /** rotate_left: `(w << n) | (w >> (32 - n))` on a 32-bit word. Python
      rejects a negative shift, so n lies in [0, 32]. */
  function RotateLeft(w: bv32, n: bv32): bv32
    requires n <= 32
  {
    (w << n) | (w >> (32 - n))
  }

  /** The cyclic right rotation, used to undo RotateLeft. */
  function RotateRight(w: bv32, n: bv32): bv32
    requires n <= 32
  {
    (w >> n) | (w << (32 - n))
  }

  /** n is one of the rotation amounts 0 to 15, written out value by value
      so that asserting it splits a fact about those amounts into concrete
      cases. */
  predicate EnumeratedLowAmount(n: int)
  {
    n == 0 || n == 1 || n == 2 || n == 3 || n == 4 || n == 5 || n == 6 || n == 7 ||
    n == 8 || n == 9 || n == 10 || n == 11 || n == 12 || n == 13 || n == 14 || n == 15
  }

  /** n is one of the rotation amounts 16 to 32, written out value by value. */
  predicate EnumeratedHighAmount(n: int)
  {
    n == 16 || n == 17 || n == 18 || n == 19 || n == 20 || n == 21 || n == 22 || n == 23 ||
    n == 24 || n == 25 || n == 26 || n == 27 || n == 28 || n == 29 || n == 30 || n == 31 ||
    n == 32
  }

  /** rotate_left by an amount in [0, 16) is the cyclic left rotation. */
  lemma RotateLeftIsRotationLow(w: bv32, n: nat)
    requires n < 16
    ensures RotateLeft(w, n as bv32) == w.RotateLeft(n)
  {
    assert EnumeratedLowAmount(n);
  }

  /** rotate_left by an amount in [16, 32] is the cyclic left rotation. */
  lemma RotateLeftIsRotationHigh(w: bv32, n: nat)
    requires 16 <= n <= 32
    ensures RotateLeft(w, n as bv32) == w.RotateLeft(n)
  {
    assert EnumeratedHighAmount(n);
  }

  /** rotate_left by any n in [0, 32] is the cyclic left rotation of the
      word (Dafny's own RotateLeft on bv32). */
  lemma RotateLeftIsRotation(w: bv32, n: nat)
    requires n <= 32
    ensures RotateLeft(w, n as bv32) == w.RotateLeft(n)
  {
    if n < 16 {
      RotateLeftIsRotationLow(w, n);
    } else {
      RotateLeftIsRotationHigh(w, n);
    }
  }

  /** Rotating right by the cipher's amount 7 undoes rotating left by it. */
  lemma RotateLeftRight(w: bv32)
    ensures RotateRight(RotateLeft(w, 7), 7) == w
  {
  }

  /** Rotating left by the cipher's amount 7 undoes rotating right by it. */
  lemma RotateRightLeft(w: bv32)
    ensures RotateLeft(RotateRight(w, 7), 7) == w
  {
  }
}

/** The toy ARX block cipher of implementation.py (class ModifiedRC5): 12
    rounds over two 32-bit words, each round two half-rounds of XOR,
    rotate-left by 7 and XOR with a round key, each followed by a swap.
    Words are `bv32`; the source's Python integers below 2^32 convert to
    and from them exactly. */
module ModifiedRc5 {
  import opened Word32

  /** Number of rounds `encrypt` runs. */
  const RoundCount: nat := 12

  /** The two round keys the constructor keeps; its range checks
      0 <= k < 2^32 are the `bv32` type. */
  datatype Key = Key(k0: bv32, k1: bv32)

  /** One half-round and the swap that follows it: `xl := rotl(xl ^ xr, 7) ^ k`,
      then `xl, xr := xr, xl`. */
  function HalfRound(x: (bv32, bv32), k: bv32): (bv32, bv32)
  {
    (x.1, RotateLeft(x.0 ^ x.1, 7) ^ k)
  }

  /** Undoes HalfRound with the same key. */
  function InverseHalfRound(y: (bv32, bv32), k: bv32): (bv32, bv32)
  {
    (RotateRight(y.1 ^ k, 7) ^ y.0, y.0)
  }

  /** A half-round is undone by its inverse: the key cancels, the right
      rotation by 7 undoes the left one, and XOR with xr recovers xl. */
  lemma HalfRoundInverts(xl: bv32, xr: bv32, k: bv32)
    ensures InverseHalfRound(HalfRound((xl, xr), k), k) == (xl, xr)
  {
    var r := RotateLeft(xl ^ xr, 7);
    assert (r ^ k) ^ k == r;
    RotateLeftRight(xl ^ xr);
    assert (xl ^ xr) ^ xr == xl;
  }

  /** The inverse of a half-round is undone by the half-round. */
  lemma InverseHalfRoundInverts(yl: bv32, yr: bv32, k: bv32)
    ensures HalfRound(InverseHalfRound((yl, yr), k), k) == (yl, yr)
  {
    var q := yr ^ k;
    assert RotateLeft(RotateRight(q, 7), 7) == q by {
      RotateRightLeft(q);
    }
  }

  /** A round: a half-round under k0, then one under k1. */
  function Round(key: Key, x: (bv32, bv32)): (bv32, bv32)
  {
    HalfRound(HalfRound(x, key.k0), key.k1)
  }

  /** Undoes Round with the same key. */
  function InverseRound(key: Key, y: (bv32, bv32)): (bv32, bv32)
  {
    InverseHalfRound(InverseHalfRound(y, key.k1), key.k0)
  }

  /** `rounds` rounds of encryption. */
  function Encrypted(key: Key, x: (bv32, bv32), rounds: nat): (bv32, bv32)
  {
    if rounds == 0 then x else Round(key, Encrypted(key, x, rounds - 1))
  }

  /** `rounds` rounds of the inverse, last round first. */
  function Decrypted(key: Key, y: (bv32, bv32), rounds: nat): (bv32, bv32)
    decreases rounds
  {
    if rounds == 0 then y else Decrypted(key, InverseRound(key, y), rounds - 1)
  }

  /** Decryption recovers every plaintext. */
  lemma {:induction false} DecryptEncrypt(key: Key, x: (bv32, bv32), rounds: nat)
    ensures Decrypted(key, Encrypted(key, x, rounds), rounds) == x
  {
    if rounds > 0 {
      var prev := Encrypted(key, x, rounds - 1);
      var mid := HalfRound(prev, key.k0);
      HalfRoundInverts(mid.0, mid.1, key.k1);
      HalfRoundInverts(prev.0, prev.1, key.k0);
      assert InverseRound(key, Round(key, prev)) == prev;
      DecryptEncrypt(key, x, rounds - 1);
    }
  }

  /** Every block is the encryption of its decryption, so encryption under a
      fixed key is a permutation of the 2^64 blocks. */
  lemma {:induction false} EncryptDecrypt(key: Key, y: (bv32, bv32), rounds: nat)
    ensures Encrypted(key, Decrypted(key, y, rounds), rounds) == y
    decreases rounds
  {
    if rounds > 0 {
      var y' := InverseRound(key, y);
      var mid := InverseHalfRound(y, key.k1);
      InverseHalfRoundInverts(mid.0, mid.1, key.k0);
      InverseHalfRoundInverts(y.0, y.1, key.k1);
      assert Round(key, y') == y;
      EncryptDecrypt(key, y', rounds - 1);
      assert Decrypted(key, y, rounds) == Decrypted(key, y', rounds - 1);
    }
  }

  /** The cipher under a key: RoundCount rounds. */
  function Cipher(key: Key, x: (bv32, bv32)): (bv32, bv32)
  {
    Encrypted(key, x, RoundCount)
  }

  /** The inverse cipher under a key. */
  function Decipher(key: Key, y: (bv32, bv32)): (bv32, bv32)
  {
    Decrypted(key, y, RoundCount)
  }

  /** The cipher under a fixed key is a bijection on blocks, with Decipher
      its inverse on both sides. */
  lemma CipherIsBijection(key: Key, x: (bv32, bv32), y: (bv32, bv32))
    ensures Decipher(key, Cipher(key, x)) == x
    ensures Cipher(key, Decipher(key, y)) == y
  {
    DecryptEncrypt(key, x, RoundCount);
    EncryptDecrypt(key, y, RoundCount);
  }

  /** One half-round of ModifiedRC5.encrypt as the source writes it out
      (twice per round): XOR, rotate, XOR with the key, swap. */
  method HalfRoundStep(xl: bv32, xr: bv32, k: bv32) returns (yl: bv32, yr: bv32)
    ensures (yl, yr) == HalfRound((xl, xr), k)
  {
    yl, yr := xl, xr;
    yl := yl ^ yr;
    yl := RotateLeft(yl, 7);
    yl := yl ^ k;
    yl, yr := yr, yl;
  }

  /** ModifiedRC5.encrypt: twelve rounds, each a half-round under k0 and
      one under k1; the range checks on xl and xr are the `bv32` type. */
  method Encrypt(key: Key, xl: bv32, xr: bv32) returns (yl: bv32, yr: bv32)
    ensures (yl, yr) == Cipher(key, (xl, xr))
  {
    var l, r := xl, xr;
    for roundNo := 0 to RoundCount
      invariant (l, r) == Encrypted(key, (xl, xr), roundNo)
    {
      l, r := HalfRoundStep(l, r, key.k0);
      l, r := HalfRoundStep(l, r, key.k1);
    }
    yl, yr := l, r;
  }
}
