/** Unsigned machine integers of the C sources and the exclusive-or of bytes. */
module Bytes {

  type u8 = x: nat | x < 0x100
  type u16 = x: nat | x < 0x1_0000

  /** `(x >> 8) & 0xff` and `(x >> 0) & 0xff`. */
  function Hi(x: u16): u8 { x / 0x100 }

  function Lo(x: u16): u8 { x % 0x100 }

  /** `((uint16_t)h << 8) + l`. */
  function Word(h: u8, l: u8): u16 { h * 0x100 + l }

  /** Sum of two binary digits without carry. */
  function XorDigit(i: nat, j: nat): nat { if i == j then 0 else 1 }

  /** Digit-wise sum of two binary numbers. */
  function XorNat(a: nat, b: nat): nat
    decreases a + b
  {
    if a == 0 && b == 0 then 0 else 2 * XorNat(a / 2, b / 2) + XorDigit(a % 2, b % 2)
  }

  /** The C operator `^` on two bytes. */
  function Xor(a: u8, b: u8): u8 {
    XorNatBound(a, b, 0x100);
    XorNat(a, b)
  }

  /** Exclusive-or of `seed` and every byte of `s`, from left to right. */
  function XorFrom(seed: u8, s: seq<u8>): u8 {
    if |s| == 0 then seed else Xor(XorFrom(seed, s[..|s| - 1]), s[|s| - 1])
  }

  lemma XorNatDigits(a: nat, b: nat, i: nat, j: nat)
    requires i < 2 && j < 2
    ensures XorNat(2 * a + i, 2 * b + j) == 2 * XorNat(a, b) + XorDigit(i, j)
  {
  }

  lemma {:induction false} XorNatBound(a: nat, b: nat, bound: nat)
    requires a < bound && b < bound
    requires bound in {1, 2, 4, 8, 0x10, 0x20, 0x40, 0x80, 0x100}
    ensures XorNat(a, b) < bound
    decreases bound
  {
    if bound > 1 {
      XorNatBound(a / 2, b / 2, bound / 2);
    }
  }

  lemma {:induction false} XorNatAssociates(a: nat, b: nat, c: nat)
    ensures XorNat(XorNat(a, b), c) == XorNat(a, XorNat(b, c))
    decreases a + b + c
  {
    if a + b + c > 0 {
      XorNatAssociates(a / 2, b / 2, c / 2);
      XorNatStep(a / 2, b / 2, c / 2, a % 2, b % 2, c % 2);
    }
  }

  lemma XorNatStep(x: nat, y: nat, z: nat, i: nat, j: nat, k: nat)
    requires i < 2 && j < 2 && k < 2
    requires XorNat(XorNat(x, y), z) == XorNat(x, XorNat(y, z))
    ensures XorNat(XorNat(2 * x + i, 2 * y + j), 2 * z + k) == XorNat(2 * x + i, XorNat(2 * y + j, 2 * z + k))
  {
    hide XorNat;
    XorNatDigits(x, y, i, j);
    XorNatDigits(y, z, j, k);
    XorNatDigits(XorNat(x, y), z, XorDigit(i, j), k);
    XorNatDigits(x, XorNat(y, z), i, XorDigit(j, k));
  }

  lemma {:induction false} XorNatCommutes(a: nat, b: nat)
    ensures XorNat(a, b) == XorNat(b, a)
    decreases a + b
  {
    if a + b > 0 {
      XorNatCommutes(a / 2, b / 2);
    }
  }

  lemma {:induction false} XorNatZero(a: nat)
    ensures XorNat(a, 0) == a
  {
    if a > 0 {
      XorNatZero(a / 2);
    }
  }

  lemma {:induction false} XorNatIsZero(a: nat, b: nat)
    ensures XorNat(a, b) == 0 <==> a == b
    decreases a + b
  {
    if a + b > 0 {
      XorNatIsZero(a / 2, b / 2);
    }
  }

  lemma XorAssociates(a: u8, b: u8, c: u8)
    ensures Xor(Xor(a, b), c) == Xor(a, Xor(b, c))
  {
    XorNatAssociates(a, b, c);
  }

  lemma XorCommutes(a: u8, b: u8)
    ensures Xor(a, b) == Xor(b, a)
  {
    XorNatCommutes(a, b);
  }

  lemma XorWithZero(a: u8)
    ensures Xor(a, 0) == a == Xor(0, a)
  {
    XorNatZero(a);
    XorNatCommutes(a, 0);
  }

  lemma XorIsZero(a: u8, b: u8)
    ensures Xor(a, b) == 0 <==> a == b
  {
    XorNatIsZero(a, b);
  }

  /** The last two operands of a chain may change places. */
  lemma XorSwap(a: u8, b: u8, c: u8)
    ensures Xor(Xor(a, b), c) == Xor(Xor(a, c), b)
  {
    XorAssociates(a, b, c);
    XorCommutes(b, c);
    XorAssociates(a, c, b);
  }

  lemma XorCancels(a: u8, b: u8)
    ensures Xor(Xor(a, b), b) == a
  {
    XorAssociates(a, b, b);
    XorIsZero(b, b);
    XorWithZero(a);
  }

  /** A number below a power of two has no digit in common with it. */
  lemma {:induction false} XorNatDisjoint(a: nat, p: nat)
    requires p in {1, 2, 4, 8, 0x10} && a < p
    ensures XorNat(a, p) == a + p
  {
    if p > 1 {
      XorNatDisjoint(a / 2, p / 2);
    }
  }

  /** Escaping a control byte adds 16, escaping it again gives the byte back. */
  lemma XorEscape(a: u8)
    requires a < 0x10
    ensures Xor(a, 0x10) == a + 0x10
    ensures Xor(a + 0x10, 0x10) == a
  {
    XorNatDisjoint(a, 0x10);
    XorCancels(a, 0x10);
  }

  lemma XorFromSnoc(seed: u8, s: seq<u8>, b: u8)
    ensures XorFrom(seed, s + [b]) == Xor(XorFrom(seed, s), b)
  {
    assert (s + [b])[..|s|] == s;
  }

  lemma {:induction false} XorFromConcat(seed: u8, s: seq<u8>, t: seq<u8>)
    ensures XorFrom(seed, s + t) == XorFrom(XorFrom(seed, s), t)
  {
    if |t| == 0 {
      assert s + t == s;
    } else {
      var p, b := t[..|t| - 1], t[|t| - 1];
      XorFromConcat(seed, s, p);
      assert s + t == (s + p) + [b] && t == p + [b];
      XorFromSnoc(seed, s + p, b);
      XorFromSnoc(XorFrom(seed, s), p, b);
    }
  }

  /** The seed may be added last. */
  lemma {:induction false} XorFromSeed(seed: u8, b: u8, s: seq<u8>)
    ensures XorFrom(Xor(seed, b), s) == Xor(XorFrom(seed, s), b)
  {
    if |s| > 0 {
      var p, l := s[..|s| - 1], s[|s| - 1];
      XorFromSeed(seed, b, p);
      XorSwap(XorFrom(seed, p), b, l);
    }
  }

  /** Replacing one byte changes the exclusive-or: a sum that was zero becomes non-zero. */
  lemma XorFromUpdate(s: seq<u8>, i: nat, v: u8)
    requires i < |s| && v != s[i]
    requires XorFrom(0, s) == 0
    ensures XorFrom(0, s[i := v]) != 0
  {
    var p, q := s[..i], s[i + 1..];
    assert s == (p + [s[i]]) + q;
    assert s[i := v] == (p + [v]) + q;
    XorFromOneMore(p, s[i], q);
    XorFromOneMore(p, v, q);
    var rest := XorFrom(XorFrom(0, p), q);
    XorIsZero(rest, s[i]);
    XorIsZero(rest, v);
  }

  lemma XorFromOneMore(p: seq<u8>, b: u8, q: seq<u8>)
    ensures XorFrom(0, (p + [b]) + q) == Xor(XorFrom(XorFrom(0, p), q), b)
  {
    XorFromConcat(0, p + [b], q);
    XorFromSnoc(0, p, b);
    XorFromSeed(XorFrom(0, p), b, q);
  }
}
