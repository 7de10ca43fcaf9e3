/** Bytes, machine words and their exclusive or, with numbers standing for bit strings. */
module Bytes {

  type byte = x: int | 0 <= x < 0x100

  function Pow2(n: nat): (p: nat)
    ensures p > 0
  {
    if n == 0 then 1 else 2 * Pow2(n - 1)
  }

  /** Bit k of a number, bit 0 being the lowest. */
  function Bit(n: nat, k: nat): nat {
    if k == 0 then n % 2 else Bit(n / 2, k - 1)
  }

  /** The number without its k low bits, and its w low bits alone. */
  function Shift(n: nat, k: nat): nat {
    if k == 0 then n else Shift(n / 2, k - 1)
  }

  function Low(n: nat, w: nat): nat {
    if w == 0 then 0 else n % 2 + 2 * Low(n / 2, w - 1)
  }

  lemma {:induction false} BitOfShift(n: nat, k: nat, j: nat)
    ensures Bit(Shift(n, k), j) == Bit(n, k + j)
  {
    if k > 0 {
      BitOfShift(n / 2, k - 1, j);
    }
  }

  lemma {:induction false} BitOfLow(n: nat, w: nat, j: nat)
    requires j < w
    ensures Bit(Low(n, w), j) == Bit(n, j)
  {
    assert Low(n, w) % 2 == n % 2 && Low(n, w) / 2 == Low(n / 2, w - 1);
    if j > 0 {
      BitOfLow(n / 2, w - 1, j - 1);
    }
  }

  /** The exclusive or of the n low bits, bit by bit. */
  function Xor(a: nat, b: nat, n: nat): (r: nat)
    ensures r < Pow2(n)
  {
    if n == 0 then 0 else (a % 2 + b % 2) % 2 + 2 * Xor(a / 2, b / 2, n - 1)
  }

  function XorByte(a: byte, b: byte): byte {
    assert Pow2(8) == 0x100 by { Pow2Of8(); }
    Xor(a, b, 8)
  }

  lemma Pow2Of8()
    ensures Pow2(8) == 0x100
  {
    assert Pow2(4) == 16;
  }

  lemma Pow2Of16()
    ensures Pow2(16) == 0x1_0000
  {
    Pow2Of8();
    assert Pow2(12) == 0x1000;
  }

  lemma {:induction false} XorCancels(a: nat, b: nat, n: nat)
    requires a < Pow2(n)
    ensures Xor(Xor(a, b, n), b, n) == a
  {
    hide Xor;
    if n == 0 {
      NoBits(a, b);
    } else {
      var c := Xor(a, b, n);
      XorStep(a, b, n);
      HalfOfSum((a % 2 + b % 2) % 2, Xor(a / 2, b / 2, n - 1));
      XorStep(c, b, n);
      XorCancels(a / 2, b / 2, n - 1);
    }
  }

  /** Bit by bit it is exclusive or. */
  lemma {:induction false} XorBits(a: nat, b: nat, n: nat, k: nat)
    requires k < n
    ensures Bit(Xor(a, b, n), k) == (Bit(a, k) + Bit(b, k)) % 2
  {
    hide Xor;
    XorStep(a, b, n);
    HalfOfSum((a % 2 + b % 2) % 2, Xor(a / 2, b / 2, n - 1));
    if k > 0 {
      XorBits(a / 2, b / 2, n - 1, k - 1);
    }
  }

  lemma NoBits(a: nat, b: nat)
    ensures Xor(Xor(a, b, 0), b, 0) == 0 && Pow2(0) == 1
  {
  }

  lemma DoublePow2Times(k: nat, r: nat) returns (h: nat)
    requires k > 0
    ensures h == Pow2(k - 1) * r && Pow2(k) * r == 2 * h
  {
    h := Pow2(k - 1) * r;
    assert (2 * Pow2(k - 1)) * r == 2 * (Pow2(k - 1) * r);
  }

  lemma HalfOfSum(a: nat, h: nat)
    ensures (a + 2 * h) % 2 == a % 2 && (a + 2 * h) / 2 == a / 2 + h
  {
  }

  /** Exclusive or works on the low k bits and on the rest independently. */
  lemma {:induction false} XorSplits(a: nat, r: nat, b: nat, s: nat, k: nat, n: nat)
    requires a < Pow2(k) && b < Pow2(k)
    ensures Xor(a + Pow2(k) * r, b + Pow2(k) * s, k + n) == Xor(a, b, k) + Pow2(k) * Xor(r, s, n)
  {
    hide Xor;
    if k == 0 {
      assert Pow2(0) * r == r && Pow2(0) * s == s && Pow2(0) * Xor(r, s, n) == Xor(r, s, n);
    } else {
      var x, y := a + Pow2(k) * r, b + Pow2(k) * s;
      var hr := DoublePow2Times(k, r);
      var hs := DoublePow2Times(k, s);
      var hq := DoublePow2Times(k, Xor(r, s, n));
      HalfOfSum(a, hr);
      HalfOfSum(b, hs);
      XorSplits(a / 2, r, b / 2, s, k - 1, n);
      XorStep(x, y, k + n);
      XorStep(a, b, k);
    }
  }

  lemma XorStep(a: nat, b: nat, n: nat)
    requires n > 0
    ensures Xor(a, b, n) == (a % 2 + b % 2) % 2 + 2 * Xor(a / 2, b / 2, n - 1)
  {
  }

  /** The exclusive or of two sequences, as long as the shorter one. */
  function XorSeq(a: seq<byte>, b: seq<byte>): (r: seq<byte>)
    ensures |r| == if |a| < |b| then |a| else |b|
    ensures forall i :: 0 <= i < |r| ==> r[i] == XorByte(a[i], b[i])
  {
    seq(if |a| < |b| then |a| else |b|, i requires 0 <= i < |a| && i < |b| => XorByte(a[i], b[i]))
  }

  lemma XorSeqCancels(a: seq<byte>, k: seq<byte>)
    requires |a| <= |k|
    ensures XorSeq(XorSeq(a, k), k) == a
  {
    forall i | 0 <= i < |a|
      ensures XorSeq(XorSeq(a, k), k)[i] == a[i]
    {
      Pow2Of8();
      XorCancels(a[i], k[i], 8);
    }
  }
}
