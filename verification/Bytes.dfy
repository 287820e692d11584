/**
 * Octets and the bitwise operations the C code applies to them.
 *
 * Values are natural numbers, so no width is hidden: a cast to `uint8_t` is `Low(x, 8)`,
 * a mask `x & 0x7F` is `Low(x, 7)`. `Bit` is the meaning of all of them.
 */
module Bytes {
  type byte = x: int | 0 <= x < 256

  /** Characters of a NUL-terminated C string, terminator excluded. */
  type CString = s: seq<byte> | 0 !in s

  /** What the C string functions see of a buffer: up to the first NUL. */
  function BeforeNul(s: seq<byte>): (t: seq<byte>)
    ensures t <= s && 0 !in t
  {
    if s == [] || s[0] == 0 then [] else [s[0]] + BeforeNul(s[1..])
  }

  lemma {:induction false} BeforeNulOfText(s: CString)
    ensures BeforeNul(s) == s
    decreases |s|
  {
    if s != [] { BeforeNulOfText(s[1..]); }
  }

  datatype Option<+T> = None | Some(value: T)

  function Bit(x: nat, k: nat): bool
    decreases k
  {
    if k == 0 then x % 2 == 1 else Bit(x / 2, k - 1)
  }

  function Or(a: nat, b: nat): nat
    decreases a + b
  {
    if a == 0 && b == 0 then 0
    else 2 * Or(a / 2, b / 2) + (if a % 2 == 1 || b % 2 == 1 then 1 else 0)
  }

  function Shl(x: nat, s: nat): nat
    decreases s
  {
    if s == 0 then x else 2 * Shl(x, s - 1)
  }

  function Shr(x: nat, s: nat): nat
    decreases s
  {
    if s == 0 then x else Shr(x / 2, s - 1)
  }

  function Pow2(n: nat): (p: nat)
    ensures p > 0
  {
    if n == 0 then 1 else 2 * Pow2(n - 1)
  }

  /** The n low bits of x. */
  function Low(x: nat, n: nat): (r: nat)
    ensures r < Pow2(n)
    decreases n, x
  {
    if n == 0 then 0 else 2 * Low(x / 2, n - 1) + x % 2
  }

  lemma {:induction false} BitOfOr(a: nat, b: nat, k: nat)
    ensures Bit(Or(a, b), k) == (Bit(a, k) || Bit(b, k))
    decreases k
  {
    if k > 0 {
      BitOfOr(a / 2, b / 2, k - 1);
      if a == 0 && b == 0 {
      } else {
        assert Or(a, b) / 2 == Or(a / 2, b / 2);
      }
    }
  }

  lemma {:induction false} BitOfShl(x: nat, s: nat, k: nat)
    ensures Bit(Shl(x, s), k) == (k >= s && Bit(x, k - s))
    decreases s
  {
    if s > 0 && k > 0 {
      BitOfShl(x, s - 1, k - 1);
      assert Shl(x, s) / 2 == Shl(x, s - 1);
    }
  }

  lemma {:induction false} BitOfShr(x: nat, s: nat, k: nat)
    ensures Bit(Shr(x, s), k) == Bit(x, k + s)
    decreases s
  {
    if s > 0 {
      BitOfShr(x / 2, s - 1, k);
    }
  }

  lemma {:induction false} BitOfLow(x: nat, n: nat, k: nat)
    ensures Bit(Low(x, n), k) == (k < n && Bit(x, k))
    decreases n, k
  {
    if n == 0 {
      BitOfZero(k);
    } else if k > 0 {
      assert Low(x, n) / 2 == Low(x / 2, n - 1);
      BitOfLow(x / 2, n - 1, k - 1);
    }
  }

  lemma {:induction false} BitOfZero(k: nat)
    ensures !Bit(0, k)
  {
    if k > 0 { BitOfZero(k - 1); }
  }

  /** A number of n bits has no bit at or above n. */
  lemma {:induction false} BitAboveWidth(x: nat, n: nat, k: nat)
    requires x < Pow2(n) && n <= k
    ensures !Bit(x, k)
    decreases n
  {
    if n == 0 { BitOfZero(k); } else { BitAboveWidth(x / 2, n - 1, k - 1); }
  }

  /** Numbers of n bits with the same bits are equal. */
  lemma {:induction false} SameBits(a: nat, b: nat, n: nat)
    requires a < Pow2(n) && b < Pow2(n)
    requires forall k: nat :: k < n ==> Bit(a, k) == Bit(b, k)
    ensures a == b
    decreases n
  {
    if n > 0 {
      forall k: nat | k < n - 1 ensures Bit(a / 2, k) == Bit(b / 2, k) {
        assert Bit(a, k + 1) == Bit(b, k + 1);
      }
      SameBits(a / 2, b / 2, n - 1);
      assert Bit(a, 0) == Bit(b, 0);
    }
  }

  lemma Pow2Values()
    ensures Pow2(7) == 128 && Pow2(8) == 256
  {
    assert Pow2(3) == 8;
    assert Pow2(6) == 64;
  }

  /** The number whose bit k is f(lo + k), for k below n. */
  function FromBits(f: nat -> bool, lo: nat, n: nat): (r: nat)
    ensures r < Pow2(n)
    decreases n, lo
  {
    if n == 0 then 0
    else (if f(lo) then 1 else 0) + 2 * FromBits(f, lo + 1, n - 1)
  }

  lemma {:induction false} BitOfFromBits(f: nat -> bool, lo: nat, n: nat, k: nat)
    requires k < n
    ensures Bit(FromBits(f, lo, n), k) == f(lo + k)
    decreases n
  {
    if k > 0 {
      assert FromBits(f, lo, n) / 2 == FromBits(f, lo + 1, n - 1);
      BitOfFromBits(f, lo + 1, n - 1, k - 1);
    }
  }

  /** Bit number b of a buffer, least significant bit of the first octet first. */
  predicate BitAt(buf: seq<byte>, b: nat)
    requires b < 8 * |buf|
  {
    Bit(buf[b / 8], b % 8)
  }

  /** The buffer of n octets whose bit b is f(b). */
  function BytesOf(f: nat -> bool, n: nat): (r: seq<byte>)
    ensures |r| == n
  {
    Pow2Values();
    seq(n, (i: nat) => FromBits(f, 8 * i, 8))
  }

  lemma BytesOfBit(f: nat -> bool, n: nat, b: nat)
    requires b < 8 * n
    ensures BitAt(BytesOf(f, n), b) == f(b)
  {
    var i, k := b / 8, b % 8;
    BitOfFromBits(f, 8 * i, 8, k);
    assert 8 * i + k == b;
  }

  function Prepend<T>(a: seq<T>, b: Option<seq<T>>): Option<seq<T>> {
    match b
    case None => None
    case Some(v) => Some(a + v)
  }

  lemma PrependNothing<T>(b: Option<seq<T>>)
    ensures Prepend([], b) == b
  {
    if b.Some? { assert [] + b.value == b.value; }
  }

  lemma SliceOfSlice<T>(s: seq<T>, pos: nat, a: nat, b: nat)
    requires pos <= |s| && a <= b <= |s| - pos
    ensures s[pos..|s|][a..b] == s[pos + a..pos + b]
  {
    var l, r := s[pos..|s|][a..b], s[pos + a..pos + b];
    forall i | 0 <= i < b - a ensures l[i] == r[i] {
      assert l[i] == s[pos..|s|][a + i] == s[pos + a + i];
    }
  }
}
