/**
 * Bitwise AND and OR on non-negative integers, shifts as multiplication by
 * powers of two, and base-4 packing of 2-bit cell codes.
 */
module Bits {

  function Pow2(n: nat): (r: nat)
    ensures r >= 1
  {
    if n == 0 then 1 else 2 * Pow2(n - 1)
  }

  /** Four to the n, the range of n packed 2-bit codes. */
  function Pow4(n: nat): (r: nat)
    ensures r >= 1 && r == Pow2(2 * n)
  {
    if n == 0 then 1 else 4 * Pow4(n - 1)
  }

  /** Bitwise AND, bit by bit from the least significant end. */
  function BitAnd(a: nat, b: nat): nat
    decreases a
  {
    if a == 0 || b == 0 then 0
    else 2 * BitAnd(a / 2, b / 2) + (if a % 2 == 1 && b % 2 == 1 then 1 else 0)
  }

  /** Bitwise OR, bit by bit from the least significant end. */
  function BitOr(a: nat, b: nat): nat
    decreases a
  {
    if a == 0 then b
    else if b == 0 then a
    else 2 * BitOr(a / 2, b / 2) + (if a % 2 == 1 || b % 2 == 1 then 1 else 0)
  }

  /** 2^32: a C++ `int` holds its value modulo this. */
  const WORD: nat := 0x1_0000_0000

  /** The 32-bit pattern of `a << 2`, as a C++ `int` register holds it. */
  function Shl2(a: nat): (r: nat)
    ensures r < WORD
  {
    (a * 4) % WORD
  }

  lemma {:induction false} MulAtLeast(d: int, k: int)
    requires d > 0 && k >= 1
    ensures d * k >= d
    decreases k
  {
    if k > 1 {
      MulAtLeast(d, k - 1);
      assert d * k == d * (k - 1) + d;
    }
  }

  /** Division and remainder are determined by any decomposition a == d * q + r with 0 <= r < d. */
  lemma DivModUnique(a: int, d: int, q: int, r: int)
    requires d > 0 && a == d * q + r && 0 <= r < d
    ensures a / d == q && a % d == r
  {
    var q0, r0 := a / d, a % d;
    assert a == d * q0 + r0;
    if q0 > q {
      MulAtLeast(d, q0 - q);
    } else if q0 < q {
      MulAtLeast(d, q - q0);
    }
  }

  lemma PowAdd(m: nat, n: nat)
    ensures Pow2(m + n) == Pow2(m) * Pow2(n)
  {
    if m > 0 {
      PowAdd(m - 1, n);
    }
  }

  /** Taking a remainder modulo a multiple of d keeps the remainder modulo d. */
  lemma ModMod(a: nat, d: nat, e: nat)
    requires d > 0 && e > 0
    ensures (a % (d * e)) % d == a % d
  {
    var q, r := a / (d * e), a % (d * e);
    assert a == (d * e) * q + r;
    var q1, r1 := r / d, r % d;
    assert r == d * q1 + r1;
    assert a == d * (e * q + q1) + r1;
    DivModUnique(a, d, e * q + q1, r1);
  }

  /** Halving reaches the remainder modulo 2P through the remainder modulo P. */
  lemma HalfMod(a: nat, p: nat)
    requires p > 0
    ensures a % (2 * p) == 2 * ((a / 2) % p) + a % 2
    ensures a / (2 * p) == (a / 2) / p
  {
    var h := a / 2;
    var q, w := h / p, h % p;
    assert a == 2 * h + a % 2;
    assert h == p * q + w;
    assert a == (2 * p) * q + (2 * w + a % 2);
    DivModUnique(a, 2 * p, q, 2 * w + a % 2);
  }

  lemma AndOddStep(a: nat, b: nat, p: nat)
    requires a > 0 && p > 0 && b == 2 * p - 1
    requires BitAnd(a / 2, p - 1) == (a / 2) % p
    ensures BitAnd(a, b) == a % (2 * p)
  {
    assert b / 2 == p - 1 && b % 2 == 1;
    HalfMod(a, p);
    assert BitAnd(a, b) == 2 * BitAnd(a / 2, b / 2) + a % 2;
  }

  /** AND with 2^m - 1 keeps the low m bits. */
  lemma {:induction false} AndLowMask(a: nat, m: nat)
    ensures BitAnd(a, Pow2(m) - 1) == a % Pow2(m)
  {
    if m == 0 {
      assert Pow2(m) == 1;
    } else if a == 0 {
      DivModUnique(0, Pow2(m), 0, 0);
    } else {
      var p := Pow2(m - 1);
      AndLowMask(a / 2, m - 1);
      AndOddStep(a, Pow2(m) - 1, p);
    }
  }

  /** Doubling the mask of an AND doubles the AND of the halved value. */
  lemma AndDouble(a: nat, c: nat)
    ensures BitAnd(a, 2 * c) == 2 * BitAnd(a / 2, c)
  {
    if a != 0 && c != 0 {
      assert (2 * c) / 2 == c && (2 * c) % 2 == 0;
    }
  }

  /** `b << t`. */
  function Shl(b: nat, t: nat): nat {
    if t == 0 then b else 2 * Shl(b, t - 1)
  }

  /** `a >> t`, dropping the low t bits. */
  function Shr(a: nat, t: nat): nat {
    if t == 0 then a else Shr(a / 2, t - 1)
  }
  /** Shifting two more places multiplies by four. */
  lemma ShlStep2(b: nat, t: nat)
    ensures Shl(b, t + 2) == 4 * Shl(b, t)
  {
    assert Shl(b, t + 2) == 2 * Shl(b, t + 1);
  }

  /** Shifting left by t multiplies by 2^t. */
  lemma {:induction false} ShlPow2(b: nat, t: nat)
    ensures Shl(b, t) == b * Pow2(t)
    decreases t
  {
    if t > 0 {
      ShlPow2(b, t - 1);
    }
  }


  /** AND with a mask shifted left by t is the AND of the value shifted right, shifted back. */
  lemma {:induction false} AndShift(a: nat, b: nat, t: nat)
    ensures BitAnd(a, Shl(b, t)) == Shl(BitAnd(Shr(a, t), b), t)
  {
    if t > 0 {
      AndDouble(a, Shl(b, t - 1));
      AndShift(a / 2, b, t - 1);
    }
  }

  /** Shifting left is injective. */
  lemma {:induction false} ShlInjective(a: nat, b: nat, t: nat)
    ensures Shl(a, t) == Shl(b, t) <==> a == b
  {
    if t > 0 {
      ShlInjective(a, b, t - 1);
    }
  }

  /** Setting bit i of 2^i - 1 gives 2^(i+1) - 1. */
  lemma {:induction false} OrNextBit(i: nat)
    ensures BitOr(Pow2(i) - 1, Pow2(i)) == Pow2(i + 1) - 1
  {
    if i > 0 {
      OrNextBit(i - 1);
      var a, b := Pow2(i) - 1, Pow2(i);
      assert a / 2 == Pow2(i - 1) - 1 && a % 2 == 1;
      assert b / 2 == Pow2(i - 1) && b % 2 == 0;
    }
  }

  /** OR of a 2-bit code into a value whose low two bits are clear is addition. */
  lemma OrLowCode(q: nat, c: nat)
    requires c < 4
    ensures BitOr(4 * q, c) == 4 * q + c
  {
    if q > 0 && c > 0 {
      assert (4 * q) / 2 == 2 * q && (4 * q) % 2 == 0;
      if c / 2 > 0 {
        assert (2 * q) / 2 == q && (2 * q) % 2 == 0;
        assert BitOr(2 * q, c / 2) == 2 * q + c / 2;
      }
    }
  }

  /** Base-4 value of a code sequence, the last code in the lowest two bits. */
  function Pack(cs: seq<int>): int
  {
    if |cs| == 0 then 0 else 4 * Pack(cs[..|cs| - 1]) + cs[|cs| - 1]
  }

  predicate Codes2(cs: seq<int>) {
    forall i :: 0 <= i < |cs| ==> 0 <= cs[i] <= 2
  }

  /** n codes of at most 2 pack to at most 2 * (4^n - 1) / 3, so seven codes stay below 10923. */
  lemma {:induction false} PackBound(cs: seq<int>)
    requires Codes2(cs)
    ensures 0 <= Pack(cs) && 3 * Pack(cs) <= 2 * (Pow4(|cs|) - 1)
    decreases |cs|
  {
    if |cs| > 0 {
      PackBound(cs[..|cs| - 1]);
    }
  }

  /** Seven cell codes pack into an index of the score tables, at most 0b10101010101010. */
  lemma PackWindowBound(cs: seq<int>)
    requires Codes2(cs) && |cs| == 7
    ensures 0 <= Pack(cs) <= 10922
  {
    PackBound(cs);
    assert Pow4(7) == 16384;
  }

  /** Packing a concatenation shifts the first part above the second. */
  lemma {:induction false} PackSplit(p: seq<int>, q: seq<int>)
    ensures Pack(p + q) == Pack(p) * Pow4(|q|) + Pack(q)
    decreases |q|
  {
    if |q| > 0 {
      var q0 := q[..|q| - 1];
      assert (p + q)[..|p + q| - 1] == p + q0;
      PackSplit(p, q0);
      var x, y := Pack(p), Pow4(|q0|);
      assert Pow4(|q|) == 4 * y;
      assert Pack(q) == 4 * Pack(q0) + q[|q| - 1];
      assert Pack(p + q) == 4 * (x * y + Pack(q0)) + q[|q| - 1];
      assert 4 * (x * y) == x * (4 * y);
    } else {
      assert p + q == p;
    }
  }

  /** The remainder of u * d + v by d, for 0 <= v < d. */
  lemma ModOfDecomposition(a: int, d: int, u: int, v: int)
    requires d > 0 && a == u * d + v && 0 <= v < d
    ensures a % d == v
  {
    DivModUnique(a, d, u, v);
  }

  /** The low 2m bits of a packed sequence are the packing of its last m codes. */
  lemma PackSuffix(cs: seq<int>, m: nat)
    requires Codes2(cs) && m <= |cs|
    ensures Pack(cs) % Pow4(m) == Pack(cs[|cs| - m..])
  {
    var p, q := cs[..|cs| - m], cs[|cs| - m..];
    assert cs == p + q;
    PackSplit(p, q);
    PackBound(q);
    ModOfDecomposition(Pack(cs), Pow4(m), Pack(p), Pack(q));
  }
  /** Pack of a sequence with one more code appended. */
  lemma PackSnoc(cs: seq<int>, c: int)
    ensures Pack(cs + [c]) == 4 * Pack(cs) + c
  {
    assert (cs + [c])[..|cs|] == cs;
  }

  /** Packing one more code of a prefix. */
  lemma PackPrefixStep(cs: seq<int>, j: nat)
    requires j < |cs|
    ensures Pack(cs[..j + 1]) == 4 * Pack(cs[..j]) + cs[j]
  {
    assert cs[..j + 1][..j] == cs[..j];
  }

  /** Quadrupling commutes with reduction modulo 2^32. */
  lemma Shl2Mod(a: nat, addr: nat)
    requires addr == a % 0x1_0000_0000
    ensures (addr * 4) % 0x1_0000_0000 == (4 * a) % 0x1_0000_0000
  {
    var m := 0x1_0000_0000;
    var qa := a / m;
    assert a == m * qa + addr;
    var s, qs := (addr * 4) % m, (addr * 4) / m;
    assert addr * 4 == m * qs + s;
    assert 4 * a == m * (4 * qa + qs) + s;
    DivModUnique(4 * a, m, 4 * qa + qs, s);
  }

  /** A multiple of four reduced modulo 2^32 is still a multiple of four. */
  lemma QuadMod(a: nat)
    ensures (4 * a) % 0x1_0000_0000 == 4 * (a % 0x4000_0000)
  {
    var k := 0x4000_0000;
    var q, r := a / k, a % k;
    assert a == k * q + r;
    assert 4 * a == 0x1_0000_0000 * q + 4 * r;
    DivModUnique(4 * a, 0x1_0000_0000, q, 4 * r);
  }

  /** OR-ing a code into the shifted register is the shifted-and-added value, reduced modulo 2^32. */
  lemma ShiftOrArith(a: nat, addr: nat, c: nat)
    requires addr == a % 0x1_0000_0000 && c <= 2
    ensures BitOr((addr * 4) % 0x1_0000_0000, c) == (4 * a + c) % 0x1_0000_0000
  {
    var m := 0x1_0000_0000;
    Shl2Mod(a, addr);
    QuadMod(a);
    var w := a % 0x4000_0000;
    OrLowCode(w, c);
    var q := a / 0x4000_0000;
    assert a == 0x4000_0000 * q + w;
    assert 4 * a + c == m * q + (4 * w + c);
    DivModUnique(4 * a + c, m, q, 4 * w + c);
  }

  /** The 32-bit shift-then-OR step keeps the low bits of the packed codes. */
  lemma ShiftOrStep(addr: nat, cs: seq<int>, c: int)
    requires Codes2(cs) && 0 <= c <= 2
    requires addr == Pack(cs) % WORD
    ensures BitOr(Shl2(addr), c) == Pack(cs + [c]) % WORD
  {
    PackBound(cs);
    PackSnoc(cs, c);
    ShiftOrArith(Pack(cs), addr, c);
  }

  /** Masking the register with 0x3fff yields the packing of the last seven codes read. */
  lemma WindowIndex(addr: nat, cs: seq<int>)
    requires Codes2(cs) && |cs| >= 7
    requires addr == Pack(cs) % WORD
    ensures BitAnd(addr, 0x3fff) == Pack(cs[|cs| - 7..]) <= 10922
  {
    assert Pow2(14) == 16384;
    AndLowMask(addr, 14);
    PackBound(cs);
    ModMod(Pack(cs), 16384, 262144);
    assert Pow4(7) == 16384;
    PackSuffix(cs, 7);
    PackWindowBound(cs[|cs| - 7..]);
  }
}
