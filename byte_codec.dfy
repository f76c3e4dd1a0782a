/** Bytes, Python slicing of bytes, and the fixed-width integer layouts of the `struct`
    module (`<B`, `<H`, `<I`, `>L`, `>Q`) as used by the security-descriptor parsers. */
module ByteCodec {

  type Byte = b: int | 0 <= b < 256

  /** 256 to the power n: how many values n bytes can hold. */
  function Pow256(n: nat): (p: nat)
    ensures p >= 1
  {
    if n == 0 then 1 else 256 * Pow256(n - 1)
  }

  function Min(a: int, b: int): int {
    if a <= b then a else b
  }

  /** Python's `s[lo:hi]` for non-negative bounds: both bounds are clamped to the length
      and the slice is empty once `lo >= hi`; it never fails. */
  function Slice(s: seq<Byte>, lo: nat, hi: nat): (r: seq<Byte>)
    ensures |r| <= |s|
    ensures lo <= hi <= |s| ==> r == s[lo..hi]
    ensures hi <= lo || |s| <= lo ==> r == []
    ensures lo <= |s| <= hi ==> r == s[lo..]
  {
    if lo < hi && lo < |s| then s[lo..Min(hi, |s|)] else []
  }

  /** Python's `s[lo:]`. */
  function Drop(s: seq<Byte>, lo: nat): (r: seq<Byte>)
    ensures lo <= |s| ==> r == s[lo..]
    ensures |s| <= lo ==> r == []
  {
    Slice(s, lo, |s|)
  }

  /** The unsigned little-endian value of the bytes (`<H`, `<I`). */
  function UnpackLE(s: seq<Byte>): (x: nat)
    ensures x < Pow256(|s|)
  {
    if s == [] then 0 else s[0] + 256 * UnpackLE(s[1..])
  }

  /** The unsigned big-endian value of the bytes (`>L`, and a `<6B` group summed with
      decreasing shifts). */
  function UnpackBE(s: seq<Byte>): (x: nat)
    ensures x < Pow256(|s|)
  {
    if s == [] then 0 else 256 * UnpackBE(s[..|s| - 1]) + s[|s| - 1]
  }

  /** The n low-order bytes of x, least significant first. */
  function PackLE(x: nat, n: nat): (s: seq<Byte>)
    ensures |s| == n
  {
    if n == 0 then [] else [x % 256] + PackLE(x / 256, n - 1)
  }

  /** The n low-order bytes of x, most significant first. */
  function PackBE(x: nat, n: nat): (s: seq<Byte>)
    ensures |s| == n
  {
    if n == 0 then [] else PackBE(x / 256, n - 1) + [x % 256]
  }

  /** `struct.unpack("<nI", s)`: consecutive little-endian 32-bit words. */
  function UnpackU32s(s: seq<Byte>): (xs: seq<nat>)
    requires |s| % 4 == 0
    ensures |xs| == |s| / 4
    ensures forall i :: 0 <= i < |xs| ==> xs[i] == UnpackLE(s[4 * i..4 * i + 4])
    ensures forall i :: 0 <= i < |xs| ==> xs[i] < 0x1_0000_0000
  {
    if s == [] then []
    else
      var rest := UnpackU32s(s[4..]);
      assert forall i :: 0 <= i < |rest| ==> s[4..][4 * i..4 * i + 4] == s[4 * (i + 1)..4 * (i + 1) + 4];
      [UnpackLE(s[..4])] + rest
  }

  predicate AllU32(xs: seq<nat>) {
    forall i :: 0 <= i < |xs| ==> xs[i] < 0x1_0000_0000
  }

  /** `struct.pack("<nI", *xs)` for words that fit. */
  function PackU32s(xs: seq<nat>): (s: seq<Byte>)
    requires AllU32(xs)
    ensures |s| == 4 * |xs|
  {
    if xs == [] then [] else PackLE(xs[0], 4) + PackU32s(xs[1..])
  }

  /** `x & v != 0` for a single-bit mask v (every flag and right the parsers test is one). */
  predicate HasBit(x: nat, v: nat) {
    v != 0 && (x / v) % 2 == 1
  }

  /** v when x has the single bit v, else 0. */
  function BitValue(x: nat, v: nat): nat {
    if HasBit(x, v) then v else 0
  }

  function Pow2(n: nat): (p: nat)
    ensures p >= 1
  {
    if n == 0 then 1 else 2 * Pow2(n - 1)
  }

  /** The sum of the single bits 1, 2, ..., 2^(n-1) that x has. */
  function BitSum(x: nat, n: nat): nat {
    if n == 0 then 0 else BitSum(x, n - 1) + BitValue(x, Pow2(n - 1))
  }

  predicate IsPowerOfTwo(v: nat)
    decreases v
  {
    v == 1 || (v > 1 && v % 2 == 0 && IsPowerOfTwo(v / 2))
  }

  // ---------------------------------------------------------------------------
  // Round trips of the layouts

  lemma {:induction false} UnpackPackLE(x: nat, n: nat)
    requires x < Pow256(n)
    ensures UnpackLE(PackLE(x, n)) == x
  {
    if n > 0 {
      UnpackPackLE(x / 256, n - 1);
      assert PackLE(x, n)[1..] == PackLE(x / 256, n - 1);
    }
  }

  lemma {:induction false} PackUnpackLE(s: seq<Byte>)
    ensures PackLE(UnpackLE(s), |s|) == s
  {
    if s != [] {
      PackUnpackLE(s[1..]);
      var x := UnpackLE(s);
      assert x % 256 == s[0] && x / 256 == UnpackLE(s[1..]);
    }
  }

  /** Packing big-endian keeps only the value modulo 256^n. */
  lemma {:induction false} UnpackPackBE(x: nat, n: nat)
    ensures UnpackBE(PackBE(x, n)) == x % Pow256(n)
  {
    if n > 0 {
      UnpackPackBE(x / 256, n - 1);
      var s := PackBE(x, n);
      assert s[..n - 1] == PackBE(x / 256, n - 1);
      ModOfProduct(x, 256, Pow256(n - 1));
    }
  }

  lemma {:induction false} PackUnpackBE(s: seq<Byte>)
    ensures PackBE(UnpackBE(s), |s|) == s
  {
    if s != [] {
      var init := s[..|s| - 1];
      PackUnpackBE(init);
      var x := UnpackBE(s);
      assert x % 256 == s[|s| - 1] && x / 256 == UnpackBE(init);
      assert s == init + [s[|s| - 1]];
    }
  }

  /** The last k bytes of an n-byte big-endian packing are the k-byte packing: this is
      what `struct.pack(">Q", x)[2:]` relies on. */
  lemma {:induction false} PackBESuffix(x: nat, n: nat, k: nat)
    requires k <= n
    ensures PackBE(x, n)[n - k..] == PackBE(x, k)
  {
    if k > 0 {
      PackBESuffix(x / 256, n - 1, k - 1);
      assert PackBE(x, n)[n - k..] == PackBE(x / 256, n - 1)[n - k..] + [x % 256];
    }
  }

  lemma {:induction false} UnpackPackU32s(xs: seq<nat>)
    requires AllU32(xs)
    ensures UnpackU32s(PackU32s(xs)) == xs
  {
    if xs != [] {
      var s := PackU32s(xs);
      assert Pow256(4) == 0x1_0000_0000;
      UnpackPackLE(xs[0], 4);
      assert s[..4] == PackLE(xs[0], 4);
      assert s[4..] == PackU32s(xs[1..]);
      UnpackPackU32s(xs[1..]);
    }
  }

  lemma {:induction false} PackUnpackU32s(s: seq<Byte>)
    requires |s| % 4 == 0
    ensures PackU32s(UnpackU32s(s)) == s
  {
    if s != [] {
      PackUnpackLE(s[..4]);
      PackUnpackU32s(s[4..]);
      assert UnpackU32s(s)[1..] == UnpackU32s(s[4..]);
      assert s == s[..4] + s[4..];
    }
  }

  // ---------------------------------------------------------------------------
  // Fixed widths written out

  lemma UnpackLE2(s: seq<Byte>)
    requires |s| == 2
    ensures UnpackLE(s) == s[0] as int + 0x100 * s[1] as int
  {
    assert s[1..][1..] == [];
  }

  lemma UnpackLE4(s: seq<Byte>)
    requires |s| == 4
    ensures UnpackLE(s) == s[0] as int + 0x100 * s[1] as int + 0x1_0000 * s[2] as int + 0x100_0000 * s[3] as int
  {
    assert UnpackLE(s[3..]) == s[3];
    assert UnpackLE(s[2..]) == s[2] + 256 * UnpackLE(s[3..]);
    assert UnpackLE(s[1..]) == s[1] + 256 * UnpackLE(s[2..]);
  }

  lemma UnpackBE4(s: seq<Byte>)
    requires |s| == 4
    ensures UnpackBE(s) == 0x100_0000 * s[0] as int + 0x1_0000 * s[1] as int + 0x100 * s[2] as int + s[3] as int
  {
    assert s[..1][..0] == [];
    assert UnpackBE(s[..1]) == s[0];
    assert s[..2][..1] == s[..1];
    assert UnpackBE(s[..2]) == 256 * UnpackBE(s[..1]) + s[1];
    assert s[..3][..2] == s[..2];
    assert UnpackBE(s[..3]) == 256 * UnpackBE(s[..2]) + s[2];
  }

  lemma UnpackBE6(s: seq<Byte>)
    requires |s| == 6
    ensures UnpackBE(s) == 0x100_0000_0000 * s[0] as int + 0x1_0000_0000 * s[1] as int
                           + 0x100_0000 * s[2] as int + 0x1_0000 * s[3] as int + 0x100 * s[4] as int + s[5] as int
  {
    assert s[..1][..0] == [];
    assert UnpackBE(s[..1]) == s[0];
    assert s[..2][..1] == s[..1];
    assert UnpackBE(s[..2]) == 256 * UnpackBE(s[..1]) + s[1];
    assert s[..3][..2] == s[..2];
    assert UnpackBE(s[..3]) == 256 * UnpackBE(s[..2]) + s[2];
    assert s[..4][..3] == s[..3];
    assert UnpackBE(s[..4]) == 256 * UnpackBE(s[..3]) + s[3];
    assert s[..5][..4] == s[..4];
    assert UnpackBE(s[..5]) == 256 * UnpackBE(s[..4]) + s[4];
  }

  // ---------------------------------------------------------------------------
  // Division facts

  lemma MulLe(a: nat, b: nat, d: nat)
    requires a <= b
    ensures a * d <= b * d
  {
  }

  /** Quotient and remainder are unique. */
  lemma DivModUnique(x: nat, d: nat, q: nat, r: nat)
    requires d > 0 && r < d && x == q * d + r
    ensures x / d == q && x % d == r
  {
    var q', r' := x / d, x % d;
    assert x == q' * d + r';
    if q' > q { MulLe(q + 1, q', d); assert false; }
    if q' < q { MulLe(q' + 1, q, d); assert false; }
  }

  lemma RegroupProduct(x: int, q: int, r: int, q1: int, r1: int, a: int, p: int)
    requires x == q * a + r && q == q1 * p + r1
    ensures x == q1 * (a * p) + (r1 * a + r)
  {
    calc {
      x;
      (q1 * p + r1) * a + r;
      { assert (q1 * p + r1) * a == (q1 * p) * a + r1 * a; }
      (q1 * p) * a + r1 * a + r;
      { assert (q1 * p) * a == q1 * (a * p); }
      q1 * (a * p) + (r1 * a + r);
    }
  }

  lemma DigitBound(r1: nat, r: nat, a: nat, p: nat)
    requires r1 < p && r < a
    ensures r1 * a + r < a * p
  {
    MulLe(r1, p - 1, a);
    assert (p - 1) * a == p * a - a;
  }

  /** x mod (a * p) splits into the low digit x mod a and the higher digits (x / a) mod p. */
  lemma ModOfProduct(x: nat, a: nat, p: nat)
    requires a > 0 && p > 0
    ensures x % (a * p) == a * ((x / a) % p) + x % a
  {
    var q, r := x / a, x % a;
    var q1, r1 := q / p, q % p;
    RegroupProduct(x, q, r, q1, r1, a, p);
    DigitBound(r1, r, a, p);
    DivModUnique(x, a * p, q1, r1 * a + r);
  }

  /** Division by d: the quotient and remainder, as Dafny defines them. */
  lemma DivMod(x: nat, d: nat)
    requires d > 0
    ensures x == (x / d) * d + x % d && 0 <= x % d < d && x / d >= 0
  {
  }

  lemma Halve(c: int, q: int, r: int, v: int)
    requires c == q * (2 * v) + r
    ensures c == (2 * q) * v + r && c == (2 * q + 1) * v + (r - v)
  {
  }

  lemma EvenQuotient(c: nat, v: nat, q: nat, r: nat)
    requires v > 0 && r < v && c == (2 * q) * v + r
    ensures c % v == r && !HasBit(c, v)
  {
    DivModUnique(c, v, 2 * q, r);
  }

  lemma OddQuotient(c: nat, v: nat, q: nat, r: nat)
    requires v > 0 && r < v && c == (2 * q + 1) * v + r
    ensures c % v == r && HasBit(c, v)
  {
    DivModUnique(c, v, 2 * q + 1, r);
  }

  /** Adding the single bit v to a number that lacks it raises x mod 2v by exactly v. */
  lemma ModTwice(c: nat, v: nat)
    requires v > 0
    ensures c % (2 * v) == c % v + BitValue(c, v)
  {
    var q := c / (2 * v);
    var r := c % (2 * v);
    DivMod(c, 2 * v);
    Halve(c, q, r, v);
    if r < v {
      EvenQuotient(c, v, q, r);
    } else {
      OddQuotient(c, v, q, r - v);
    }
  }

  /** A number below 2^n is the sum of its bits: decoding a word into single-bit flags loses
      nothing. */
  lemma {:induction false} BitSumIsValue(x: nat, n: nat)
    ensures BitSum(x, n) == x % Pow2(n)
  {
    if n > 0 {
      BitSumIsValue(x, n - 1);
      ModTwice(x, Pow2(n - 1));
    }
  }
}
