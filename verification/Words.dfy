/** 32-bit unsigned arithmetic as C defines it, and a vector of such words read as one number. */
module Words {
  const RADIX := 0x1_0000_0000

  /** C's `uint32_t`. */
  type Word = x: int | 0 <= x < RADIX

  function Pow2(n: nat): (p: nat)
    ensures p > 0
  {
    if n == 0 then 1 else 2 * Pow2(n - 1)
  }

  /** Bit `k` of the binary expansion of `x`. */
  predicate Bit(x: nat, k: nat) {
    if k == 0 then x % 2 == 1 else Bit(x / 2, k - 1)
  }

  predicate Both(a: bool, b: bool) { a && b }

  predicate Either(a: bool, b: bool) { a || b }

  /** `f` applied to each of the low `n` bits of `x` and `y`. */
  function Bitwise(f: (bool, bool) -> bool, x: nat, y: nat, n: nat): (r: nat)
    ensures r < Pow2(n)
  {
    if n == 0 then 0 else (if f(x % 2 == 1, y % 2 == 1) then 1 else 0) + 2 * Bitwise(f, x / 2, y / 2, n - 1)
  }

  lemma WordSize()
    ensures Pow2(32) == RADIX
  {
    assert Pow2(8) == 256;
    assert Pow2(16) == 65536;
    assert Pow2(24) == 0x100_0000;
  }

  /** C's `x & y`. */
  function And(x: Word, y: Word): Word {
    WordSize();
    Bitwise(Both, x, y, 32)
  }

  /** C's `x | y`. */
  function Or(x: Word, y: Word): Word {
    WordSize();
    Bitwise(Either, x, y, 32)
  }

  /** C's `~x`. */
  function Not(x: Word): Word { RADIX - 1 - x }

  /** C's `x << k`, reduced modulo 2^32. */
  function Shl(x: Word, k: nat): Word { (x * Pow2(k)) % RADIX }

  /** C's `x >> k`. */
  function Shr(x: Word, k: nat): Word {
    Quotient(x, Pow2(k));
    x / Pow2(k)
  }

  lemma Quotient(x: nat, d: nat)
    requires d > 0
    ensures 0 <= x / d <= x
  {
    var q, r := x / d, x % d;
    assert x == d * q + r;
    NotNegative(d, q, r);
    AtLeast(d, q);
  }

  lemma NotNegative(d: int, q: int, r: int)
    requires d > 0 && 0 <= r < d && d * q + r >= 0
    ensures q >= 0
  {
    if q <= -1 {
      AtLeast(d, -q);
      assert d * -q == -(d * q);
      assert d * (-q - 1) == d * -q - d;
      Product(d, -q - 1);
    }
  }

  lemma Product(a: nat, b: nat)
    ensures a * b >= 0
  {
  }

  lemma AtLeast(d: int, q: int)
    requires d > 0 && q >= 0
    ensures d * q >= q
  {
    Product(d - 1, q);
    assert d * q == (d - 1) * q + q;
  }

  // ---------------------------------------------------------------- bits of each operator

  lemma {:induction false} BitwiseBit(f: (bool, bool) -> bool, x: nat, y: nat, n: nat, k: nat)
    requires k < n
    ensures Bit(Bitwise(f, x, y, n), k) == f(Bit(x, k), Bit(y, k))
  {
    if k > 0 {
      BitwiseBit(f, x / 2, y / 2, n - 1, k - 1);
    }
  }

  lemma AndBit(x: Word, y: Word, k: nat)
    requires k < 32
    ensures Bit(And(x, y), k) == (Bit(x, k) && Bit(y, k))
  {
    BitwiseBit(Both, x, y, 32, k);
  }

  lemma OrBit(x: Word, y: Word, k: nat)
    requires k < 32
    ensures Bit(Or(x, y), k) == (Bit(x, k) || Bit(y, k))
  {
    BitwiseBit(Either, x, y, 32, k);
  }

  lemma {:induction false} ComplementBit(x: nat, n: nat, k: nat)
    requires x < Pow2(n) && k < n
    ensures Bit(Pow2(n) - 1 - x, k) == !Bit(x, k)
  {
    var y := Pow2(n) - 1 - x;
    assert y / 2 == Pow2(n - 1) - 1 - x / 2;
    if k > 0 {
      ComplementBit(x / 2, n - 1, k - 1);
    }
  }

  lemma NotBit(x: Word, k: nat)
    requires k < 32
    ensures Bit(Not(x), k) == !Bit(x, k)
  {
    WordSize();
    ComplementBit(x, 32, k);
  }

  lemma HalfDown(x: nat, p: nat)
    requires p > 0
    ensures x / (2 * p) == (x / 2) / p
  {
    var h, q := x / 2, (x / 2) / p;
    var r := h - q * p;
    assert 0 <= r < p;
    assert x == (2 * p) * q + (2 * r + x % 2);
    DivUnique(x, 2 * p, q, 2 * r + x % 2);
  }

  lemma NearZero(d: int, e: int)
    requires d > 0 && -d < d * e < d
    ensures e == 0
  {
  }

  lemma DivUnique(x: int, d: int, q: int, r: int)
    requires d > 0 && x == d * q + r && 0 <= r < d
    ensures x / d == q && x % d == r
  {
    var q', r' := x / d, x % d;
    assert x == d * q' + r' && 0 <= r' < d;
    assert d * (q - q') == d * q - d * q';
    NearZero(d, q - q');
  }

  lemma {:induction false} DivBit(x: nat, j: nat, k: nat)
    ensures x / Pow2(j) >= 0 && Bit(x / Pow2(j), k) == Bit(x, j + k)
  {
    Quotient(x, Pow2(j));
    if j > 0 {
      HalfDown(x, Pow2(j - 1));
      DivBit(x / 2, j - 1, k);
    }
  }

  lemma HalfMod(x: nat, p: nat)
    requires p > 0
    ensures (x % (2 * p)) / 2 == (x / 2) % p && (x % (2 * p)) % 2 == x % 2
  {
    var h, q := x / 2, (x / 2) / p;
    var r := h - q * p;
    assert 0 <= r < p && r == h % p;
    assert x == (2 * p) * q + (2 * r + x % 2);
    DivUnique(x, 2 * p, q, 2 * r + x % 2);
  }

  lemma {:induction false} ModBit(x: nat, n: nat, k: nat)
    ensures x % Pow2(n) >= 0 && Bit(x % Pow2(n), k) == (k < n && Bit(x, k))
  {
    if n == 0 {
      NoBits(k);
    } else {
      HalfMod(x, Pow2(n - 1));
      if k > 0 {
        ModBit(x / 2, n - 1, k - 1);
      }
    }
  }

  lemma {:induction false} NoBits(k: nat)
    ensures !Bit(0, k)
  {
    if k > 0 {
      NoBits(k - 1);
    }
  }

  lemma {:induction false} TimesBit(x: nat, j: nat, k: nat)
    ensures x * Pow2(j) >= 0 && Bit(x * Pow2(j), k) == (k >= j && Bit(x, k - j))
  {
    if j > 0 {
      assert x * Pow2(j) == 2 * (x * Pow2(j - 1));
      TimesBit(x, j - 1, if k > 0 then k - 1 else 0);
    }
  }

  lemma ShlBit(x: Word, j: nat, k: nat)
    requires k < 32
    ensures Bit(Shl(x, j), k) == (k >= j && Bit(x, k - j))
  {
    WordSize();
    TimesBit(x, j, k);
    ModBit(x * Pow2(j), 32, k);
  }

  lemma ShrBit(x: Word, j: nat, k: nat)
    ensures Bit(Shr(x, j), k) == Bit(x, j + k)
  {
    DivBit(x, j, k);
  }

  /** Numbers with the same bits are equal. */
  lemma {:induction false} SameBits(x: nat, y: nat)
    requires forall k: nat :: Bit(x, k) == Bit(y, k)
    ensures x == y
    decreases x + y
  {
    assert Bit(x, 0) == Bit(y, 0);
    if x > 0 || y > 0 {
      forall k: nat ensures Bit(x / 2, k) == Bit(y / 2, k) {
        assert Bit(x, k + 1) == Bit(y, k + 1);
      }
      SameBits(x / 2, y / 2);
    }
  }

  lemma {:induction false} HighBit(x: nat, n: nat, k: nat)
    requires x < Pow2(n) && n <= k
    ensures !Bit(x, k)
  {
    if n == 0 {
      NoBits(k);
    } else {
      HighBit(x / 2, n - 1, k - 1);
    }
  }

  lemma Double(x: int, y: int)
    ensures (2 * x) * y == 2 * (x * y)
  {
  }

  lemma {:induction false} PowAdd(a: nat, b: nat)
    ensures Pow2(a + b) == Pow2(a) * Pow2(b)
  {
    if a > 0 {
      PowAdd(a - 1, b);
      Double(Pow2(a - 1), Pow2(b));
    }
  }

  // ---------------------------------------------------------------- vectors of words

  /** The number a canonical vector holds: word 0 is the least significant. */
  function Value(ws: seq<Word>): nat {
    if ws == [] then 0 else ws[0] + RADIX * Value(ws[1..])
  }

  predicate VecBit(ws: seq<Word>, b: nat)
    requires b < 32 * |ws|
  {
    Bit(ws[b / 32], b % 32)
  }

  /** `y` above the low `n` bits, `x` in them. */
  function Above(x: nat, y: nat, n: nat): nat {
    Product(Pow2(n), y);
    x + Pow2(n) * y
  }

  lemma AboveHalf(x: nat, y: nat, n: nat)
    requires n > 0
    ensures Above(x, y, n) / 2 == Above(x / 2, y, n - 1) && Above(x, y, n) % 2 == x % 2
  {
    Double(Pow2(n - 1), y);
  }

  lemma {:induction false} AboveBit(x: nat, y: nat, n: nat, k: nat)
    requires x < Pow2(n)
    ensures Bit(Above(x, y, n), k) == if k < n then Bit(x, k) else Bit(y, k - n)
  {
    if n > 0 {
      AboveHalf(x, y, n);
      if k > 0 {
        AboveBit(x / 2, y, n - 1, k - 1);
      }
    }
  }

  lemma {:induction false} ValueBit(ws: seq<Word>, b: nat)
    requires b < 32 * |ws|
    ensures Bit(Value(ws), b) == VecBit(ws, b)
  {
    WordSize();
    AboveBit(ws[0], Value(ws[1..]), 32, b);
    if b >= 32 {
      ValueBit(ws[1..], b - 32);
      assert ws[1..][(b - 32) / 32] == ws[b / 32];
    }
  }

  lemma {:induction false} ValueBound(ws: seq<Word>)
    ensures Value(ws) < Pow2(32 * |ws|)
  {
    if ws != [] {
      WordSize();
      ValueBound(ws[1..]);
      PowAdd(32, 32 * |ws[1..]|);
      assert 32 + 32 * |ws[1..]| == 32 * |ws|;
    }
  }

  // ---------------------------------------------------------------- bit fields of a number

  /** The `w` bits of `v` starting at bit `i`. */
  function Field(v: nat, i: nat, w: nat): (r: nat)
    ensures r < Pow2(w)
  {
    Quotient(v, Pow2(i));
    (v / Pow2(i)) % Pow2(w)
  }

  /** `v` with its `w` bits from bit `i` replaced by those of `s`. */
  function WithField(v: nat, i: nat, w: nat, s: nat): nat {
    Quotient(v, Pow2(i + w));
    Above(v % Pow2(i), Above(s % Pow2(w), v / Pow2(i + w), w), i)
  }

  lemma FieldBit(v: nat, i: nat, w: nat, k: nat)
    ensures Bit(Field(v, i, w), k) == (k < w && Bit(v, i + k))
  {
    DivBit(v, i, k);
    ModBit(v / Pow2(i), w, k);
  }

  lemma WithFieldBit(v: nat, i: nat, w: nat, s: nat, k: nat)
    ensures Bit(WithField(v, i, w, s), k) == if i <= k < i + w then Bit(s, k - i) else Bit(v, k)
  {
    Quotient(v, Pow2(i + w));
    var top := v / Pow2(i + w);
    var mid := Above(s % Pow2(w), top, w);
    ModBit(v, i, k);
    AboveBit(v % Pow2(i), mid, i, k);
    if k >= i {
      ModBit(s, w, k - i);
      AboveBit(s % Pow2(w), top, w, k - i);
      if k >= i + w {
        DivBit(v, i + w, k - i - w);
      }
    }
  }

  /** What is written is what is read back. */
  lemma FieldWritten(v: nat, i: nat, w: nat, s: nat)
    ensures Field(WithField(v, i, w, s), i, w) == s % Pow2(w)
  {
    forall k: nat ensures Bit(Field(WithField(v, i, w, s), i, w), k) == Bit(s % Pow2(w), k) {
      FieldBit(WithField(v, i, w, s), i, w, k);
      WithFieldBit(v, i, w, s, i + k);
      ModBit(s, w, k);
    }
    SameBits(Field(WithField(v, i, w, s), i, w), s % Pow2(w));
  }

  /** A write leaves every field that does not overlap it as it was. */
  lemma FieldElsewhere(v: nat, i: nat, w: nat, s: nat, j: nat, u: nat)
    requires j + u <= i || i + w <= j
    ensures Field(WithField(v, i, w, s), j, u) == Field(v, j, u)
  {
    forall k: nat ensures Bit(Field(WithField(v, i, w, s), j, u), k) == Bit(Field(v, j, u), k) {
      FieldBit(WithField(v, i, w, s), j, u, k);
      FieldBit(v, j, u, k);
      WithFieldBit(v, i, w, s, j + k);
    }
    SameBits(Field(WithField(v, i, w, s), j, u), Field(v, j, u));
  }

  /** Writing back what a field holds changes nothing. */
  lemma FieldKept(v: nat, i: nat, w: nat)
    ensures WithField(v, i, w, Field(v, i, w)) == v
  {
    forall k: nat ensures Bit(WithField(v, i, w, Field(v, i, w)), k) == Bit(v, k) {
      WithFieldBit(v, i, w, Field(v, i, w), k);
      if k >= i {
        FieldBit(v, i, w, k - i);
      }
    }
    SameBits(WithField(v, i, w, Field(v, i, w)), v);
  }

  lemma OneField(x: int, p: int, a: int, b: int, t: int)
    ensures (x + p * (a + t)) - (x + p * (b + t)) == p * (a - b)
  {
  }

  lemma Reduced(x: nat, p: nat)
    requires x < p
    ensures x % p == x
  {
    DivUnique(x, p, 0, x);
  }

  lemma AboveChange(low: nat, a: nat, b: nat, top: nat, w: nat, i: nat)
    ensures Above(low, Above(a, top, w), i) - Above(low, Above(b, top, w), i) == Pow2(i) * (a - b)
  {
    OneField(low, Pow2(i), a, b, Pow2(w) * top);
  }

  /** A write changes the number by exactly 2^i times the change of the field. */
  lemma FieldChange(v: nat, i: nat, w: nat, s: nat)
    ensures WithField(v, i, w, s) - v == Pow2(i) * (s % Pow2(w) - Field(v, i, w))
  {
    FieldKept(v, i, w);
    Reduced(Field(v, i, w), Pow2(w));
    Quotient(v, Pow2(i + w));
    AboveChange(v % Pow2(i), s % Pow2(w), Field(v, i, w), v / Pow2(i + w), w, i);
  }
}
