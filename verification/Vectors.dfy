/** Bit and part selects of canonical vectors (src/svdpi_shim.c; IEEE 1800-2017 annex H.10.1):
    loops over the words of an array, against the number the array holds. */
module Vectors {
  import opened Words

  /** C's `uint8_t`, used for `svBit` and `svLogic`. */
  type Scalar = x: int | 0 <= x < 256

  const SV_0 := 0
  const SV_1 := 1
  const SV_Z := 2
  const SV_X := 3

  /** One word of a four-state vector: bit k is 0, 1, z or x by the pair (aval, bval). */
  datatype LogicWord = LogicWord(aval: Word, bval: Word)

  function Avals(ws: seq<LogicWord>): (r: seq<Word>)
    ensures |r| == |ws|
  {
    seq(|ws|, k requires 0 <= k < |ws| => ws[k].aval)
  }

  function Bvals(ws: seq<LogicWord>): (r: seq<Word>)
    ensures |r| == |ws|
  {
    seq(|ws|, k requires 0 <= k < |ws| => ws[k].bval)
  }

  function Digit(b: bool): nat {
    if b then 1 else 0
  }

  /** The planes of a scalar. A byte that is none of the four codes counts as 0. */
  predicate InA(s: Scalar) { s == SV_1 || s == SV_X }

  predicate InB(s: Scalar) { s == SV_Z || s == SV_X }

  /** The four-state value of bit `i` of the planes `a` and `b`. */
  function ScalarAt(a: nat, b: nat, i: nat): Scalar {
    if Bit(b, i) then (if Bit(a, i) then SV_X else SV_Z) else if Bit(a, i) then SV_1 else SV_0
  }

  // ---------------------------------------------------------------- one word

  lemma {:induction false} NothingBoth(x: nat, n: nat)
    ensures Bitwise(Both, x, 0, n) == 0
  {
    if n > 0 {
      NothingBoth(x / 2, n - 1);
    }
  }

  lemma LowBit(x: Word, j: nat)
    ensures And(Shr(x, j), 1) == Digit(Bit(x, j))
  {
    NothingBoth(Shr(x, j) / 2, 31);
    ShrBit(x, j, 0);
  }

  lemma {:induction false} OneBit(j: nat, k: nat)
    ensures Bit(1, 0) && (k > 0 ==> !Bit(1, k))
    ensures Bit(Pow2(j), k) == (j == k)
  {
    NoBits(if k > 0 then k - 1 else 0);
    TimesBit(1, j, k);
    if k > j {
      NoBits(k - j - 1);
    }
  }

  lemma MaskBit(j: nat, k: nat)
    requires j < 32 && k < 32
    ensures Bit(Shl(1, j), k) == (j == k)
  {
    ShlBit(1, j, k);
    OneBit(0, if k >= j then k - j else 0);
  }

  /** `(x & ~m) | a`, with `a` either the mask or 0, sets bit `j` and nothing else. */
  lemma BitStored(x: Word, j: nat, b: bool, k: nat)
    requires j < 32 && k < 32
    ensures Bit(Or(And(x, Not(Shl(1, j))), if b then Shl(1, j) else 0), k) == if k == j then b else Bit(x, k)
  {
    var m := Shl(1, j);
    MaskBit(j, k);
    NotBit(m, k);
    AndBit(x, Not(m), k);
    NoBits(k);
    OrBit(And(x, Not(m)), if b then m else 0, k);
  }

  lemma BitSetOrCleared(x: Word, j: nat, b: bool, k: nat)
    requires j < 32 && k < 32
    ensures Bit(if b then Or(x, Shl(1, j)) else And(x, Not(Shl(1, j))), k) == if k == j then b else Bit(x, k)
  {
    var m := Shl(1, j);
    MaskBit(j, k);
    NotBit(m, k);
    AndBit(x, Not(m), k);
    OrBit(x, m, k);
  }

  // ---------------------------------------------------------------- the number behind a loop

  lemma FieldOfOne(v: nat, i: nat)
    ensures Field(v, i, 1) == Digit(Bit(v, i))
  {
    DivBit(v, i, 0);
    assert Pow2(1) == 2;
  }

  /** A part select of `k + 1` bits is one of `k` bits and the next bit above it. */
  lemma FieldGrows(v: nat, i: nat, k: nat, f: Word, b: Word)
    requires k < 32 && f == Field(v, i, k) && b == Digit(Bit(v, i + k))
    ensures Or(f, Shl(b, k)) == Field(v, i, k + 1)
  {
    var g := Or(f, Shl(b, k));
    WordSize();
    forall n: nat ensures Bit(g, n) == Bit(Field(v, i, k + 1), n) {
      FieldBit(v, i, k + 1, n);
      if n < 32 {
        FieldBit(v, i, k, n);
        OrBit(f, Shl(b, k), n);
        ShlBit(b, k, n);
        OneBit(0, if n >= k then n - k else 0);
        NoBits(if n >= k then n - k else 0);
      } else {
        HighBit(g, 32, n);
      }
    }
    SameBits(g, Field(v, i, k + 1));
  }

  /** Writing `k` bits of `s` and then bit `k` writes `k + 1` bits of `s`. */
  lemma WrittenGrows(v: nat, i: nat, k: nat, s: nat)
    ensures WithField(WithField(v, i, k, s), i + k, 1, Digit(Bit(s, k))) == WithField(v, i, k + 1, s)
  {
    var was, d := WithField(v, i, k, s), Digit(Bit(s, k));
    var now := WithField(was, i + k, 1, d);
    forall n: nat ensures Bit(now, n) == Bit(WithField(v, i, k + 1, s), n) {
      WithFieldBit(was, i + k, 1, d, n);
      WithFieldBit(v, i, k, s, n);
      WithFieldBit(v, i, k + 1, s, n);
      assert Bit(d, 0) == Bit(s, k);
    }
    SameBits(now, WithField(v, i, k + 1, s));
  }

  lemma NothingWritten(v: nat, i: nat, s: nat)
    ensures WithField(v, i, 0, s) == v
    ensures Field(v, i, 0) == 0
  {
    forall n: nat ensures Bit(WithField(v, i, 0, s), n) == Bit(v, n) {
      WithFieldBit(v, i, 0, s, n);
    }
    SameBits(WithField(v, i, 0, s), v);
    assert Pow2(0) == 1;
  }

  /** The word `x` is `old` with bit `j` set to `b`. */
  ghost predicate BitChanged(x: Word, was: Word, j: nat, b: bool) {
    forall k: nat :: k < 32 ==> Bit(x, k) == if k == j then b else Bit(was, k)
  }

  lemma WordChangedBit(was: seq<Word>, i: nat, x: Word, b: bool, n: nat)
    requires i < 32 * |was| && n < 32 * |was|
    requires BitChanged(x, was[i / 32], i % 32, b)
    ensures VecBit(was[i / 32 := x], n) == if n == i then b else VecBit(was, n)
  {
    var q, j, q', j' := i / 32, i % 32, n / 32, n % 32;
    assert i == 32 * q + j && n == 32 * q' + j';
    if q' == q {
      assert Bit(x, j') == if j' == j then b else Bit(was[q], j');
    }
  }

  /** The vector `was` with the word holding bit `i` changed in that bit only. */
  lemma WordChanged(was: seq<Word>, i: nat, x: Word, b: bool)
    requires i < 32 * |was|
    requires BitChanged(x, was[i / 32], i % 32, b)
    ensures Value(was[i / 32 := x]) == WithField(Value(was), i, 1, Digit(b))
  {
    forall n: nat ensures Bit(Value(was[i / 32 := x]), n) == Bit(WithField(Value(was), i, 1, Digit(b)), n) {
      WordChangedValue(was, i, x, b, n);
    }
    SameBits(Value(was[i / 32 := x]), WithField(Value(was), i, 1, Digit(b)));
  }

  lemma WordChangedValue(was: seq<Word>, i: nat, x: Word, b: bool, n: nat)
    requires i < 32 * |was|
    requires BitChanged(x, was[i / 32], i % 32, b)
    ensures Bit(Value(was[i / 32 := x]), n) == Bit(WithField(Value(was), i, 1, Digit(b)), n)
  {
    var now := was[i / 32 := x];
    WithFieldBit(Value(was), i, 1, Digit(b), n);
    if n < 32 * |was| {
      ValueBit(was, n);
      ValueBit(now, n);
      WordChangedBit(was, i, x, b, n);
    } else {
      ValueBound(was);
      ValueBound(now);
      HighBit(Value(was), 32 * |was|, n);
      HighBit(Value(now), 32 * |was|, n);
    }
  }

  // ---------------------------------------------------------------- two-state selects

  method GetBitselBit(s: array<Word>, i: nat) returns (r: Scalar)
    requires i < 32 * s.Length
    ensures r == Field(Value(s[..]), i, 1)
    ensures r == Digit(Bit(Value(s[..]), i))
  {
    LowBit(s[i / 32], i % 32);
    ValueBit(s[..], i);
    FieldOfOne(Value(s[..]), i);
    r := And(Shr(s[i / 32], i % 32), 1);
  }

  method PutBitselBit(d: array<Word>, i: nat, s: Scalar)
    requires i < 32 * d.Length
    modifies d
    ensures Value(d[..]) == WithField(old(Value(d[..])), i, 1, Digit(Bit(s, 0)))
  {
    ghost var was := d[..];
    var m := Shl(1, i % 32);
    var b := And(s, 1) != 0;
    NothingBoth(s / 2, 31);
    forall k: nat | k < 32
      ensures Bit(if b then Or(d[i / 32], m) else And(d[i / 32], Not(m)), k) == if k == i % 32 then b else Bit(d[i / 32], k)
    {
      BitSetOrCleared(d[i / 32], i % 32, b, k);
    }
    d[i / 32] := if b then Or(d[i / 32], m) else And(d[i / 32], Not(m));
    assert d[..] == was[i / 32 := d[i / 32]];
    WordChanged(was, i, d[i / 32], b);
  }

  /** `d[0] = s[i +: w]` */
  method GetPartselBit(d: array<Word>, s: array<Word>, i: nat, w: nat)
    requires d.Length > 0 && w <= 32 && i + w <= 32 * s.Length
    modifies d
    ensures d[0] == Field(old(Value(s[..])), i, w)
    ensures d[1..] == old(d[1..])
  {
    ghost var number := Value(s[..]);
    var v: Word := 0;
    NothingWritten(number, i, 0);
    for k := 0 to w
      invariant v == Field(number, i, k)
      invariant d[..] == old(d[..]) && Value(s[..]) == number
    {
      var b := GetBitselBit(s, i + k);
      FieldGrows(number, i, k, v, b);
      v := Or(v, Shl(b, k));
    }
    d[0] := v;
  }

  /** `d[i +: w] = s` */
  method PutPartselBit(d: array<Word>, s: Word, i: nat, w: nat)
    requires w <= 32 && i + w <= 32 * d.Length
    modifies d
    ensures Value(d[..]) == WithField(old(Value(d[..])), i, w, s)
  {
    hide WithField, Field, Value, Shr, And;
    NothingWritten(Value(d[..]), i, s);
    for k := 0 to w
      invariant Value(d[..]) == WithField(old(Value(d[..])), i, k, s)
    {
      LowBit(s, k);
      WrittenGrows(old(Value(d[..])), i, k, s);
      PutBitselBit(d, i + k, And(Shr(s, k), 1));
    }
  }

  // ---------------------------------------------------------------- four-state selects

  lemma PlaneChanged(was: seq<LogicWord>, q: nat, x: LogicWord)
    requires q < |was|
    ensures Avals(was[q := x]) == Avals(was)[q := x.aval]
    ensures Bvals(was[q := x]) == Bvals(was)[q := x.bval]
  {
  }

  method GetBitselLogic(s: array<LogicWord>, i: nat) returns (r: Scalar)
    requires i < 32 * s.Length
    ensures r == ScalarAt(Value(Avals(s[..])), Value(Bvals(s[..])), i)
  {
    LowBit(s[i / 32].aval, i % 32);
    LowBit(s[i / 32].bval, i % 32);
    ValueBit(Avals(s[..]), i);
    ValueBit(Bvals(s[..]), i);
    var a := And(Shr(s[i / 32].aval, i % 32), 1);
    var b := And(Shr(s[i / 32].bval, i % 32), 1);
    r := if b != 0 then (if a != 0 then SV_X else SV_Z) else a;
  }

  lemma PlaneStored(x: Word, j: nat, b: bool)
    requires j < 32
    ensures BitChanged(Or(And(x, Not(Shl(1, j))), if b then Shl(1, j) else 0), x, j, b)
  {
    forall k: nat | k < 32
      ensures Bit(Or(And(x, Not(Shl(1, j))), if b then Shl(1, j) else 0), k) == if k == j then b else Bit(x, k)
    {
      BitStored(x, j, b, k);
    }
  }

  /** Both planes of word `i / 32` rewritten in bit `i`, as the two logic writers do. */
  method StoreLogicBit(d: array<LogicWord>, i: nat, a: bool, b: bool)
    requires i < 32 * d.Length
    modifies d
    ensures Value(Avals(d[..])) == WithField(old(Value(Avals(d[..]))), i, 1, Digit(a))
    ensures Value(Bvals(d[..])) == WithField(old(Value(Bvals(d[..]))), i, 1, Digit(b))
  {
    ghost var was := d[..];
    var m := Shl(1, i % 32);
    PlaneStored(d[i / 32].aval, i % 32, a);
    PlaneStored(d[i / 32].bval, i % 32, b);
    d[i / 32] := d[i / 32].(aval := Or(And(d[i / 32].aval, Not(m)), if a then m else 0));
    d[i / 32] := d[i / 32].(bval := Or(And(d[i / 32].bval, Not(m)), if b then m else 0));
    assert d[..] == was[i / 32 := d[i / 32]];
    PlaneChanged(was, i / 32, d[i / 32]);
    WordChanged(Avals(was), i, d[i / 32].aval, a);
    WordChanged(Bvals(was), i, d[i / 32].bval, b);
  }

  method PutBitselLogic(d: array<LogicWord>, i: nat, s: Scalar)
    requires i < 32 * d.Length
    modifies d
    ensures Value(Avals(d[..])) == WithField(old(Value(Avals(d[..]))), i, 1, Digit(InA(s)))
    ensures Value(Bvals(d[..])) == WithField(old(Value(Bvals(d[..]))), i, 1, Digit(InB(s)))
  {
    StoreLogicBit(d, i, s == SV_1 || s == SV_X, s == SV_Z || s == SV_X);
  }

  /** `d[0] = s[i +: w]`, both planes */
  method GetPartselLogic(d: array<LogicWord>, s: array<LogicWord>, i: nat, w: nat)
    requires d.Length > 0 && w <= 32 && i + w <= 32 * s.Length
    modifies d
    ensures d[0].aval == Field(old(Value(Avals(s[..]))), i, w)
    ensures d[0].bval == Field(old(Value(Bvals(s[..]))), i, w)
    ensures d[1..] == old(d[1..])
  {
    ghost var ws := s[..];
    ghost var A, B := Value(Avals(ws)), Value(Bvals(ws));
    var a: Word, b: Word := 0, 0;
    NothingWritten(A, i, 0);
    NothingWritten(B, i, 0);
    for k := 0 to w
      invariant s[..] == ws && d[..] == old(d[..])
      invariant a == Field(A, i, k) && b == Field(B, i, k)
    {
      var x := And(Shr(s[(i + k) / 32].aval, (i + k) % 32), 1);
      var y := And(Shr(s[(i + k) / 32].bval, (i + k) % 32), 1);
      PlaneRead(Avals(ws), i + k);
      PlaneRead(Bvals(ws), i + k);
      FieldGrows(A, i, k, a, x);
      FieldGrows(B, i, k, b, y);
      a := Or(a, Shl(x, k));
      b := Or(b, Shl(y, k));
    }
    d[0] := d[0].(aval := a);
    d[0] := d[0].(bval := b);
  }

  lemma PlaneRead(ws: seq<Word>, i: nat)
    requires i < 32 * |ws|
    ensures And(Shr(ws[i / 32], i % 32), 1) == Digit(Bit(Value(ws), i))
  {
    LowBit(ws[i / 32], i % 32);
    ValueBit(ws, i);
  }

  /** `d[i +: w] = s`, both planes */
  method PutPartselLogic(d: array<LogicWord>, s: LogicWord, i: nat, w: nat)
    requires w <= 32 && i + w <= 32 * d.Length
    modifies d
    ensures Value(Avals(d[..])) == WithField(old(Value(Avals(d[..]))), i, w, s.aval)
    ensures Value(Bvals(d[..])) == WithField(old(Value(Bvals(d[..]))), i, w, s.bval)
  {
    ghost var A, B := Value(Avals(d[..])), Value(Bvals(d[..]));
    NothingWritten(A, i, s.aval);
    NothingWritten(B, i, s.bval);
    for k := 0 to w
      invariant Value(Avals(d[..])) == WithField(A, i, k, s.aval)
      invariant Value(Bvals(d[..])) == WithField(B, i, k, s.bval)
    {
      LowBit(s.aval, k);
      LowBit(s.bval, k);
      WrittenGrows(A, i, k, s.aval);
      WrittenGrows(B, i, k, s.bval);
      StoreLogicBit(d, i + k, And(Shr(s.aval, k), 1) != 0, And(Shr(s.bval, k), 1) != 0);
    }
  }

  // ---------------------------------------------------------------- what the selects mean together

  /** A scalar written at `i` is read back at `i`, and every other position keeps its value. */
  lemma ScalarWritten(a: nat, b: nat, i: nat, s: Scalar, j: nat)
    ensures ScalarAt(WithField(a, i, 1, Digit(InA(s))), WithField(b, i, 1, Digit(InB(s))), j)
         == if j != i then ScalarAt(a, b, j) else if s <= SV_X then s else SV_0
  {
    WithFieldBit(a, i, 1, Digit(InA(s)), j);
    WithFieldBit(b, i, 1, Digit(InB(s)), j);
  }

  /** Bit `k` of a fetched part select is the scalar the single-bit read finds at `i + k`. */
  lemma PartselScalars(a: nat, b: nat, i: nat, w: nat, k: nat)
    ensures ScalarAt(Field(a, i, w), Field(b, i, w), k) == if k < w then ScalarAt(a, b, i + k) else SV_0
  {
    FieldBit(a, i, w, k);
    FieldBit(b, i, w, k);
  }

  /** After a part-select write, position `j` holds the source's scalar `j - i` inside the
      range and its old scalar outside it, whichever words the range touches. */
  lemma PartselWritten(a: nat, b: nat, i: nat, w: nat, s: LogicWord, j: nat)
    ensures ScalarAt(WithField(a, i, w, s.aval), WithField(b, i, w, s.bval), j)
         == if i <= j < i + w then ScalarAt(s.aval, s.bval, j - i) else ScalarAt(a, b, j)
  {
    WithFieldBit(a, i, w, s.aval, j);
    WithFieldBit(b, i, w, s.bval, j);
  }

  /** Writing a part select bit by bit through the scalar writer gives the same planes. */
  lemma PartselByScalars(a: nat, i: nat, w: nat, s: nat)
    ensures WithField(a, i, w, s) == if w == 0 then a else WithField(WithField(a, i, w - 1, s), i + w - 1, 1, Digit(Bit(s, w - 1)))
  {
    if w == 0 {
      NothingWritten(a, i, s);
    } else {
      WrittenGrows(a, i, w - 1, s);
    }
  }

  // ---------------------------------------------------------------- the codes

  /** The code of a scalar is its aval bit plus twice its bval bit: z is bval alone, x both. */
  lemma ScalarCode(a: nat, b: nat, i: nat, s: Scalar)
    ensures ScalarAt(a, b, i) == 2 * Digit(Bit(b, i)) + Digit(Bit(a, i))
    ensures s < 4 ==> s == 2 * Digit(InB(s)) + Digit(InA(s))
    ensures s >= 4 ==> !InA(s) && !InB(s)
  {
  }
}
