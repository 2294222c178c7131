/** The content hash of the design cache (src/lib.rs, CacheHash). */
module CacheKey {
  import opened Words

  const RADIX64 := 0x1_0000_0000_0000_0000

  /** Rust's `u64` and `u8`. */
  type Long = x: int | 0 <= x < RADIX64
  type Byte = x: int | 0 <= x < 256

  const START_A: Long := 0xcbf29ce484222325
  const START_B: Long := 0x84222325cbf29ce4
  const FACTOR_A: Long := 0x100000001b3
  const FACTOR_B: Long := 0x9e3779b185ebca87

  predicate Differs(x: bool, y: bool) { x != y }

  lemma LongSize()
    ensures Pow2(64) == RADIX64
  {
    WordSize();
    PowAdd(32, 32);
  }

  /** Rust's `x ^ y`. */
  function Xor(x: Long, y: Long): Long {
    LongSize();
    Bitwise(Differs, x, y, 64)
  }

  function WrappingMul(x: Long, y: Long): Long {
    (x * y) % RADIX64
  }

  function WrappingAdd(x: Long, y: Long): Long {
    (x + y) % RADIX64
  }

  function RotateLeft31(x: Long): Long {
    (x % 0x2_0000_0000) * 0x8000_0000 + x / 0x2_0000_0000
  }

  // ---------------------------------------------------------------- the hash as a run over a framed stream

  /** What is mixed in: the length of an input, then each of its bytes. */
  datatype Item = Length(n: nat) | Content(v: Byte)

  function MixedA(i: Item): Long {
    match i case Length(n) => n % RADIX64 case Content(v) => v
  }

  function MixedB(i: Item): Long {
    match i case Length(n) => RotateLeft31(n % RADIX64) case Content(v) => WrappingAdd(v, 0x9d)
  }

  function StepA(a: Long, i: Item): Long {
    WrappingMul(Xor(a, MixedA(i)), FACTOR_A)
  }

  function StepB(b: Long, i: Item): Long {
    WrappingMul(Xor(b, MixedB(i)), FACTOR_B)
  }

  function RunA(a: Long, items: seq<Item>): Long {
    if items == [] then a else StepA(RunA(a, items[..|items| - 1]), items[|items| - 1])
  }

  function RunB(b: Long, items: seq<Item>): Long {
    if items == [] then b else StepB(RunB(b, items[..|items| - 1]), items[|items| - 1])
  }

  function Contents(bytes: seq<Byte>): seq<Item> {
    seq(|bytes|, k requires 0 <= k < |bytes| => Content(bytes[k]))
  }

  function Framed(bytes: seq<Byte>): seq<Item> {
    [Length(|bytes|)] + Contents(bytes)
  }

  function FramedAll(inputs: seq<seq<Byte>>): seq<Item> {
    if inputs == [] then [] else FramedAll(inputs[..|inputs| - 1]) + Framed(inputs[|inputs| - 1])
  }

  lemma {:induction false} RunThen(a: Long, b: Long, x: seq<Item>, y: seq<Item>)
    ensures RunA(a, x + y) == RunA(RunA(a, x), y)
    ensures RunB(b, x + y) == RunB(RunB(b, x), y)
  {
    if y == [] {
      assert x + y == x;
    } else {
      assert (x + y)[..|x + y| - 1] == x + y[..|y| - 1];
      RunThen(a, b, x, y[..|y| - 1]);
    }
  }

  /** `n` lower-case hexadecimal digits of `x`, most significant first. */
  function Hex(x: nat, n: nat): string {
    if n == 0 then "" else Hex(x / 16, n - 1) + ["0123456789abcdef"[x % 16]]
  }

  class CacheHash {
    var a: Long
    var b: Long

    constructor ()
      ensures a == START_A && b == START_B
    {
      a, b := START_A, START_B;
    }

    method Bytes(bytes: seq<Byte>)
      modifies this
      ensures a == RunA(old(a), Framed(bytes)) && b == RunB(old(b), Framed(bytes))
    {
      var len: Long := |bytes| % RADIX64;
      a := Xor(a, len);
      a := WrappingMul(a, FACTOR_A);
      b := Xor(b, RotateLeft31(len));
      b := WrappingMul(b, FACTOR_B);
      assert Framed(bytes)[..1] == [] + [Length(|bytes|)];
      for k := 0 to |bytes|
        invariant a == RunA(old(a), Framed(bytes)[..k + 1]) && b == RunB(old(b), Framed(bytes)[..k + 1])
      {
        assert Framed(bytes)[..k + 2] == Framed(bytes)[..k + 1] + [Content(bytes[k])];
        a := Xor(a, bytes[k]);
        a := WrappingMul(a, FACTOR_A);
        b := Xor(b, WrappingAdd(bytes[k], 0x9d));
        b := WrappingMul(b, FACTOR_B);
      }
      assert Framed(bytes)[..|bytes| + 1] == Framed(bytes);
    }

    method Finish() returns (text: string)
      ensures text == Hex(a, 16) + Hex(b, 16)
    {
      text := Hex(a, 16) + Hex(b, 16);
    }
  }

  /** The key text of a sequence of inputs, and its halves. */
  function KeyText(inputs: seq<seq<Byte>>): string {
    FirstHalf(inputs) + SecondHalf(inputs)
  }

  function FirstHalf(inputs: seq<seq<Byte>>): string {
    Hex(RunA(START_A, FramedAll(inputs)), 16)
  }

  function SecondHalf(inputs: seq<seq<Byte>>): string {
    Hex(RunB(START_B, FramedAll(inputs)), 16)
  }

  /** The class computes that text. */
  method HashAll(inputs: seq<seq<Byte>>) returns (text: string)
    ensures text == KeyText(inputs)
  {
    var h := new CacheHash();
    for k := 0 to |inputs|
      invariant h.a == RunA(START_A, FramedAll(inputs[..k])) && h.b == RunB(START_B, FramedAll(inputs[..k]))
    {
      assert inputs[..k + 1][..k] == inputs[..k];
      RunThen(START_A, START_B, FramedAll(inputs[..k]), Framed(inputs[k]));
      h.Bytes(inputs[k]);
    }
    assert inputs[..|inputs|] == inputs;
    text := h.Finish();
  }

  // ---------------------------------------------------------------- no step loses anything

  lemma XorBit(x: Long, y: Long, k: nat)
    ensures Bit(Xor(x, y), k) == (k < 64 && Bit(x, k) != Bit(y, k))
  {
    LongSize();
    if k < 64 {
      BitwiseBit(Differs, x, y, 64, k);
    } else {
      HighBit(Xor(x, y), 64, k);
    }
  }

  lemma XorInjective(x: Long, y: Long, u: Long, v: Long)
    requires Xor(x, u) == Xor(y, v)
    ensures x == y <==> u == v
  {
    forall k: nat ensures (Bit(x, k) == Bit(y, k)) == (Bit(u, k) == Bit(v, k)) {
      XorBit(x, u, k);
      XorBit(y, v, k);
      LongSize();
      if k >= 64 {
        HighBit(x, 64, k);
        HighBit(y, 64, k);
        HighBit(u, 64, k);
        HighBit(v, 64, k);
      }
    }
    if x == y {
      SameBits(u, v);
    }
    if u == v {
      SameBits(x, y);
    }
  }

  // Multiplying by either factor modulo 2^64 can be undone: the factors are odd, and
  // FACTOR_A * INVERSE_A == 1 + 2^64 * TURNS_A, and likewise for B.
  const INVERSE_A := 0xce965057aff6957b
  const TURNS_A := 887285111055
  const INVERSE_B := 0x887493432badb37
  const TURNS_B := 379806830464837242

  lemma UndoneA(x: Long, y: Long)
    requires WrappingMul(x, FACTOR_A) == WrappingMul(y, FACTOR_A)
    ensures x == y
  {
    var k := (x * FACTOR_A) / RADIX64 - (y * FACTOR_A) / RADIX64;
    assert (x - y) * FACTOR_A == RADIX64 * k;
    assert (x - y) * FACTOR_A * INVERSE_A == (x - y) + RADIX64 * ((x - y) * TURNS_A);
    assert x - y == RADIX64 * (k * INVERSE_A - (x - y) * TURNS_A);
  }

  lemma UndoneB(x: Long, y: Long)
    requires WrappingMul(x, FACTOR_B) == WrappingMul(y, FACTOR_B)
    ensures x == y
  {
    var k := (x * FACTOR_B) / RADIX64 - (y * FACTOR_B) / RADIX64;
    assert (x - y) * FACTOR_B == RADIX64 * k;
    assert (x - y) * FACTOR_B * INVERSE_B == (x - y) + RADIX64 * ((x - y) * TURNS_B);
    assert x - y == RADIX64 * (k * INVERSE_B - (x - y) * TURNS_B);
  }

  /** For one item, a step is a bijection on the state: distinct states stay distinct. */
  lemma StepInjective(x: Long, y: Long, i: Item)
    ensures StepA(x, i) == StepA(y, i) <==> x == y
    ensures StepB(x, i) == StepB(y, i) <==> x == y
  {
    if StepA(x, i) == StepA(y, i) {
      UndoneA(Xor(x, MixedA(i)), Xor(y, MixedA(i)));
      XorInjective(x, y, MixedA(i), MixedA(i));
    }
    if StepB(x, i) == StepB(y, i) {
      UndoneB(Xor(x, MixedB(i)), Xor(y, MixedB(i)));
      XorInjective(x, y, MixedB(i), MixedB(i));
    }
  }

  /** From one state, distinct bytes lead to distinct states. */
  lemma SeparatesA(x: Long, v: Byte, w: Byte)
    requires StepA(x, Content(v)) == StepA(x, Content(w))
    ensures v == w
  {
    UndoneA(Xor(x, v), Xor(x, w));
    XorInjective(x, x, v, w);
  }

  lemma SeparatesB(x: Long, v: Byte, w: Byte)
    requires StepB(x, Content(v)) == StepB(x, Content(w))
    ensures v == w
  {
    var p, q := MixedB(Content(v)), MixedB(Content(w));
    UndoneB(Xor(x, p), Xor(x, q));
    XorInjective(x, x, p, q);
  }

  lemma {:induction false} RunInjective(x: Long, y: Long, items: seq<Item>)
    ensures RunA(x, items) == RunA(y, items) <==> x == y
    ensures RunB(x, items) == RunB(y, items) <==> x == y
  {
    if items != [] {
      var init, last := items[..|items| - 1], items[|items| - 1];
      RunInjective(x, y, init);
      StepInjective(RunA(x, init), RunA(y, init), last);
      StepInjective(RunB(x, init), RunB(y, init), last);
    }
  }

  lemma ItemChanged(a: Long, b: Long, before: seq<Item>, v: Byte, w: Byte, after: seq<Item>)
    requires v != w
    ensures RunA(a, before + [Content(v)] + after) != RunA(a, before + [Content(w)] + after)
    ensures RunB(b, before + [Content(v)] + after) != RunB(b, before + [Content(w)] + after)
  {
    RunThen(a, b, before + [Content(v)], after);
    RunThen(a, b, before + [Content(w)], after);
    RunThen(a, b, before, [Content(v)]);
    RunThen(a, b, before, [Content(w)]);
    var x, y := RunA(a, before), RunB(b, before);
    if StepA(x, Content(v)) == StepA(x, Content(w)) {
      SeparatesA(x, v, w);
    }
    if StepB(y, Content(v)) == StepB(y, Content(w)) {
      SeparatesB(y, v, w);
    }
    RunInjective(RunA(x, [Content(v)]), RunA(x, [Content(w)]), after);
    RunInjective(RunB(y, [Content(v)]), RunB(y, [Content(w)]), after);
  }

  // ---------------------------------------------------------------- the key text

  lemma HexDigit(p: nat, q: nat)
    requires p < 16 && q < 16 && "0123456789abcdef"[p] == "0123456789abcdef"[q]
    ensures p == q
  {
  }

  lemma {:induction false} HexInjective(x: nat, y: nat, n: nat)
    requires Hex(x, n) == Hex(y, n) && x < Pow2(4 * n) && y < Pow2(4 * n)
    ensures x == y
  {
    if n > 0 {
      assert Hex(x, n)[..|Hex(x, n)| - 1] == Hex(x / 16, n - 1);
      assert Hex(y, n)[..|Hex(y, n)| - 1] == Hex(y / 16, n - 1);
      HexLength(x, n);
      HexLength(y, n);
      HexDigit(x % 16, y % 16);
      PowAdd(4, 4 * (n - 1));
      assert Pow2(4) == 16;
      HexInjective(x / 16, y / 16, n - 1);
    }
  }

  lemma {:induction false} HexLength(x: nat, n: nat)
    ensures |Hex(x, n)| == n
  {
    if n > 0 {
      HexLength(x / 16, n - 1);
    }
  }

  /** The inputs with byte `j` of input `i` replaced by `v`. */
  function Changed(inputs: seq<seq<Byte>>, i: nat, j: nat, v: Byte): seq<seq<Byte>>
    requires i < |inputs| && j < |inputs[i]|
  {
    var row: seq<Byte> := inputs[i][j := v];
    inputs[i := row]
  }

  lemma {:induction false} FramedAround(inputs: seq<seq<Byte>>, i: nat, j: nat) returns (before: seq<Item>, after: seq<Item>)
    requires i < |inputs| && j < |inputs[i]|
    ensures forall v: Byte :: FramedAll(Changed(inputs, i, j, v)) == before + [Content(v)] + after
  {
    var last := |inputs| - 1;
    if i == last {
      var whole := FramedAll(inputs[..last]);
      before := whole + [Length(|inputs[i]|)] + Contents(inputs[i][..j]);
      after := Contents(inputs[i][j + 1..]);
      forall v: Byte ensures FramedAll(Changed(inputs, i, j, v)) == before + [Content(v)] + after {
        var changed: seq<Byte> := inputs[i][j := v];
        assert Changed(inputs, i, j, v)[..last] == inputs[..last];
        assert Framed(changed) == [Length(|inputs[i]|)] + Contents(inputs[i][..j]) + [Content(v)] + after;
      }
    } else {
      var rest;
      before, rest := FramedAround(inputs[..last], i, j);
      after := rest + Framed(inputs[last]);
      forall v: Byte ensures FramedAll(Changed(inputs, i, j, v)) == before + [Content(v)] + after {
        assert Changed(inputs, i, j, v)[..last] == Changed(inputs[..last], i, j, v);
        assert FramedAll(Changed(inputs[..last], i, j, v)) == before + [Content(v)] + rest;
      }
    }
  }

  /** Changing one byte of one input, and no length, always changes the key text: in both halves. */
  lemma OneByteChanges(inputs: seq<seq<Byte>>, i: nat, j: nat, v: Byte)
    requires i < |inputs| && j < |inputs[i]| && v != inputs[i][j]
    ensures FirstHalf(inputs) != FirstHalf(Changed(inputs, i, j, v))
    ensures SecondHalf(inputs) != SecondHalf(Changed(inputs, i, j, v))
    ensures KeyText(inputs) != KeyText(Changed(inputs, i, j, v))
  {
    var w := inputs[i][j];
    var before, after := FramedAround(inputs, i, j);
    var other := Changed(inputs, i, j, v);
    assert Changed(inputs, i, j, w)[i] == inputs[i] && Changed(inputs, i, j, w) == inputs;
    assert FramedAll(inputs) == before + [Content(w)] + after;
    assert FramedAll(other) == before + [Content(v)] + after;
    ItemChanged(START_A, START_B, before, v, w, after);
    HexApart(RunA(START_A, FramedAll(inputs)), RunA(START_A, FramedAll(other)));
    HexApart(RunB(START_B, FramedAll(inputs)), RunB(START_B, FramedAll(other)));
    assert KeyText(inputs)[..16] == FirstHalf(inputs) && KeyText(other)[..16] == FirstHalf(other);
  }

  lemma HexApart(x: Long, y: Long)
    requires x != y
    ensures Hex(x, 16) != Hex(y, 16) && |Hex(x, 16)| == |Hex(y, 16)| == 16
  {
    LongSize();
    HexLength(x, 16);
    HexLength(y, 16);
    if Hex(x, 16) == Hex(y, 16) {
      HexInjective(x, y, 16);
    }
  }

  // ---------------------------------------------------------------- length framing

  /** The plain numbers that a half of the hash mixes in for `items`, with `mix` the half's
      treatment of an item. Nothing in them tells a length from a byte. */
  function Mixed(mix: Item -> Long, items: seq<Item>): seq<Long> {
    seq(|items|, k requires 0 <= k < |items| => mix(items[k]))
  }

  /** `mix` tells lengths from each other and bytes from each other. */
  ghost predicate Tells(mix: Item -> Long) {
    (forall m: nat, n: nat :: m < RADIX64 && n < RADIX64 && mix(Length(m)) == mix(Length(n)) ==> m == n)
    && (forall v: Byte, w: Byte :: mix(Content(v)) == mix(Content(w)) ==> v == w)
  }

  lemma MixATells()
    ensures Tells(MixedA)
  {
  }

  lemma MixBTells()
    ensures Tells(MixedB)
  {
    forall m: nat, n: nat | m < RADIX64 && n < RADIX64 && MixedB(Length(m)) == MixedB(Length(n)) ensures m == n {
      LengthsB(m, n);
    }
    forall v: Byte, w: Byte | MixedB(Content(v)) == MixedB(Content(w)) ensures v == w {
      BytesB(v, w);
    }
    hide MixedB;
  }

  lemma LengthsB(m: nat, n: nat)
    requires m < RADIX64 && n < RADIX64 && MixedB(Length(m)) == MixedB(Length(n))
    ensures m == n
  {
    assert m % RADIX64 == m && n % RADIX64 == n;
    hide RotateLeft31;
    RotateInjective(m, n);
  }

  lemma BytesB(v: Byte, w: Byte)
    requires MixedB(Content(v)) == MixedB(Content(w))
    ensures v == w
  {
  }

  lemma RotateInjective(x: Long, y: Long)
    requires RotateLeft31(x) == RotateLeft31(y)
    ensures x == y
  {
    assert x == 0x2_0000_0000 * (x / 0x2_0000_0000) + x % 0x2_0000_0000;
    assert y == 0x2_0000_0000 * (y / 0x2_0000_0000) + y % 0x2_0000_0000;
  }

  lemma MixedThen(mix: Item -> Long, x: seq<Item>, y: seq<Item>)
    ensures Mixed(mix, x + y) == Mixed(mix, x) + Mixed(mix, y)
  {
  }

  lemma FramedLast(inputs: seq<seq<Byte>>)
    ensures FramedAll([]) == []
    ensures inputs != [] ==> FramedAll(inputs) == FramedAll(inputs[..|inputs| - 1]) + Framed(inputs[|inputs| - 1])
  {
  }

  /** The first frame comes first. */
  lemma {:induction false} FramedFirst(inputs: seq<seq<Byte>>)
    requires inputs != []
    ensures FramedAll(inputs) == Framed(inputs[0]) + FramedAll(inputs[1..])
  {
    hide Framed, FramedAll;
    FramedLast(inputs);
    if |inputs| == 1 {
      assert inputs[..0] == [] && inputs[1..] == [];
    } else {
      var init, last := inputs[..|inputs| - 1], inputs[|inputs| - 1];
      FramedFirst(init);
      FramedLast(inputs[1..]);
      assert init[1..] == inputs[1..][..|inputs| - 2];
    }
  }

  /** The numbers for `p`, then more, start with its length, which says where its bytes end. */
  lemma FirstDecoded(mix: Item -> Long, p: seq<Byte>, q: seq<Byte>, x: seq<Item>, y: seq<Item>)
    requires Tells(mix) && |p| < RADIX64 && |q| < RADIX64
    requires Mixed(mix, Framed(p) + x) == Mixed(mix, Framed(q) + y)
    ensures p == q && Mixed(mix, x) == Mixed(mix, y)
  {
    var u, v := Mixed(mix, Framed(p) + x), Mixed(mix, Framed(q) + y);
    assert u[0] == mix(Length(|p|)) && v[0] == mix(Length(|q|));
    forall k | 0 <= k < |p| ensures p[k] == q[k] {
      assert (Framed(p) + x)[k + 1] == Content(p[k]) && (Framed(q) + y)[k + 1] == Content(q[k]);
      assert u[k + 1] == mix(Content(p[k])) && v[k + 1] == mix(Content(q[k]));
    }
    MixedThen(mix, Framed(p), x);
    MixedThen(mix, Framed(q), y);
    assert Mixed(mix, x) == u[|p| + 1..] && Mixed(mix, y) == v[|q| + 1..];
  }

  /** Length framing prevents ambiguous concatenations: from the numbers mixed into either half
      the inputs can be read back, so inputs joined or split differently are not mixed alike. */
  lemma {:induction false} FramingIsUnambiguous(mix: Item -> Long, x: seq<seq<Byte>>, y: seq<seq<Byte>>)
    requires mix == MixedA || mix == MixedB
    requires (forall p :: p in x ==> |p| < RADIX64) && (forall q :: q in y ==> |q| < RADIX64)
    requires Mixed(mix, FramedAll(x)) == Mixed(mix, FramedAll(y))
    ensures x == y
    decreases |x|
  {
    if x != [] {
      FramedFirst(x);
    }
    if y != [] {
      FramedFirst(y);
    }
    assert |Mixed(mix, FramedAll(x))| == |FramedAll(x)| && |Mixed(mix, FramedAll(y))| == |FramedAll(y)|;
    if x != [] && y != [] {
      MixATells();
      MixBTells();
      hide Tells, FramedAll;
      FirstDecoded(mix, x[0], y[0], FramedAll(x[1..]), FramedAll(y[1..]));
      FramingIsUnambiguous(mix, x[1..], y[1..]);
      assert x == [x[0]] + x[1..] && y == [y[0]] + y[1..];
    }
  }

  // ---------------------------------------------------------------- the numbers of the hash

  /** Rotating left by 31 multiplies by 2^31 and brings what overflows back in below. */
  lemma RotationMeans(x: Long)
    ensures RotateLeft31(x) == (x * 0x8000_0000) % RADIX64 + (x * 0x8000_0000) / RADIX64
  {
    var high, low := x / 0x2_0000_0000, x % 0x2_0000_0000;
    assert x == 0x2_0000_0000 * high + low;
    assert x * 0x8000_0000 == RADIX64 * high + low * 0x8000_0000;
    assert low * 0x8000_0000 < RADIX64;
  }

  /** What a length and a byte contribute to either half. */
  lemma ItemsMean(n: nat, v: Byte)
    ensures MixedA(Length(n)) == n % RADIX64 && MixedA(Content(v)) == v
    ensures MixedB(Content(v)) == v + 157
    ensures n < 0x2_0000_0000 ==> MixedB(Length(n)) == n * 0x8000_0000
  {
    if n < 0x2_0000_0000 { RotationMeans(n); }
  }

  lemma XorZero(x: Long)
    ensures Xor(x, 0) == x
  {
    forall k: nat ensures Bit(Xor(x, 0), k) == Bit(x, k) {
      XorBit(x, 0, k);
      NoBits(k);
      LongSize();
      if k >= 64 { HighBit(x, 64, k); }
    }
    SameBits(Xor(x, 0), x);
  }

  /** A hexadecimal text read back. */
  function NumberOf(text: string): int {
    if text == "" then 0 else NumberOf(text[..|text| - 1]) * 16 + DigitOf(text[|text| - 1])
  }

  function DigitOf(c: char): int {
    if '0' <= c <= '9' then c as int - '0' as int else if 'a' <= c <= 'f' then c as int - 'a' as int + 10 else -1
  }

  lemma {:induction false} HexRead(x: nat, n: nat)
    requires x < Pow2(4 * n)
    ensures |Hex(x, n)| == n && NumberOf(Hex(x, n)) == x
  {
    if n > 0 {
      PowAdd(4, 4 * (n - 1));
      assert 4 * n == 4 + 4 * (n - 1) && Pow2(4) == 16;
      HexRead(x / 16, n - 1);
      assert Hex(x, n)[..n - 1] == Hex(x / 16, n - 1);
      DigitRead(x % 16);
    }
  }

  lemma DigitRead(k: nat)
    requires k < 16
    ensures DigitOf("0123456789abcdef"[k]) == k
  {
  }

  /** The text is the two states as 16 digits each. */
  lemma KeyNumbers(inputs: seq<seq<Byte>>)
    ensures |KeyText(inputs)| == 32
    ensures NumberOf(KeyText(inputs)[..16]) == RunA(START_A, FramedAll(inputs))
    ensures NumberOf(KeyText(inputs)[16..]) == RunB(START_B, FramedAll(inputs))
  {
    hide Hex, NumberOf, RunA, RunB, FramedAll, Pow2;
    LongSize();
    HexRead(RunA(START_A, FramedAll(inputs)), 16);
    HexRead(RunB(START_B, FramedAll(inputs)), 16);
    assert KeyText(inputs)[..16] == FirstHalf(inputs) && KeyText(inputs)[16..] == SecondHalf(inputs);
  }

  /** They start as given, and an empty input multiplies them by the factors modulo 2^64. */
  lemma KeyStarts()
    ensures RunA(START_A, FramedAll([])) == 0xcbf29ce484222325 && RunB(START_B, FramedAll([])) == 0x84222325cbf29ce4
    ensures RunA(START_A, FramedAll([[]])) == (0xcbf29ce484222325 * 0x100000001b3) % RADIX64
    ensures RunB(START_B, FramedAll([[]])) == (0x84222325cbf29ce4 * 0x9e3779b185ebca87) % RADIX64
  {
    hide Xor;
    EmptyInput();
    XorZero(START_A);
    XorZero(START_B);
    assert RotateLeft31(0) == 0;
  }

  lemma EmptyInput()
    ensures FramedAll([]) == [] && FramedAll([[]]) == [Length(0)]
    ensures RunA(START_A, [Length(0)]) == StepA(START_A, Length(0)) && RunB(START_B, [Length(0)]) == StepB(START_B, Length(0))
  {
    var one: seq<seq<Byte>> := [[]];
    assert one[..0] == [] && one[0] == [];
    assert FramedAll(one) == FramedAll([]) + Framed([]);
    assert [Length(0)][..0] == [];
  }
}
