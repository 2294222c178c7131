/** Open-array queries, element addressing and element copies (src/svdpi_shim.c;
    IEEE 1800-2017 annex H.12.2 to H.12.5). */
module OpenArrays {
  import opened Results
  import opened Words

  /** The header in front of the element data. `left` and `right` have one entry per
      unpacked dimension that the header has room for (four in the C structure, any number
      here); the first `ndims` are in use. */
  datatype Header = Header(
    elemBytes: nat, ndims: int, packed: bool, packedLeft: int, packedRight: int,
    left: seq<int>, right: seq<int>, totalBytes: nat, elemCount: nat)

  /** A handle: `None` for a null pointer or one with no header in front of it. */
  type Handle = Option<Header>

  function Min(a: int, b: int): int { if a < b then a else b }

  function Max(a: int, b: int): int { if a > b then a else b }

  // ---------------------------------------------------------------- queries

  predicate Shaped(hd: Header) {
    0 <= hd.ndims <= |hd.left| == |hd.right|
  }

  predicate Sound(h: Handle) {
    h.Some? ==> Shaped(h.value)
  }

  function Bounds(h: Handle, d: int): Option<(int, int)>
    requires Sound(h)
  {
    if h.None? then None
    else if d == 0 then (if h.value.packed then Some((h.value.packedLeft, h.value.packedRight)) else None)
    else if d < 1 || d > h.value.ndims then None
    else Some((h.value.left[d - 1], h.value.right[d - 1]))
  }

  function Left(h: Handle, d: int): int
    requires Sound(h)
  {
    match Bounds(h, d) case Some((l, r)) => l case None => 0
  }

  function Right(h: Handle, d: int): int
    requires Sound(h)
  {
    match Bounds(h, d) case Some((l, r)) => r case None => 0
  }

  predicate Empty(hd: Header, d: int) {
    d >= 1 && hd.elemCount == 0
  }

  function Low(h: Handle, d: int): int
    requires Sound(h)
  {
    match Bounds(h, d)
    case None => 0
    case Some((l, r)) => if Empty(h.value, d) then l else Min(l, r)
  }

  function High(h: Handle, d: int): int
    requires Sound(h)
  {
    match Bounds(h, d)
    case None => 0
    case Some((l, r)) => if Empty(h.value, d) then r else Max(l, r)
  }

  function Increment(h: Handle, d: int): int
    requires Sound(h)
  {
    match Bounds(h, d)
    case None => 0
    case Some((l, r)) => if Empty(h.value, d) then -1 else if l >= r then 1 else -1
  }

  function Size(h: Handle, d: int): int
    requires Sound(h)
  {
    match Bounds(h, d)
    case None => 0
    case Some((l, r)) => if Empty(h.value, d) then 0 else Max(l, r) - Min(l, r) + 1
  }

  /** Dimension `d` of `h` exists and, if the array is empty, is declared as a range
      that runs one below its own left bound, such as [0:-1]. */
  predicate Measured(h: Handle, d: int)
    requires Sound(h)
  {
    Bounds(h, d).Some? && (Empty(h.value, d) ==> Right(h, d) == Left(h, d) - 1)
  }

  /** The three queries agree exactly on the dimensions that `Measured` describes. */
  lemma SpanIsSize(h: Handle, d: int)
    requires Sound(h)
    ensures High(h, d) - Low(h, d) + 1 == Size(h, d) <==> Measured(h, d)
  {
    if Bounds(h, d).Some? {
      var (l, r) := Bounds(h, d).value;
    }
  }

  /** Walking from the left bound in the direction of minus the increment reaches the
      right bound after `Size` positions, for every dimension that `Measured` describes. */
  lemma IncrementLeadsAcross(h: Handle, d: int)
    requires Sound(h) && Measured(h, d)
    ensures Left(h, d) - Increment(h, d) * (Size(h, d) - 1) == Right(h, d)
    ensures !Empty(h.value, d) ==> Low(h, d) == if Increment(h, d) == 1 then Right(h, d) else Left(h, d)
  {
    var (l, r) := Bounds(h, d).value;
  }

  // ---------------------------------------------------------------- element addressing

  function Lo(hd: Header, k: nat): int
    requires Shaped(hd) && k < hd.ndims
  {
    Min(hd.left[k], hd.right[k])
  }

  function Len(hd: Header, k: nat): (n: int)
    requires Shaped(hd) && k < hd.ndims
    ensures n >= 1
  {
    Max(hd.left[k], hd.right[k]) - Min(hd.left[k], hd.right[k]) + 1
  }

  /** The number of index tuples over the first `k` dimensions. */
  function Tuples(hd: Header, k: nat): (n: nat)
    requires Shaped(hd) && k <= hd.ndims
    ensures n >= 1
  {
    if k == 0 then 1 else
      AtLeast(Tuples(hd, k - 1), Len(hd, k - 1));
      Tuples(hd, k - 1) * Len(hd, k - 1)
  }

  /** A header as the simulator builds it: one element per index tuple, or an empty array of
      one dimension that ends one below its left bound. */
  predicate WellFormed(hd: Header) {
    Shaped(hd) && hd.ndims >= 1
    && (if hd.elemCount == 0 then hd.ndims == 1 && hd.right[0] == hd.left[0] - 1 else hd.elemCount == Tuples(hd, hd.ndims))
    && hd.totalBytes == hd.elemCount * hd.elemBytes
  }

  /** The canonical C element of an array: `char` to `long long`, `float`, `double`, a packed
      vector of two-state or four-state words, or a scalar byte. */
  datatype Element = I8 | I16 | I32 | I64 | F32 | F64 | BitVec(width: nat) | LogicVec(width: nat) | ScalarBit | ScalarLogic {
    function Bytes(): nat {
      match this
      case I8 => 1
      case ScalarBit => 1
      case ScalarLogic => 1
      case I16 => 2
      case I32 => 4
      case F32 => 4
      case I64 => 8
      case F64 => 8
      case BitVec(w) => 4 * Max((w + 31) / 32, 1)
      case LogicVec(w) => 8 * Max((w + 31) / 32, 1)
    }

    predicate Packed() {
      BitVec? || LogicVec?
    }
  }

  /** The header of `count` elements of the given shape, one (left, right) pair a dimension. */
  function Build(elem: Element, shape: seq<(int, int)>, count: nat): Header {
    Header(elem.Bytes(), Max(1, Min(|shape|, 4)), elem.Packed(), if elem.Packed() then Max(elem.width, 1) - 1 else 0, 0,
      seq(4, k requires 0 <= k < 4 => if k < |shape| then shape[k].0 else 0),
      seq(4, k requires 0 <= k < 4 => if k < |shape| then shape[k].1 else 0),
      count * elem.Bytes(), count)
  }

  function Cells(shape: seq<(int, int)>, k: nat): int
    requires k <= |shape|
  {
    if k == 0 then 1 else Cells(shape, k - 1) * (Max(shape[k - 1].0, shape[k - 1].1) - Min(shape[k - 1].0, shape[k - 1].1) + 1)
  }

  /** The shapes and element counts that the simulator collects from an actual: an empty array
      has one dimension, ending one below its left bound; any other has one element per cell. */
  predicate Collected(shape: seq<(int, int)>, count: nat) {
    1 <= |shape| <= 4
    && if count == 0 then |shape| == 1 && shape[0].1 == shape[0].0 - 1 else count == Cells(shape, |shape|)
  }

  lemma {:induction false} CellsAreTuples(elem: Element, shape: seq<(int, int)>, count: nat, k: nat)
    requires k <= |shape| <= 4 && 1 <= |shape|
    ensures Tuples(Build(elem, shape, count), k) == Cells(shape, k)
  {
    if k > 0 {
      CellsAreTuples(elem, shape, count, k - 1);
    }
  }

  /** Every header that is built for what is collected is well formed. */
  lemma BuiltIsWellFormed(elem: Element, shape: seq<(int, int)>, count: nat)
    requires Collected(shape, count)
    ensures WellFormed(Build(elem, shape, count))
  {
    CellsAreTuples(elem, shape, count, |shape|);
  }

  /** For every such header the three queries agree on each dimension that exists, and on no other. */
  lemma SpanOfBuilt(hd: Header, d: int)
    requires WellFormed(hd)
    ensures High(Some(hd), d) - Low(Some(hd), d) + 1 == Size(Some(hd), d) <==> Bounds(Some(hd), d).Some?
  {
    SpanIsSize(Some(hd), d);
  }

  /** A dimension that does not exist reports 0 for all three queries: here the second one of
      an ordinary array of four elements. */
  lemma SpanIsNotSize()
    ensures var hd := Build(I32, [(0, 3)], 4);
      WellFormed(hd) && Low(Some(hd), 2) == High(Some(hd), 2) == Size(Some(hd), 2) == 0
  {
    assert Cells([(0, 3)], 0) == 1;
    assert Cells([(0, 3)], 1) == 4;
    BuiltIsWellFormed(I32, [(0, 3)], 4);
  }

  predicate InRange(hd: Header, idx: seq<int>)
    requires Shaped(hd)
  {
    |idx| == hd.ndims && Within(hd, idx)
  }

  predicate Within(hd: Header, idx: seq<int>)
    requires Shaped(hd) && |idx| <= hd.ndims
  {
    forall k: nat :: k < |idx| ==> Lo(hd, k) <= idx[k] < Lo(hd, k) + Len(hd, k)
  }

  /** The row-major number of the tuple's first `k` indices. */
  function Rank(hd: Header, idx: seq<int>, k: nat): int
    requires Shaped(hd) && k <= |idx| <= hd.ndims
  {
    if k == 0 then 0 else Rank(hd, idx, k - 1) * Len(hd, k - 1) + (idx[k - 1] - Lo(hd, k - 1))
  }

  function ElementOf(hd: Header, idx: seq<int>): int
    requires Shaped(hd) && InRange(hd, idx)
  {
    Rank(hd, idx, hd.ndims)
  }

  /** The byte offset of an element from the start of the data, `None` for a null pointer. */
  method Elem(h: Handle, idx: seq<int>) returns (p: Option<int>)
    requires Sound(h)
    ensures p.Some? <==> h.Some? && h.value.elemCount != 0 && InRange(h.value, idx)
    ensures p.Some? ==> p.value == ElementOf(h.value, idx) * h.value.elemBytes
  {
    if h.None? || |idx| != h.value.ndims || h.value.elemCount == 0 {
      return None;
    }
    var hd := h.value;
    var off := 0;
    for k := 0 to |idx|
      invariant off == Rank(hd, idx, k)
      invariant forall j: nat :: j < k ==> Lo(hd, j) <= idx[j] < Lo(hd, j) + Len(hd, j)
    {
      var lo, hi := Min(hd.left[k], hd.right[k]), Max(hd.left[k], hd.right[k]);
      if idx[k] < lo || idx[k] > hi {
        return None;
      }
      off := off * (hi - lo + 1) + (idx[k] - lo);
    }
    return Some(off * hd.elemBytes);
  }

  lemma Mixed(a: int, n: int, x: int, m: int)
    requires 0 <= a < m && 0 <= x < n
    ensures 0 <= a * n + x < m * n
  {
    Product(a, n);
    Product(m - 1 - a, n);
    assert (m - 1 - a) * n == m * n - n - a * n;
  }

  lemma {:induction false} RankBound(hd: Header, idx: seq<int>, k: nat)
    requires Shaped(hd) && InRange(hd, idx) && k <= hd.ndims
    ensures 0 <= Rank(hd, idx, k) < Tuples(hd, k)
  {
    if k > 0 {
      RankBound(hd, idx, k - 1);
      Mixed(Rank(hd, idx, k - 1), Len(hd, k - 1), idx[k - 1] - Lo(hd, k - 1), Tuples(hd, k - 1));
    }
  }

  /** Every element that has an address lies wholly inside the data. */
  lemma InsideData(hd: Header, idx: seq<int>)
    requires WellFormed(hd) && hd.elemCount != 0 && InRange(hd, idx)
    ensures 0 <= ElementOf(hd, idx) < hd.elemCount
    ensures 0 <= ElementOf(hd, idx) * hd.elemBytes <= ElementOf(hd, idx) * hd.elemBytes + hd.elemBytes <= hd.totalBytes
  {
    RankBound(hd, idx, hd.ndims);
    LastFits(ElementOf(hd, idx), hd.elemCount, hd.elemBytes);
  }

  lemma LastFits(e: nat, count: nat, size: nat)
    requires e < count
    ensures 0 <= e * size <= e * size + size <= count * size
  {
    Product(e, size);
    Product(count - 1 - e, size);
    assert (count - 1 - e) * size == count * size - size - e * size;
  }

  lemma Divided(e: nat, n: nat, m: nat) returns (q: nat, r: nat)
    requires n > 0 && e < m * n
    ensures e == q * n + r && q < m && r < n
  {
    Quotient(e, n);
    q, r := e / n, e % n;
    assert e == n * q + r;
    if q >= m {
      AtLeastTimes(n, m, q);
    }
  }

  lemma AtLeastTimes(n: nat, m: nat, q: nat)
    requires q >= m
    ensures n * q >= m * n
  {
    Product(q - m, n);
    assert (q - m) * n == n * q - m * n;
  }

  lemma {:induction false} RankOfPrefix(hd: Header, a: seq<int>, b: seq<int>, k: nat)
    requires Shaped(hd) && k <= |a| <= hd.ndims && k <= |b| <= hd.ndims
    requires forall j: nat :: j < k ==> a[j] == b[j]
    ensures Rank(hd, a, k) == Rank(hd, b, k)
  {
    if k > 0 {
      RankOfPrefix(hd, a, b, k - 1);
    }
  }

  /** The indices of element `e`, over the first `k` dimensions. */
  lemma {:induction false} TupleOf(hd: Header, e: nat, k: nat) returns (t: seq<int>)
    requires Shaped(hd) && k <= hd.ndims && e < Tuples(hd, k)
    ensures |t| == k && Within(hd, t) && Rank(hd, t, k) == e
  {
    if k == 0 {
      t := [];
    } else {
      var q, r := Divided(e, Len(hd, k - 1), Tuples(hd, k - 1));
      var s := TupleOf(hd, q, k - 1);
      t := s + [Lo(hd, k - 1) + r];
      RankOfPrefix(hd, s, t, k - 1);
    }
  }

  /** Every element number below the count is addressed by some tuple. */
  lemma Onto(hd: Header, e: nat)
    requires WellFormed(hd) && e < hd.elemCount
    ensures exists t: seq<int> :: InRange(hd, t) && ElementOf(hd, t) == e
  {
    var t := TupleOf(hd, e, hd.ndims);
    assert InRange(hd, t) && ElementOf(hd, t) == e;
  }

  /** `a` comes before `b`: at the first of the leading `n` places where they differ, `a` is smaller. */
  ghost predicate Before(a: seq<int>, b: seq<int>, n: nat)
    requires n <= |a| && n <= |b|
  {
    exists j: nat :: j < n && Splits(a, b, j)
  }

  ghost predicate Splits(a: seq<int>, b: seq<int>, j: nat)
    requires j < |a| && j < |b|
  {
    (forall i: nat :: i < j ==> a[i] == b[i]) && a[j] < b[j]
  }

  lemma Ordered(p: int, x: int, q: int, y: int, n: int)
    requires 0 <= x < n && 0 <= y < n
    ensures p * n + x < q * n + y <==> p < q || (p == q && x < y)
  {
    if p < q {
      Product(q - p - 1, n);
      assert (q - p - 1) * n == q * n - p * n - n;
    } else if q < p {
      Product(p - q - 1, n);
      assert (p - q - 1) * n == p * n - q * n - n;
    }
  }

  /** Equal ranks: the same leading indices. */
  lemma {:induction false} RankInjective(hd: Header, a: seq<int>, b: seq<int>, k: nat)
    requires Shaped(hd) && InRange(hd, a) && InRange(hd, b) && k <= hd.ndims
    requires Rank(hd, a, k) == Rank(hd, b, k)
    ensures forall j: nat :: j < k ==> a[j] == b[j]
  {
    if k > 0 {
      var n := Len(hd, k - 1);
      var x, y := a[k - 1] - Lo(hd, k - 1), b[k - 1] - Lo(hd, k - 1);
      Ordered(Rank(hd, a, k - 1), x, Rank(hd, b, k - 1), y, n);
      Ordered(Rank(hd, b, k - 1), y, Rank(hd, a, k - 1), x, n);
      RankInjective(hd, a, b, k - 1);
    }
  }

  /** Distinct tuples address distinct elements. */
  lemma OneToOne(hd: Header, a: seq<int>, b: seq<int>)
    requires Shaped(hd) && InRange(hd, a) && InRange(hd, b)
    ensures ElementOf(hd, a) == ElementOf(hd, b) <==> a == b
  {
    if ElementOf(hd, a) == ElementOf(hd, b) {
      RankInjective(hd, a, b, hd.ndims);
    }
  }

  /** Addresses grow exactly as tuples do in ascending lexicographic order. */
  lemma {:induction false} RankOrder(hd: Header, a: seq<int>, b: seq<int>, k: nat)
    requires Shaped(hd) && InRange(hd, a) && InRange(hd, b) && k <= hd.ndims
    ensures Rank(hd, a, k) < Rank(hd, b, k) <==> Before(a, b, k)
  {
    if k > 0 {
      var p, q := Rank(hd, a, k - 1), Rank(hd, b, k - 1);
      Ordered(p, a[k - 1] - Lo(hd, k - 1), q, b[k - 1] - Lo(hd, k - 1), Len(hd, k - 1));
      RankOrder(hd, a, b, k - 1);
      if p == q {
        RankInjective(hd, a, b, k - 1);
        assert a[k - 1] < b[k - 1] ==> Splits(a, b, k - 1);
      }
      if Before(a, b, k) && !Before(a, b, k - 1) {
        assert Splits(a, b, k - 1);
        RankOfPrefix(hd, a, b, k - 1);
      }
    }
  }

  /** `b` is the next tuple after `a`. */
  ghost predicate Follows(hd: Header, a: seq<int>, b: seq<int>)
    requires Shaped(hd) && InRange(hd, a) && InRange(hd, b)
  {
    Before(a, b, hd.ndims)
    && forall c: seq<int> :: InRange(hd, c) ==> !(Before(a, c, hd.ndims) && Before(c, b, hd.ndims))
  }

  /** The next tuple addresses the next element, and only the next tuple does. */
  lemma NextElement(hd: Header, a: seq<int>, b: seq<int>)
    requires WellFormed(hd) && hd.elemCount != 0 && InRange(hd, a) && InRange(hd, b)
    ensures Follows(hd, a, b) <==> ElementOf(hd, b) == ElementOf(hd, a) + 1
  {
    var n := hd.ndims;
    RankOrder(hd, a, b, n);
    InsideData(hd, a);
    InsideData(hd, b);
    forall c: seq<int> | InRange(hd, c)
      ensures Before(a, c, n) <==> ElementOf(hd, a) < ElementOf(hd, c)
      ensures Before(c, b, n) <==> ElementOf(hd, c) < ElementOf(hd, b)
    {
      RankOrder(hd, a, c, n);
      RankOrder(hd, c, b, n);
    }
    if ElementOf(hd, a) + 1 < ElementOf(hd, b) {
      Onto(hd, ElementOf(hd, a) + 1);
      var c: seq<int> :| InRange(hd, c) && ElementOf(hd, c) == ElementOf(hd, a) + 1;
      assert Before(a, c, n) && Before(c, b, n);
    }
  }

  // ---------------------------------------------------------------- element copies

  /** Canonical words in one element; whole ones only, when it is not a packed vector. */
  function ElementWords(hd: Header): nat {
    if hd.packed then (Max(hd.packedLeft, hd.packedRight) - Min(hd.packedLeft, hd.packedRight) + 1 + 31) / 32
    else hd.elemBytes / 4
  }

  /** The bytes that a copy moves: `unit` is the size of a word, 4 for two-state and 8 for
      four-state vectors. */
  function CopyBytes(hd: Header, unit: nat): nat {
    Product(ElementWords(hd), unit);
    ElementWords(hd) * unit
  }

  /** What a caller must see to: the elements have room for the kind of word that is copied. */
  predicate Roomy(h: Handle, unit: nat) {
    h.Some? ==> WellFormed(h.value) && CopyBytes(h.value, unit) <= h.value.elemBytes
  }

  /** A copy of two-state words fits every element, and one of four-state words every element
      that has four-state words or no whole word at all. */
  lemma CopyFits(elem: Element, shape: seq<(int, int)>, count: nat)
    ensures CopyBytes(Build(elem, shape, count), 4) <= elem.Bytes()
    ensures CopyBytes(Build(elem, shape, count), 8) <= elem.Bytes() <==> elem.LogicVec? || elem.Bytes() < 4
  {
    if elem.Packed() {
      assert Build(elem, shape, count).packedLeft == Max(elem.width, 1) - 1;
    }
  }

  predicate Addressed(h: Handle, idx: seq<int>)
    requires Sound(h)
  {
    h.Some? && h.value.elemCount != 0 && InRange(h.value, idx)
  }

  /** Where the bytes of the element at `idx` start. */
  function ByteOf(hd: Header, idx: seq<int>): int
    requires Shaped(hd) && InRange(hd, idx)
  {
    ElementOf(hd, idx) * hd.elemBytes
  }

  /** What a copy needs: the addressed element and as many bytes behind it as are copied lie in
      the `length` bytes of the data. They may reach into the next elements. */
  predicate InMemory(h: Handle, unit: nat, idx: seq<int>, length: nat)
    requires Sound(h)
  {
    Addressed(h, idx) ==> 0 <= ByteOf(h.value, idx) <= length - CopyBytes(h.value, unit)
  }

  /** A copy that fits the elements is in memory wherever it goes. */
  lemma RoomyInMemory(h: Handle, unit: nat, idx: seq<int>)
    requires Sound(h) && Roomy(h, unit)
    ensures h.Some? ==> InMemory(h, unit, idx, h.value.totalBytes)
  {
    if Addressed(h, idx) {
      InsideData(h.value, idx);
    }
  }

  function Stored<T>(data: seq<T>, at: nat, bytes: seq<T>): seq<T>
    requires at + |bytes| <= |data|
  {
    data[..at] + bytes + data[at + |bytes|..]
  }

  function Fetched<T>(data: seq<T>, at: nat, n: nat): seq<T>
    requires at + n <= |data|
  {
    data[at..at + n]
  }

  /** `memcpy` of `n` bytes. */
  method CopyMemory<T>(d: array<T>, at: nat, s: array<T>, from: nat, n: nat)
    requires d != s && at + n <= d.Length && from + n <= s.Length
    modifies d
    ensures d[..] == Stored(old(d[..]), at, s[from..from + n])
  {
    ghost var was := d[..];
    for j := 0 to n
      invariant d[at..at + j] == s[from..from + j]
      invariant d[..at] == was[..at] && d[at + j..] == was[at + j..]
    {
      d[at + j] := s[from + j];
    }
    assert d[..] == d[..at] + d[at..at + n] + d[at + n..];
  }

  method PutElem<T>(h: Handle, unit: nat, data: array<T>, idx: seq<int>, s: array<T>)
    requires Sound(h) && s != data && InMemory(h, unit, idx, data.Length)
    requires Addressed(h, idx) ==> s.Length >= CopyBytes(h.value, unit)
    modifies data
    ensures !Addressed(h, idx) ==> data[..] == old(data[..])
    ensures Addressed(h, idx) ==>
      0 <= ByteOf(h.value, idx) <= data.Length - CopyBytes(h.value, unit)
      && data[..] == Stored(old(data[..]), ByteOf(h.value, idx), s[..CopyBytes(h.value, unit)])
  {
    var e := Elem(h, idx);
    if e.Some? {
      CopyMemory(data, e.value, s, 0, CopyBytes(h.value, unit));
    }
  }

  method GetElem<T>(h: Handle, unit: nat, data: array<T>, idx: seq<int>, d: array<T>)
    requires Sound(h) && d != data && InMemory(h, unit, idx, data.Length)
    requires Addressed(h, idx) ==> d.Length >= CopyBytes(h.value, unit)
    modifies d
    ensures !Addressed(h, idx) ==> d[..] == old(d[..])
    ensures Addressed(h, idx) ==>
      0 <= ByteOf(h.value, idx) <= data.Length - CopyBytes(h.value, unit)
      && d[..] == Stored(old(d[..]), 0, Fetched(data[..], ByteOf(h.value, idx), CopyBytes(h.value, unit)))
  {
    var e := Elem(h, idx);
    if e.Some? {
      var n := CopyBytes(h.value, unit);
      CopyMemory(d, 0, data, e.value, n);
      assert data[e.value..e.value + n] == Fetched(data[..], e.value, n);
    }
  }

  lemma StoredApart<T>(data: seq<T>, at: nat, bytes: seq<T>, other: nat)
    requires at + |bytes| <= |data| && other + |bytes| <= |data|
    requires other == at || other + |bytes| <= at || at + |bytes| <= other
    ensures Fetched(Stored(data, at, bytes), other, |bytes|) == if other == at then bytes else Fetched(data, other, |bytes|)
  {
  }

  lemma Apart(p: int, q: int, n: nat)
    requires p < q
    ensures p * n + n <= q * n
  {
    Product(q - p - 1, n);
    assert (q - p - 1) * n == q * n - p * n - n;
  }

  /** What is copied into the element at `a` is copied out of it again, and every other element
      gives what it gave before. */
  lemma ElementCopied<T>(hd: Header, unit: nat, data: seq<T>, a: seq<int>, b: seq<int>, bytes: seq<T>)
    requires Roomy(Some(hd), unit) && hd.elemCount != 0 && InRange(hd, a) && InRange(hd, b)
    requires |data| == hd.totalBytes && |bytes| == CopyBytes(hd, unit)
    ensures 0 <= ByteOf(hd, a) <= |data| - |bytes| && 0 <= ByteOf(hd, b) <= |data| - |bytes|
    ensures Fetched(Stored(data, ByteOf(hd, a), bytes), ByteOf(hd, b), |bytes|)
         == if a == b then bytes else Fetched(data, ByteOf(hd, b), |bytes|)
  {
    InsideData(hd, a);
    InsideData(hd, b);
    OneToOne(hd, a, b);
    if ElementOf(hd, a) < ElementOf(hd, b) {
      Apart(ElementOf(hd, a), ElementOf(hd, b), hd.elemBytes);
    } else if ElementOf(hd, b) < ElementOf(hd, a) {
      Apart(ElementOf(hd, b), ElementOf(hd, a), hd.elemBytes);
    }
    StoredApart(data, ByteOf(hd, a), bytes, ByteOf(hd, b));
  }

  // ---------------------------------------------------------------- the queries of a built header

  /** The six queries of a dimension that runs from `l` to `r`. */
  predicate Answers(h: Handle, d: int, l: int, r: int)
    requires Sound(h)
  {
    && Left(h, d) == l && Right(h, d) == r
    && Low(h, d) <= l <= High(h, d) && Low(h, d) <= r <= High(h, d) && (Low(h, d) == l || Low(h, d) == r) && (High(h, d) == l || High(h, d) == r)
    && Increment(h, d) == (if l >= r then 1 else -1) && Size(h, d) == High(h, d) - Low(h, d) + 1
  }

  /** All of them 0. */
  predicate NoDimension(h: Handle, d: int)
    requires Sound(h)
  {
    Left(h, d) == Right(h, d) == Low(h, d) == High(h, d) == Increment(h, d) == Size(h, d) == 0
  }

  /** An array's unpacked dimensions answer with their declared bounds, dimension 0 of a packed
      element with its width down to 0, and no other dimension exists. An empty array counts as
      ascending, of size 0, with its bounds as low and high. */
  lemma BuiltQueries(elem: Element, shape: seq<(int, int)>, count: nat, d: int)
    requires Collected(shape, count)
    ensures var h := Some(Build(elem, shape, count));
      if d == 0 then (if elem.Packed() then Answers(h, 0, Max(elem.width, 1) - 1, 0) else NoDimension(h, 0))
      else if d < 0 || d > |shape| then NoDimension(h, d)
      else if count > 0 then Answers(h, d, shape[d - 1].0, shape[d - 1].1)
      else Left(h, 1) == Low(h, 1) == shape[0].0 && Right(h, 1) == High(h, 1) == shape[0].1 && Increment(h, 1) == -1 && Size(h, 1) == 0
  {
  }

  /** A copy of words of a packed element's own kind moves the whole element. */
  lemma CopyMovesAll(elem: Element, shape: seq<(int, int)>, count: nat)
    requires elem.Packed()
    ensures CopyBytes(Build(elem, shape, count), if elem.BitVec? then 4 else 8) == elem.Bytes()
  {
    assert Build(elem, shape, count).packedLeft == Max(elem.width, 1) - 1;
  }
}
