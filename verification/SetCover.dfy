/** Cost-weighted greedy set cover: the test-suite partition of
    scripts/analyze_test_coverage.py, with running times as exact reals. */
module SetCover {
  import opened Results

  /** A covered code region: file, line, column. */
  type Region = (string, int, int)

  datatype Unit = Unit(elapsed: real, cov: set<Region>)

  /** One reported unit: its index, its region count, the regions it added when
      it was picked, and the number of regions covered after it. */
  datatype Entry = Entry(unit: nat, total: nat, added: nat, cumulative: nat)

  datatype Tiers = Tiers(core: seq<Entry>, corner: seq<Entry>, redundant: seq<nat>)

  // ---------------------------------------------------------------- vocabulary

  function Cost(u: Unit): real {
    if u.elapsed < 0.005 then 0.005 else u.elapsed
  }

  function Fresh(u: Unit, covered: set<Region>): nat {
    |u.cov - covered|
  }

  /** The unit would add at least one region. */
  ghost predicate Adds(u: Unit, covered: set<Region>) {
    !(u.cov <= covered)
  }

  lemma AddsIffFresh(u: Unit, covered: set<Region>)
    ensures Adds(u, covered) <==> Fresh(u, covered) > 0
  {
    if u.cov <= covered {
      assert u.cov - covered == {};
    } else {
      var x :| x in u.cov && x !in covered;
      assert x in u.cov - covered;
    }
  }

  function Score(u: Unit, covered: set<Region>): real {
    Fresh(u, covered) as real / Cost(u)
  }

  /** Python's `int`: truncation toward zero. */
  function Trunc(x: real): int {
    if x >= 0.0 then x.Floor else -((-x).Floor)
  }

  ghost predicate Indices(units: seq<Unit>, sel: seq<nat>) {
    forall k :: 0 <= k < |sel| ==> sel[k] < |units|
  }

  /** The regions covered by the units that `sel` lists. */
  ghost function Covered(units: seq<Unit>, sel: seq<nat>): set<Region> {
    Before(units, sel, |sel|)
  }

  /** The regions covered before pick `k`. */
  ghost function Before(units: seq<Unit>, sel: seq<nat>, k: nat): set<Region>
    requires k <= |sel|
  {
    if k == 0 then {} else Before(units, sel, k - 1) + if sel[k - 1] < |units| then units[sel[k - 1]].cov else {}
  }

  ghost function Universe(units: seq<Unit>): set<Region> {
    set k, x | 0 <= k < |units| && x in units[k].cov :: x
  }

  /** `i` is preferred to `j`: better score, then more new regions, then earlier in the list. */
  ghost predicate Beats(units: seq<Unit>, covered: set<Region>, i: nat, j: nat)
    requires i < |units| && j < |units|
  {
    var si, sj := Score(units[i], covered), Score(units[j], covered);
    var ni, nj := Fresh(units[i], covered), Fresh(units[j], covered);
    si > sj || (si == sj && (ni > nj || (ni == nj && i <= j)))
  }

  /** `i` adds something, and beats every unit that adds something. */
  ghost predicate Best(units: seq<Unit>, covered: set<Region>, i: nat) {
    && i < |units|
    && Adds(units[i], covered)
    && forall j :: 0 <= j < |units| && Adds(units[j], covered) ==> Beats(units, covered, i, j)
  }

  /** Pick `k` was the best one at its turn. */
  ghost predicate GoodPick(units: seq<Unit>, sel: seq<nat>, k: nat) {
    k < |sel| && Best(units, Before(units, sel, k), sel[k])
  }

  ghost predicate Greedy(units: seq<Unit>, sel: seq<nat>) {
    forall k :: 0 <= k < |sel| ==> GoodPick(units, sel, k)
  }

  /** Before pick `k` the target is not met yet. */
  ghost predicate Short(units: seq<Unit>, sel: seq<nat>, k: nat, target: int) {
    k <= |sel| && |Before(units, sel, k)| < target
  }

  ghost predicate Exhausted(units: seq<Unit>, covered: set<Region>) {
    forall j :: 0 <= j < |units| ==> !Adds(units[j], covered)
  }

  ghost function Target(units: seq<Unit>, ratio: real): int {
    Trunc(|Universe(units)| as real * ratio)
  }

  ghost function Picked(entries: seq<Entry>): (sel: seq<nat>)
    ensures |sel| == |entries|
  {
    seq(|entries|, k requires 0 <= k < |entries| => entries[k].unit)
  }

  /** Entry `k` reports what pick `k` found when it was picked. */
  ghost predicate Report(units: seq<Unit>, sel: seq<nat>, entries: seq<Entry>, k: nat) {
    && k < |sel| && sel[k] < |units| && k < |entries|
    && var u := units[sel[k]];
       entries[k] == Entry(sel[k], |u.cov|, Fresh(u, Before(units, sel, k)), |Before(units, sel, k + 1)|)
  }

  ghost predicate Reports(units: seq<Unit>, sel: seq<nat>, entries: seq<Entry>) {
    |entries| == |sel| && forall k :: 0 <= k < |sel| ==> Report(units, sel, entries, k)
  }

  /** What the partition promises about the tiers, without saying how they are found. */
  ghost predicate Partitioned(units: seq<Unit>, ratio: real, t: Tiers) {
    Split(units, Target(units, ratio), t)
  }

  ghost predicate Split(units: seq<Unit>, target: int, t: Tiers) {
    var sel := Picked(t.core + t.corner);
    && Greedy(units, sel)
    && Exhausted(units, Covered(units, sel))
    && Reports(units, sel, t.core + t.corner)
    && Ascending(t.redundant)
    && (forall i :: i in t.redundant <==> 0 <= i < |units| && i !in sel)
    && forall k :: 0 <= k < |sel| ==> (Short(units, sel, k, target) <==> k < |t.core|)
  }

  ghost predicate Ascending(s: seq<nat>) {
    forall a, b :: 0 <= a < b < |s| ==> s[a] < s[b]
  }

  // ---------------------------------------------------------------- the program

  method PickBest(units: seq<Unit>, remaining: seq<nat>, covered: set<Region>)
    returns (found: bool, pos: nat)
    requires Indices(units, remaining) && Ascending(remaining)
    ensures found ==> pos < |remaining| && Adds(units[remaining[pos]], covered)
    ensures found ==> forall q :: 0 <= q < |remaining| && Adds(units[remaining[q]], covered) ==>
                        Beats(units, covered, remaining[pos], remaining[q])
    ensures !found ==> forall q :: 0 <= q < |remaining| ==> !Adds(units[remaining[q]], covered)
  {
    found, pos := false, 0;
    var bestScore, bestNew := -1.0, 0;
    for q := 0 to |remaining|
      invariant found ==> pos < q && bestNew == Fresh(units[remaining[pos]], covered) > 0 && Adds(units[remaining[pos]], covered)
      invariant found ==> bestScore == Score(units[remaining[pos]], covered)
      invariant found ==> forall r :: 0 <= r < q && Adds(units[remaining[r]], covered) ==>
                            Beats(units, covered, remaining[pos], remaining[r])
      invariant !found ==> bestScore == -1.0 && forall r :: 0 <= r < q ==> !Adds(units[remaining[r]], covered)
    {
      var u := units[remaining[q]];
      var newCount := |u.cov - covered|;
      AddsIffFresh(u, covered);
      if newCount == 0 {
        continue;
      }
      var score := newCount as real / Cost(u);
      if score > bestScore || (score == bestScore && newCount > bestNew) {
        found, pos, bestScore, bestNew := true, q, score, newCount;
      }
    }
  }

  /** The regions of every unit, gathered as the program gathers them. */
  method GatherUniverse(units: seq<Unit>) returns (universe: set<Region>)
    ensures universe == Universe(units)
  {
    universe := {};
    for i := 0 to |units|
      invariant universe == Universe(units[..i])
    {
      universe := universe + units[i].cov;
      assert units[..i + 1] == units[..i] + [units[i]];
    }
    assert units[..|units|] == units;
  }

  /** The selection loop: the picks in order, split at the target, and what was never picked. */
  method Select(units: seq<Unit>, target: int) returns (t: Tiers)
    ensures Split(units, target, t)
  {
    var remaining: seq<nat> := seq(|units|, i => i);
    forall i: nat | i < |units| ensures i in remaining { assert remaining[i] == i; }
    var covered: set<Region> := {};
    var core, corner: seq<Entry> := [], [];
    var redundant: seq<nat> := [];
    ghost var sel: seq<nat> := [];
    while remaining != []
      invariant Indices(units, remaining) && Ascending(remaining) && redundant == []
      invariant forall i: nat :: i in remaining <==> i < |units| && i !in sel
      invariant Greedy(units, sel) && covered == Covered(units, sel)
      invariant sel == Picked(core + corner) && Reports(units, sel, core + corner)
      invariant forall k :: 0 <= k < |sel| ==> (Short(units, sel, k, target) <==> k < |core|)
      decreases |remaining|
    {
      var found, pos := PickBest(units, remaining, covered);
      if !found {
        redundant := remaining;
        break;
      }
      var best := remaining[pos];
      GreedyIndices(units, sel);
      PickIsBest(units, sel, remaining, best);
      RemoveKeepsRest(remaining, pos);
      remaining := remaining[..pos] + remaining[pos + 1..];
      var wasInCore := |covered| < target;
      var added := |units[best].cov - covered|;
      covered := covered + units[best].cov;
      var entry := Entry(best, |units[best].cov|, added, |covered|);
      ghost var earlier := core + corner;
      PickKeeps(units, sel, earlier, best, entry, target);
      if wasInCore {
        CoreIsAll(units, sel, |core|, target);
        core := core + [entry];
      } else {
        corner := corner + [entry];
      }
      assert core + corner == earlier + [entry];
      sel := sel + [best];
    }
    GreedyIndices(units, sel);
    NothingLeft(units, sel, remaining);
    t := Tiers(core, corner, redundant);
  }

  method Partition(units: seq<Unit>, ratio: real) returns (r: Result<Tiers, string>)
    ensures r.Err? <==> Universe(units) == {}
    ensures r.Ok? ==> Partitioned(units, ratio, r.value)
  {
    var universe := GatherUniverse(units);
    if |universe| == 0 {
      return Err("No covered regions found");
    }
    var target := Trunc(|universe| as real * ratio);
    assert target == Target(units, ratio);
    var t := Select(units, target);
    r := Ok(t);
  }

  /** One more best pick keeps everything the loop knows about the picks so far. */
  lemma PickKeeps(units: seq<Unit>, sel: seq<nat>, entries: seq<Entry>, best: nat, entry: Entry, target: int)
    requires Greedy(units, sel) && Reports(units, sel, entries)
    requires sel == Picked(entries) && Best(units, Covered(units, sel), best)
    requires var u := units[best];
             entry == Entry(best, |u.cov|, Fresh(u, Covered(units, sel)), |Covered(units, sel) + u.cov|)
    ensures Covered(units, sel + [best]) == Covered(units, sel) + units[best].cov
    ensures Greedy(units, sel + [best]) && Reports(units, sel + [best], entries + [entry])
    ensures sel + [best] == Picked(entries + [entry])
    ensures forall k :: 0 <= k <= |sel| ==> (Short(units, sel + [best], k, target) <==> Short(units, sel, k, target))
  {
    var after := sel + [best];
    PrefixesAgree(units, sel, after);
    forall k | 0 <= k < |after|
      ensures GoodPick(units, after, k) && Report(units, after, entries + [entry], k)
    {
      if k < |sel| {
        assert GoodPick(units, sel, k) && Report(units, sel, entries, k);
      }
    }
  }

  lemma CoreIsAll(units: seq<Unit>, sel: seq<nat>, core: nat, target: int)
    requires core <= |sel| && |Covered(units, sel)| < target
    requires forall k :: 0 <= k < |sel| ==> (Short(units, sel, k, target) <==> k < core)
    ensures core == |sel|
  {
    BeforeGrows(units, sel, core, |sel|);
    assert core < |sel| ==> !Short(units, sel, core, target);
  }

  lemma RemoveKeepsRest(before: seq<nat>, pos: nat)
    requires Ascending(before) && pos < |before|
    ensures Ascending(before[..pos] + before[pos + 1..])
    ensures forall i: nat :: i in before[..pos] + before[pos + 1..] <==> i in before && i != before[pos]
  {
    var after := before[..pos] + before[pos + 1..];
    forall i: nat | i in before && i != before[pos] ensures i in after {
      var a :| 0 <= a < |before| && before[a] == i;
      assert if a < pos then after[a] == i else after[a - 1] == i;
    }
    forall i: nat | i in after ensures i in before && i != before[pos] {
      var a :| 0 <= a < |after| && after[a] == i;
      assert if a < pos then before[a] == i else before[a + 1] == i;
    }
  }

  lemma {:induction false} BeforeAgree(units: seq<Unit>, s: seq<nat>, t: seq<nat>, k: nat)
    requires k <= |s| && k <= |t| && forall j :: 0 <= j < k ==> s[j] == t[j]
    ensures Before(units, s, k) == Before(units, t, k)
  {
    if k > 0 { BeforeAgree(units, s, t, k - 1); }
  }

  lemma PrefixesAgree(units: seq<Unit>, s: seq<nat>, t: seq<nat>)
    requires |s| <= |t| && s == t[..|s|]
    ensures forall k :: 0 <= k <= |s| ==> Before(units, s, k) == Before(units, t, k)
  {
    forall k | 0 <= k <= |s| ensures Before(units, s, k) == Before(units, t, k) {
      BeforeAgree(units, s, t, k);
    }
  }

  lemma {:induction false} BeforeGrows(units: seq<Unit>, sel: seq<nat>, j: nat, k: nat)
    requires j <= k <= |sel|
    ensures Before(units, sel, j) <= Before(units, sel, k) && |Before(units, sel, j)| <= |Before(units, sel, k)|
  {
    if j < k { BeforeGrows(units, sel, j, k - 1); }
    SubsetSize(Before(units, sel, j), Before(units, sel, k));
  }

  lemma {:induction false} PickCovered(units: seq<Unit>, sel: seq<nat>, j: nat, k: nat)
    requires j < k <= |sel| && sel[j] < |units|
    ensures units[sel[j]].cov <= Before(units, sel, k)
  {
    if j < k - 1 { PickCovered(units, sel, j, k - 1); }
  }

  lemma {:induction false} CoveredByPick(units: seq<Unit>, sel: seq<nat>, k: nat, x: Region) returns (j: nat)
    requires k <= |sel| && x in Before(units, sel, k)
    ensures j < k && sel[j] < |units| && x in units[sel[j]].cov
  {
    if x in Before(units, sel, k - 1) {
      j := CoveredByPick(units, sel, k - 1, x);
    } else {
      j := k - 1;
    }
  }

  lemma SubsetSize<T>(a: set<T>, b: set<T>)
    requires a <= b
    ensures |a| <= |b|
  {
    assert |b| == |a| + |b - a| by { assert b == a + (b - a); }
  }

  /** A unit already picked adds nothing, so the best of the remaining units is the best of all. */
  lemma PickIsBest(units: seq<Unit>, sel: seq<nat>, remaining: seq<nat>, best: nat)
    requires Indices(units, sel) && Indices(units, remaining)
    requires forall i: nat :: i in remaining <==> i < |units| && i !in sel
    requires best in remaining && Adds(units[best], Covered(units, sel))
    requires forall q :: 0 <= q < |remaining| && Adds(units[remaining[q]], Covered(units, sel)) ==>
                         Beats(units, Covered(units, sel), best, remaining[q])
    ensures Best(units, Covered(units, sel), best)
  {
    forall j | 0 <= j < |units| && Adds(units[j], Covered(units, sel))
      ensures Beats(units, Covered(units, sel), best, j)
    {
      if j in sel {
        var k :| 0 <= k < |sel| && sel[k] == j;
        PickCovered(units, sel, k, |sel|);
      }
      var q :| 0 <= q < |remaining| && remaining[q] == j;
    }
  }

  lemma NothingLeft(units: seq<Unit>, sel: seq<nat>, remaining: seq<nat>)
    requires Indices(units, sel) && Indices(units, remaining)
    requires forall i: nat :: i < |units| ==> i in sel || i in remaining
    requires forall q :: 0 <= q < |remaining| ==> !Adds(units[remaining[q]], Covered(units, sel))
    ensures Exhausted(units, Covered(units, sel))
  {
    forall j | 0 <= j < |units| ensures !Adds(units[j], Covered(units, sel)) {
      if j in sel {
        var k :| 0 <= k < |sel| && sel[k] == j;
        PickCovered(units, sel, k, |sel|);
      } else {
        var q :| 0 <= q < |remaining| && remaining[q] == j;
      }
    }
  }

  // ------------------------------------------------- what the partition means

  lemma BestUnique(units: seq<Unit>, covered: set<Region>, i: nat, j: nat)
    requires Best(units, covered, i) && Best(units, covered, j)
    ensures i == j
  {
    assert Beats(units, covered, i, j) && Beats(units, covered, j, i);
  }

  /** The contract leaves no choice: the tiers are a function of the units and the ratio. */
  lemma SamePickNext(units: seq<Unit>, s: seq<nat>, t: seq<nat>, k: nat)
    requires Greedy(units, s) && Greedy(units, t) && k < |s| && k < |t|
    requires forall j :: 0 <= j < k ==> s[j] == t[j]
    ensures s[k] == t[k]
  {
    BeforeAgree(units, s, t, k);
    var c := Before(units, s, k);
    assert GoodPick(units, s, k) && GoodPick(units, t, k);
    BestUnique(units, c, s[k], t[k]);
  }

  lemma {:induction false} PicksUnique(units: seq<Unit>, s: seq<nat>, t: seq<nat>, k: nat)
    requires Greedy(units, s) && Greedy(units, t) && k <= |s| && k <= |t|
    ensures forall j :: 0 <= j < k ==> s[j] == t[j]
  {
    if k > 0 {
      PicksUnique(units, s, t, k - 1);
      SamePickNext(units, s, t, k - 1);
    }
  }

  lemma NextPickAdds(units: seq<Unit>, s: seq<nat>, t: seq<nat>)
    requires Greedy(units, s) && Greedy(units, t) && |s| < |t|
    ensures !Exhausted(units, Covered(units, s))
  {
    PicksUnique(units, s, t, |s|);
    PrefixesAgree(units, s, t);
    assert GoodPick(units, t, |s|);
  }

  lemma NoneAfterExhausted(units: seq<Unit>, s: seq<nat>, t: seq<nat>)
    requires Greedy(units, s) && Greedy(units, t) && Exhausted(units, Covered(units, s))
    ensures |t| <= |s|
  {
    if |s| < |t| { NextPickAdds(units, s, t); }
  }

  /** Behind the common first element. */
  lemma TailWithin(s: seq<nat>, t: seq<nat>, n: nat)
    requires Ascending(s) && s != [] && t != [] && s[0] == t[0] && n in s[1..] && n in t
    ensures n in t[1..]
  {
    var x :| 0 <= x < |s| - 1 && s[1..][x] == n;
    var y :| 0 <= y < |t| && t[y] == n;
    assert s[0] < s[x + 1];
    assert t[1..][y - 1] == n;
  }

  lemma SameFirst(s: seq<nat>, t: seq<nat>)
    requires Ascending(s) && Ascending(t) && s != [] && t != [] && s[0] in t && t[0] in s
    ensures s[0] == t[0]
  {
  }

  lemma {:induction false} AscendingUnique(s: seq<nat>, t: seq<nat>)
    requires Ascending(s) && Ascending(t) && forall i: nat :: i in s <==> i in t
    ensures s == t
  {
    assert (s != [] ==> s[0] in s) && (t != [] ==> t[0] in t);
    if s != [] && t != [] {
      SameFirst(s, t);
      forall i: nat ensures i in s[1..] <==> i in t[1..] {
        if i in s[1..] { TailWithin(s, t, i); }
        if i in t[1..] { TailWithin(t, s, i); }
      }
      AscendingUnique(s[1..], t[1..]);
      assert s == [s[0]] + s[1..] && t == [t[0]] + t[1..];
    }
  }

  /** The tier boundary is the first pick at which the target is already met. */
  lemma BoundaryUnique(units: seq<Unit>, sel: seq<nat>, target: int, a: nat, b: nat)
    requires a <= |sel| && b <= |sel|
    requires forall k :: 0 <= k < |sel| ==> (Short(units, sel, k, target) <==> k < a)
    requires forall k :: 0 <= k < |sel| ==> (Short(units, sel, k, target) <==> k < b)
    ensures a == b
  {
    assert a < b ==> Short(units, sel, a, target);
    assert b < a ==> Short(units, sel, b, target);
  }

  lemma SamePicks(units: seq<Unit>, s: seq<nat>, t: seq<nat>)
    requires Greedy(units, s) && Exhausted(units, Covered(units, s))
    requires Greedy(units, t) && Exhausted(units, Covered(units, t))
    ensures s == t
  {
    NoneAfterExhausted(units, s, t);
    NoneAfterExhausted(units, t, s);
    PicksUnique(units, s, t, |s|);
  }

  lemma TiersUnique(units: seq<Unit>, ratio: real, s: Tiers, t: Tiers)
    requires Partitioned(units, ratio, s) && Partitioned(units, ratio, t)
    ensures s == t
  {
    var p, q := Picked(s.core + s.corner), Picked(t.core + t.corner);
    SamePicks(units, p, q);
    BoundaryUnique(units, p, Target(units, ratio), |s.core|, |t.core|);
    ReportsUnique(units, p, s.core + s.corner, t.core + t.corner);
    SplitUnique(s.core, s.corner, t.core, t.corner);
    AscendingUnique(s.redundant, t.redundant);
  }

  lemma ReportsUnique(units: seq<Unit>, sel: seq<nat>, a: seq<Entry>, b: seq<Entry>)
    requires Reports(units, sel, a) && Reports(units, sel, b)
    ensures a == b
  {
    forall k | 0 <= k < |sel| ensures a[k] == b[k] {
      assert Report(units, sel, a, k) && Report(units, sel, b, k);
    }
  }

  lemma SplitUnique<T>(a: seq<T>, b: seq<T>, c: seq<T>, d: seq<T>)
    requires a + b == c + d && |a| == |c|
    ensures a == c && b == d
  {
    assert a == (a + b)[..|a|] && c == (c + d)[..|c|];
    assert b == (a + b)[|a|..] && d == (c + d)[|c|..];
  }

  /** No unit is picked twice: once picked it adds nothing. */
  lemma PicksDistinct(units: seq<Unit>, sel: seq<nat>)
    requires Greedy(units, sel)
    ensures forall a, b :: 0 <= a < b < |sel| ==> sel[a] != sel[b]
  {
    forall a, b | 0 <= a < b < |sel| ensures sel[a] != sel[b] {
      if sel[a] == sel[b] {
        assert GoodPick(units, sel, b);
        PickCovered(units, sel, a, b);
      }
    }
  }

  /** Every unit lands in exactly one tier, once. */
  lemma OneTierEach(units: seq<Unit>, ratio: real, t: Tiers, i: nat)
    requires Partitioned(units, ratio, t) && i < |units|
    ensures multiset(Picked(t.core))[i] + multiset(Picked(t.corner))[i] + multiset(t.redundant)[i] == 1
  {
    var sel: seq<nat> := Picked(t.core + t.corner);
    PicksDistinct(units, sel);
    assert sel == Picked(t.core) + Picked(t.corner);
    DistinctCount(sel, i);
    DistinctCount(t.redundant, i);
    assert multiset(sel)[i] == multiset(Picked(t.core))[i] + multiset(Picked(t.corner))[i];
  }

  lemma DistinctCount(s: seq<nat>, i: nat)
    requires forall a, b :: 0 <= a < b < |s| ==> s[a] != s[b]
    ensures multiset(s)[i] == if i in s then 1 else 0
  {
    if s != [] {
      var n := |s| - 1;
      DistinctCount(s[..n], i);
      assert s == s[..n] + [s[n]];
    }
  }

  ghost function FreshTotal(entries: seq<Entry>): nat {
    if entries == [] then 0 else FreshTotal(entries[..|entries| - 1]) + entries[|entries| - 1].added
  }

  lemma {:induction false} FreshAddsUp(units: seq<Unit>, sel: seq<nat>, entries: seq<Entry>)
    requires Reports(units, sel, entries)
    ensures FreshTotal(entries) == |Covered(units, sel)|
  {
    if sel != [] {
      var n := |sel| - 1;
      var before, earlier := sel[..n], entries[..n];
      PrefixesAgree(units, before, sel);
      forall k | 0 <= k < n ensures Report(units, before, earlier, k) {
        assert Report(units, sel, entries, k);
      }
      FreshAddsUp(units, before, earlier);
      assert Report(units, sel, entries, n);
      AddFresh(Covered(units, before), units[sel[n]]);
    }
  }

  lemma AddFresh(covered: set<Region>, u: Unit)
    ensures |covered + u.cov| == |covered| + Fresh(u, covered)
  {
    assert covered + u.cov == covered + (u.cov - covered);
  }

  lemma ExhaustedIsAll(units: seq<Unit>, sel: seq<nat>)
    requires Exhausted(units, Covered(units, sel))
    ensures Covered(units, sel) == Universe(units)
    ensures forall j :: 0 <= j < |units| ==> units[j].cov <= Covered(units, sel)
  {
    forall j | 0 <= j < |units| ensures units[j].cov <= Covered(units, sel) {
      assert !Adds(units[j], Covered(units, sel));
    }
    forall x | x in Covered(units, sel) ensures x in Universe(units) {
      var j := CoveredByPick(units, sel, |sel|, x);
    }
  }

  /** Core and corner together lose no region, count every region once, and make the rest redundant. */
  lemma NothingLost(units: seq<Unit>, ratio: real, t: Tiers)
    requires Partitioned(units, ratio, t)
    ensures Covered(units, Picked(t.core + t.corner)) == Universe(units)
    ensures FreshTotal(t.core + t.corner) == |Universe(units)|
    ensures forall i :: i in t.redundant ==> i < |units| && units[i].cov <= Covered(units, Picked(t.core + t.corner))
  {
    ExhaustedIsAll(units, Picked(t.core + t.corner));
    FreshAddsUp(units, Picked(t.core + t.corner), t.core + t.corner);
  }

  lemma TargetWithin(units: seq<Unit>, ratio: real)
    requires ratio <= 1.0
    ensures Target(units, ratio) <= |Universe(units)|
  {
    TruncWithin(|Universe(units)|, ratio);
  }

  lemma TruncWithin(n: nat, ratio: real)
    requires ratio <= 1.0
    ensures Trunc(n as real * ratio) <= n
  {
    var r := n as real;
    assert r * ratio <= r * 1.0;
  }

  /** Core is a prefix of the picks that stays below the target until its last unit, and it
      reaches the target exactly when the target does not exceed the universe. */
  lemma CoreShortest(units: seq<Unit>, ratio: real, t: Tiers)
    requires Partitioned(units, ratio, t)
    ensures forall k :: 0 <= k < |t.core| ==> Short(units, Picked(t.core), k, Target(units, ratio))
    ensures |Covered(units, Picked(t.core))| >= Target(units, ratio) <==> Target(units, ratio) <= |Universe(units)|
    ensures ratio <= 1.0 ==> Target(units, ratio) <= |Universe(units)|
  {
    var sel, target := Picked(t.core + t.corner), Target(units, ratio);
    PrefixesAgree(units, Picked(t.core), sel);
    forall k | 0 <= k < |t.core| ensures Short(units, Picked(t.core), k, target) {
      assert Short(units, sel, k, target);
    }
    ExhaustedIsAll(units, Picked(t.core + t.corner));
    Boundary(units, Picked(t.core + t.corner), |t.core|, Target(units, ratio));
    if ratio <= 1.0 { TargetWithin(units, ratio); }
  }

  lemma Boundary(units: seq<Unit>, sel: seq<nat>, c: nat, target: int)
    requires c <= |sel|
    requires forall k :: 0 <= k < |sel| ==> (Short(units, sel, k, target) <==> k < c)
    ensures |Before(units, sel, c)| >= target <==> target <= |Covered(units, sel)|
  {
    BeforeGrows(units, sel, c, |sel|);
    assert c < |sel| ==> !Short(units, sel, c, target);
  }

  // ---------------------------------------------------- the harmonic cost bound

  function Harmonic(n: nat): real {
    if n == 0 then 0.0 else Harmonic(n - 1) + 1.0 / n as real
  }

  /** Terms 1, 1/2, 1/3 and so on. */
  lemma HarmonicIs(n: nat)
    ensures Harmonic(0) == 0.0 && Harmonic(1) == 1.0 && Harmonic(2) == 1.5
    ensures (Harmonic(n + 1) - Harmonic(n)) * (n + 1) as real == 1.0
  {
    var q := 1.0 / (n + 1) as real;
    assert q * (n + 1) as real == 1.0;
  }

  /** The price of `n` regions bought at `price` each. */
  ghost function Bill(price: real, n: nat): real {
    if n == 0 then 0.0 else Bill(price, n - 1) + price
  }

  lemma {:induction false} BillIsProduct(price: real, n: nat)
    ensures Bill(price, n) == price * n as real
  {
    if n > 0 { BillIsProduct(price, n - 1); }
  }

  lemma {:induction false} BillAdds(price: real, a: nat, b: nat)
    ensures Bill(price, a + b) == Bill(price, a) + Bill(price, b)
  {
    if b > 0 { BillAdds(price, a, b - 1); }
  }

  lemma {:induction false} BillGrows(price: real, a: nat, b: nat)
    requires a <= b && price >= 0.0
    ensures Bill(price, a) <= Bill(price, b)
  {
    if a < b { BillGrows(price, a, b - 1); }
  }

  ghost function TotalCost(us: seq<Unit>): real {
    if us == [] then 0.0 else Cost(us[0]) + TotalCost(us[1..])
  }

  /** The units that `sel` lists. */
  ghost function Chosen(units: seq<Unit>, sel: seq<nat>): seq<Unit>
    requires Indices(units, sel)
  {
    seq(|sel|, k requires 0 <= k < |sel| => units[sel[k]])
  }

  /** What the family still has to pay when each unit pays harmonically for its uncovered regions. */
  ghost function Potential(fam: seq<Unit>, covered: set<Region>): real {
    if fam == [] then 0.0
    else Share(fam[0], covered) + Potential(fam[1..], covered)
  }

  /** How often the family's units meet the regions of `s`. */
  ghost function Hits(fam: seq<Unit>, s: set<Region>): nat {
    if fam == [] then 0 else |fam[0].cov * s| + Hits(fam[1..], s)
  }

  /** Paying at most c/j for the j-th uncovered region costs at most c * (H(a) - H(b)) from a down to b. */
  lemma {:induction false} HarmonicPays(price: real, c: real, a: nat, b: nat)
    requires b <= a && price >= 0.0 && Bill(price, a) <= c
    ensures Bill(price, a - b) <= c * Harmonic(a) - c * Harmonic(b)
  {
    if b < a {
      HarmonicPays(price, c, a - 1, b);
      BillIsProduct(price, a);
      DivideOut(price, c, a);
      Distribute(c, Harmonic(a - 1), 1.0 / a as real);
    }
  }

  lemma DivideOut(price: real, c: real, a: nat)
    requires a > 0 && price * a as real <= c
    ensures price <= c * (1.0 / a as real)
  {
    var q := 1.0 / a as real;
    assert q * a as real == 1.0;
    assert (c - price * a as real) * q >= 0.0;
    assert price * a as real * q == price * (a as real * q);
  }

  /** A covering family meets each region of `part` at least once. */
  lemma {:induction false} HitsCover(fam: seq<Unit>, s: set<Region>, part: set<Region>)
    requires part <= s && part <= Universe(fam)
    ensures |part| <= Hits(fam, s)
  {
    if fam == [] {
      assert part == {};
    } else {
      var rest := part - fam[0].cov;
      forall x | x in rest ensures x in Universe(fam[1..]) {
        var k :| 0 <= k < |fam| && x in fam[k].cov;
        assert fam[1..][k - 1] == fam[k];
      }
      HitsCover(fam[1..], s, rest);
      assert part == rest + part * fam[0].cov;
      SubsetSize(part * fam[0].cov, fam[0].cov * s);
    }
  }

  /** The price of one newly covered region is at most what any other unit would charge for it. */
  lemma PriceAtMost(units: seq<Unit>, covered: set<Region>, i: nat, f: nat)
    requires Best(units, covered, i) && f < |units| && Adds(units[f], covered)
    ensures Fresh(units[i], covered) > 0
    ensures Affords(units[f], covered, Cost(units[i]) / Fresh(units[i], covered) as real)
  {
    var ci, cf := Cost(units[i]), Cost(units[f]);
    var ni, nf := Fresh(units[i], covered) as real, Fresh(units[f], covered) as real;
    AddsIffFresh(units[i], covered);
    AddsIffFresh(units[f], covered);
    assert Beats(units, covered, i, f);
    assert ni / ci >= nf / cf;
    CrossMultiply(ni, ci, nf, cf);
    BillIsProduct(ci / ni, Fresh(units[f], covered));
  }

  lemma CrossMultiply(ni: real, ci: real, nf: real, cf: real)
    requires ni > 0.0 && ci > 0.0 && nf > 0.0 && cf > 0.0 && ni / ci >= nf / cf
    ensures ci / ni * nf <= cf
  {
    var s := nf / cf;
    var t := ni / ci;
    assert nf == s * cf && ni == t * ci;
    assert ni * cf >= nf * ci by {
      assert t * (ci * cf) >= s * (ci * cf);
      assert ni * cf == t * (ci * cf) && nf * ci == s * (ci * cf);
    }
    var p := ci / ni;
    assert p * ni == ci;
    assert (p * nf) * ni == ci * nf;
    assert (p * nf) * ni <= cf * ni;
  }

  ghost predicate Affords(u: Unit, covered: set<Region>, price: real) {
    Bill(price, Fresh(u, covered)) <= Cost(u)
  }

  /** No unit asks less than `price` for each region it could still add. */
  ghost predicate Fair(units: seq<Unit>, covered: set<Region>, price: real) {
    price >= 0.0 && forall f :: 0 <= f < |units| ==> Affords(units[f], covered, price)
  }

  lemma BestIsFair(units: seq<Unit>, covered: set<Region>, i: nat)
    requires Best(units, covered, i)
    ensures Fresh(units[i], covered) > 0
    ensures Fair(units, covered, Cost(units[i]) / Fresh(units[i], covered) as real)
  {
    AddsIffFresh(units[i], covered);
    var price := Cost(units[i]) / Fresh(units[i], covered) as real;
    forall f | 0 <= f < |units| ensures Affords(units[f], covered, price) {
      AddsIffFresh(units[f], covered);
      if Adds(units[f], covered) {
        PriceAtMost(units, covered, i, f);
      }
    }
  }

  /** The harmonic price of a unit's uncovered regions. */
  ghost function Share(u: Unit, covered: set<Region>): real {
    Cost(u) * Harmonic(Fresh(u, covered))
  }

  /** The unit's share falls by at least what the regions it gets from `more` cost at `price`. */
  ghost predicate Paid(u: Unit, covered: set<Region>, more: set<Region>, price: real) {
    Bill(price, |u.cov * (more - covered)|) <= Share(u, covered) - Share(u, covered + more)
  }

  /** What one unit of the family pays when the regions of `s` are bought at `price`. */
  lemma UnitPays(u: Unit, covered: set<Region>, more: set<Region>, price: real)
    requires price >= 0.0 && Affords(u, covered, price)
    ensures Paid(u, covered, more, price)
  {
    var s := more - covered;
    var a, b := Fresh(u, covered), Fresh(u, covered + more);
    assert u.cov - covered == (u.cov - (covered + more)) + u.cov * s;
    assert a == b + |u.cov * s|;
    HarmonicPays(price, Cost(u), a, b);
  }

  lemma Distribute(c: real, x: real, y: real)
    ensures c * (x - y) == c * x - c * y && c * (x + y) == c * x + c * y
  {
  }

  lemma {:induction false} FamilyPays(fam: seq<Unit>, covered: set<Region>, more: set<Region>, price: real)
    requires forall f :: f in fam ==> Paid(f, covered, more, price)
    ensures Bill(price, Hits(fam, more - covered)) <= Potential(fam, covered) - Potential(fam, covered + more)
  {
    if fam != [] {
      FamilyPays(fam[1..], covered, more, price);
      assert Paid(fam[0], covered, more, price);
      hide Bill, Share, Fresh;
      BillAdds(price, |fam[0].cov * (more - covered)|, Hits(fam[1..], more - covered));
    }
  }

  lemma PriceTimes(c: real, n: real)
    requires n > 0.0 && c >= 0.0
    ensures (c / n) * n == c && c / n >= 0.0
  {
  }

  lemma PickPays(units: seq<Unit>, covered: set<Region>, i: nat, fam: seq<Unit>, price: real)
    requires Best(units, covered, i) && forall f :: f in fam ==> f in units
    requires Fresh(units[i], covered) > 0
    requires price == Cost(units[i]) / Fresh(units[i], covered) as real
    ensures Bill(price, Hits(fam, units[i].cov - covered)) <= Potential(fam, covered) - Potential(fam, covered + units[i].cov)
  {
    BestIsFair(units, covered, i);
    forall f | f in fam ensures Paid(f, covered, units[i].cov, price) {
      var k :| 0 <= k < |units| && units[k] == f;
      UnitPays(units[k], covered, units[i].cov, price);
    }
    FamilyPays(fam, covered, units[i].cov, price);
  }

  lemma InUniverse(units: seq<Unit>, i: nat)
    requires i < |units|
    ensures units[i].cov <= Universe(units)
  {
  }

  lemma PriceBill(c: real, n: nat)
    requires n > 0 && c >= 0.0
    ensures c / n as real >= 0.0 && Bill(c / n as real, n) == c
  {
    PriceTimes(c, n as real);
    BillIsProduct(c / n as real, n);
  }

  /** One greedy pick costs no more than the potential it removes from a covering family. */
  lemma PickCost(units: seq<Unit>, covered: set<Region>, i: nat, fam: seq<Unit>)
    requires Best(units, covered, i)
    requires Universe(units) <= Universe(fam) && forall f :: f in fam ==> f in units
    ensures Cost(units[i]) <= Potential(fam, covered) - Potential(fam, covered + units[i].cov)
  {
    BestIsFair(units, covered, i);
    InUniverse(units, i);
    var s, price := units[i].cov - covered, Cost(units[i]) / Fresh(units[i], covered) as real;
    PriceBill(Cost(units[i]), Fresh(units[i], covered));
    PickPays(units, covered, i, fam, price);
    HitsCover(fam, s, s);
    BillGrows(price, |s|, Hits(fam, s));
  }

  lemma {:induction false} PotentialNonNegative(fam: seq<Unit>, covered: set<Region>)
    ensures Potential(fam, covered) >= 0.0
  {
    if fam != [] {
      PotentialNonNegative(fam[1..], covered);
      HarmonicMonotone(0, Fresh(fam[0], covered));
      assert Cost(fam[0]) * Harmonic(Fresh(fam[0], covered)) >= 0.0;
    }
  }

  lemma {:induction false} HarmonicMonotone(a: nat, b: nat)
    requires a <= b
    ensures Harmonic(a) <= Harmonic(b)
  {
    if a < b { HarmonicMonotone(a, b - 1); }
  }

  lemma {:induction false} RemainingCost(units: seq<Unit>, sel: seq<nat>, k: nat, fam: seq<Unit>)
    requires Greedy(units, sel) && Indices(units, sel) && k <= |sel|
    requires Universe(units) <= Universe(fam) && forall f :: f in fam ==> f in units
    ensures TotalCost(Chosen(units, sel)[k..]) <= Potential(fam, Before(units, sel, k))
    decreases |sel| - k
  {
    if k == |sel| {
      PotentialNonNegative(fam, Before(units, sel, k));
    } else {
      RemainingCost(units, sel, k + 1, fam);
      assert GoodPick(units, sel, k);
      PickCost(units, Before(units, sel, k), sel[k], fam);
      assert Chosen(units, sel)[k..][1..] == Chosen(units, sel)[k + 1..];
    }
  }

  lemma Scaled(c: real, x: real, y: real)
    requires c >= 0.0 && x <= y
    ensures c * x <= c * y
  {
  }

  lemma ShareAtStart(u: Unit, d: nat)
    requires |u.cov| <= d
    ensures Share(u, {}) <= Harmonic(d) * Cost(u)
  {
    assert u.cov - {} == u.cov;
    HarmonicMonotone(|u.cov|, d);
    hide Harmonic;
    Scaled(Cost(u), Harmonic(|u.cov|), Harmonic(d));
  }

  lemma AddUp(a: real, b: real, h: real, c: real, t: real)
    requires a <= h * c && b <= h * t
    ensures a + b <= h * (c + t)
  {
    Distribute(h, c, t);
  }

  lemma {:induction false} PotentialAtStart(fam: seq<Unit>, d: nat)
    requires forall f :: f in fam ==> |f.cov| <= d
    ensures Potential(fam, {}) <= Harmonic(d) * TotalCost(fam)
  {
    hide Harmonic, Cost, Share;
    if fam == [] {
      assert Harmonic(d) * 0.0 == 0.0;
    } else {
      PotentialAtStart(fam[1..], d);
      ShareAtStart(fam[0], d);
      AddUp(Share(fam[0], {}), Potential(fam[1..], {}), Harmonic(d), Cost(fam[0]), TotalCost(fam[1..]));
    }
  }

  lemma GreedyIndices(units: seq<Unit>, sel: seq<nat>)
    requires Greedy(units, sel)
    ensures Indices(units, sel)
  {
    forall k | 0 <= k < |sel| ensures sel[k] < |units| { assert GoodPick(units, sel, k); }
  }

  /** Chvatal's bound: when no unit covers more than `d` regions, core plus corner cost at most
      1 + 1/2 + ... + 1/d times any family of the units that covers everything. */
  lemma HarmonicBound(units: seq<Unit>, ratio: real, t: Tiers, fam: seq<Unit>, d: nat)
    requires Partitioned(units, ratio, t)
    requires forall u :: u in units ==> |u.cov| <= d
    requires Universe(units) <= Universe(fam) && forall f :: f in fam ==> f in units
    ensures var sel := Picked(t.core + t.corner);
            Indices(units, sel) && TotalCost(Chosen(units, sel)) <= Harmonic(d) * TotalCost(fam)
  {
    var sel := Picked(t.core + t.corner);
    GreedyIndices(units, sel);
    RemainingCost(units, sel, 0, fam);
    assert Chosen(units, sel)[0..] == Chosen(units, sel);
    PotentialAtStart(fam, d);
  }

  // ---------------------------------------------------- what costs and targets are

  /** A unit costs its running time, but at least 0.005. */
  lemma CostMeans(u: Unit)
    ensures Cost(u) >= u.elapsed && Cost(u) >= 0.005
    ensures Cost(u) == u.elapsed || Cost(u) == 0.005
    ensures u.elapsed >= 0.005 ==> Cost(u) == u.elapsed
  {
  }

  /** Running times added up. */
  ghost function Times(us: seq<Unit>): real {
    if us == [] then 0.0 else us[0].elapsed + Times(us[1..])
  }

  /** The same, with each time taken for at least `least`. */
  ghost function TimesFrom(us: seq<Unit>, least: real): real {
    if us == [] then 0.0 else (if us[0].elapsed > least then us[0].elapsed else least) + TimesFrom(us[1..], least)
  }

  lemma {:induction false} CostsAreTimes(us: seq<Unit>)
    ensures TotalCost(us) == TimesFrom(us, 0.005)
    ensures (forall u :: u in us ==> u.elapsed >= 0.005) ==> TotalCost(us) == Times(us)
  {
    if us != [] {
      CostsAreTimes(us[1..]);
      CostMeans(us[0]);
      assert forall u :: u in us[1..] ==> u in us;
      assert us[0] in us;
    }
  }

  /** In running times: core plus corner take at most 1 + 1/2 + ... + 1/d times as long as any
      family of the units that covers everything, each unit counted for at least 0.005, and
      exactly as measured if none is shorter. */
  lemma HarmonicTimeBound(units: seq<Unit>, ratio: real, t: Tiers, fam: seq<Unit>, d: nat)
    requires Partitioned(units, ratio, t)
    requires forall u :: u in units ==> |u.cov| <= d
    requires Universe(units) <= Universe(fam) && forall f :: f in fam ==> f in units
    ensures var sel := Picked(t.core + t.corner);
      && Indices(units, sel)
      && TimesFrom(Chosen(units, sel), 0.005) <= Harmonic(d) * TimesFrom(fam, 0.005)
      && ((forall u :: u in units ==> u.elapsed >= 0.005) ==> Times(Chosen(units, sel)) <= Harmonic(d) * Times(fam))
  {
    hide Harmonic, Partitioned, Universe, TotalCost, Times, TimesFrom, Cost;
    var sel := Picked(t.core + t.corner);
    HarmonicBound(units, ratio, t, fam, d);
    CostsAreTimes(Chosen(units, sel));
    CostsAreTimes(fam);
    if forall u :: u in units ==> u.elapsed >= 0.005 {
      forall u | u in Chosen(units, sel) ensures u in units {
        var k :| 0 <= k < |sel| && Chosen(units, sel)[k] == u;
      }
    }
  }

  /** More new regions per second, compared without division; at the same rate more new regions,
      and of those the earliest. */
  lemma BestRate(units: seq<Unit>, covered: set<Region>, i: nat, j: nat)
    requires Best(units, covered, i) && j < |units|
    ensures var a, b := units[i], units[j];
      var ta, tb := if a.elapsed > 0.005 then a.elapsed else 0.005, if b.elapsed > 0.005 then b.elapsed else 0.005;
      && |b.cov - covered| as real * ta <= |a.cov - covered| as real * tb
      && (Adds(b, covered) && |b.cov - covered| as real * ta == |a.cov - covered| as real * tb ==>
            |b.cov - covered| < |a.cov - covered| || (|b.cov - covered| == |a.cov - covered| && i <= j))
  {
    var a, b := units[i], units[j];
    CostMeans(a);
    CostMeans(b);
    AddsIffFresh(a, covered);
    AddsIffFresh(b, covered);
    if Adds(b, covered) {
      assert Beats(units, covered, i, j);
      RatesCompared(Fresh(b, covered) as real, Cost(b), Fresh(a, covered) as real, Cost(a));
      if Fresh(b, covered) as real * Cost(a) == Fresh(a, covered) as real * Cost(b) {
        SameRate(Fresh(b, covered) as real, Cost(b), Fresh(a, covered) as real, Cost(a));
      }
    } else {
      Positive(Fresh(a, covered) as real, Cost(b));
    }
  }

  lemma RatesCompared(n: real, c: real, m: real, e: real)
    requires c > 0.0 && e > 0.0 && n / c <= m / e
    ensures n * e <= m * c
  {
    var p, q := n / c, m / e;
    assert n == p * c && m == q * e;
    Positive(q - p, c * e);
    assert (q - p) * (c * e) == m * c - n * e;
  }

  lemma SameRate(n: real, c: real, m: real, e: real)
    requires c > 0.0 && e > 0.0 && n * e == m * c
    ensures n / c == m / e
  {
    var p, q := n / c, m / e;
    assert n == p * c && m == q * e;
    assert (p - q) * (c * e) == n * e - m * c;
    if p < q { Product(q - p, c, e); }
    if q < p { Product(p - q, c, e); }
  }

  lemma Product(x: real, y: real, z: real)
    requires x > 0.0 && y > 0.0 && z > 0.0
    ensures x * (y * z) > 0.0
  {
    assert y * z > 0.0;
  }

  lemma Positive(x: real, y: real)
    requires x >= 0.0 && y >= 0.0
    ensures x * y >= 0.0
  {
  }

  /** The target is the wanted number of regions without its fraction, towards zero. */
  lemma TargetMeans(units: seq<Unit>, ratio: real)
    ensures var wanted := |Universe(units)| as real * ratio;
      var target := Target(units, ratio) as real;
      if wanted >= 0.0 then target <= wanted < target + 1.0 else target - 1.0 < wanted <= target
  {
  }

  /** An entry tells how many regions its unit has, how many of them are new, and how many are
      covered with it: those before it and the new ones, in the end all of them. */
  lemma EntriesMean(units: seq<Unit>, ratio: real, t: Tiers, k: nat)
    requires Partitioned(units, ratio, t) && k < |t.core + t.corner|
    ensures var entries := t.core + t.corner;
      && entries[k].unit < |units| && entries[k].total == |units[entries[k].unit].cov|
      && entries[k].cumulative == entries[k].added + (if k == 0 then 0 else entries[k - 1].cumulative)
      && (k == |entries| - 1 ==> entries[k].cumulative == |Universe(units)|)
  {
    var entries := t.core + t.corner;
    var sel := Picked(entries);
    assert Report(units, sel, entries, k);
    if k > 0 { assert Report(units, sel, entries, k - 1); }
    var u, covered := units[sel[k]], Before(units, sel, k);
    assert covered + u.cov == covered + (u.cov - covered) && covered !! (u.cov - covered);
    if k == |entries| - 1 { ExhaustedIsAll(units, sel); }
  }
}
