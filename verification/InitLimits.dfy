/** Where initializers that are left out are not kept apart from those that run again, running
    only the latter is not enough: a simulator in which everything is a sum tells the two runs
    apart. So the condition is exact. */
module InitLimits {
  import opened Results
  import opened StaticInit
  import opened InitRuns

  /** The two runs agree, whatever the operators, functions and values are, as long as the
      folded values are right. */
  ghost predicate AlwaysAgrees(names: Names, ds: seq<Decl>, r: set<string>) {
    forall sem: Semantics, initial: Store, elaborated: Store, w0: int, w: int ::
      sem.names == names && FoldedRight(sem, ds, r, elaborated, w0)
      && SameBut(initial, elaborated, KeysFrom(ds, 0)) ==>
      Run(sem, ds, initial, w) == Run(sem, Emitted(ds, r), elaborated, w)
  }

  // ---------------------------------------------------------------- the summing simulators

  function Sum(vs: seq<int>): int {
    if vs == [] then 0 else vs[0] + Sum(vs[1..])
  }

  /** What a summing simulator lets through: the variables that count the assignments made to
      them as operands, those that count the ones made by subroutines, and the one variable
      that subroutines read. */
  datatype Probe = Probe(outs: set<Path>, sets: set<Path>, seen: Option<Path>)

  /** Everything is the sum of what it is made of, a subroutine call being one with the
      simulation state and with the variable it reads. */
  function Summing(names: Names, x: Probe): Semantics {
    Semantics(names,
      (rooted: bool, path: Path, v: int, vs: seq<int>) => v + Sum(vs),
      (op: string, vs: seq<int>) => Sum(vs),
      (op: string, v: int) => None,
      (v: int) => None,
      (name: string, vs: seq<int>, w: int) => (Sum(vs), w),
      (name: string, vs: seq<int>, s: Store, w: int) => (Sum(vs) + w + Heard(x, s), w),
      (name: string, vs: seq<int>, w: int, p: Path, v: int) => if p in x.outs then Some(v + 1) else None,
      (name: string, vs: seq<int>, s: Store, w: int, p: Path, v: int) => if p in x.sets then Some(v + 1) else None)
  }

  function Heard(x: Probe, s: Store): int {
    if x.seen.Some? then Look(s, x.seen.value) else 0
  }

  /** How often evaluating `e` adds one to `p`. */
  function Count(names: Names, x: Probe, e: Expr, p: Path): nat
    decreases e, |Parts(e)| + 1
  {
    CountFrom(names, x, e, 0, p) + Own(names, x, e, p)
  }

  function CountFrom(names: Names, x: Probe, e: Expr, k: nat, p: Path): nat
    requires k <= |Parts(e)|
    decreases e, |Parts(e)| - k
  {
    if k == |Parts(e)| then 0 else Count(names, x, Parts(e)[k], p) + CountFrom(names, x, e, k + 1, p)
  }

  function Own(names: Names, x: Probe, e: Expr, p: Path): nat {
    (if p in x.outs && p in Outs(names, e) then 1 else 0)
    + if e.Call? && p in x.sets && p in names.sets(e.name) then 1 else 0
  }


  lemma SumFirst(a: int, vs: seq<int>)
    ensures Sum([a] + vs) == a + Sum(vs)
  {
    assert ([a] + vs)[1..] == vs;
  }

  lemma PutNothing(s: Store, f: (Path, int) -> Option<int>)
    ensures Put(s, {}, f) == s
  {
  }

  /** In a summing simulator operands are always evaluated, and finishing is what remains. */
  lemma SummingEval(names: Names, x: Probe, e: Expr, s: Store, w: int)
    requires !e.Literal?
    ensures Eval(Summing(names, x), e, s, w) == Finish(Summing(names, x), e, EvalFrom(Summing(names, x), e, 0, s, w))
  {
    var sem := Summing(names, x);
    var vs := EvalFrom(sem, e, 0, s, w);
    if e.Binary? || e.Conditional? {
      var f := (p, was) => sem.out(Tag(e), vs.list, Heeded(e, vs.world), p, was);
      PutNothing(vs.store, f);
      assert Stored(sem, e, vs) == vs.store;
    }
    if e.Binary? {
      assert Parts(e) == [e.left, e.right];
      var a := Eval(sem, e.left, s, w);
      var b := Eval(sem, e.right, a.store, a.world);
      assert EvalFrom(sem, e, 2, b.store, b.world) == Values([], b.store, b.world);
      assert EvalFrom(sem, e, 1, a.store, a.world) == Values([b.value] + [], b.store, b.world);
      assert vs.list == [a.value, b.value];
    } else if e.Conditional? {
      assert Parts(e) == [e.condition, e.thenExpr, e.elseExpr];
      var a := Eval(sem, e.condition, s, w);
      var b := Eval(sem, e.thenExpr, a.store, a.world);
      var c := Eval(sem, e.elseExpr, b.store, b.world);
      assert EvalFrom(sem, e, 3, c.store, c.world) == Values([], c.store, c.world);
      assert EvalFrom(sem, e, 2, b.store, b.world) == Values([c.value] + [], c.store, c.world);
      assert EvalFrom(sem, e, 1, a.store, a.world) == Values([b.value, c.value], c.store, c.world);
      assert vs.list == [a.value, b.value, c.value];
    }
  }

  lemma PutCounts(s: Store, ps: set<Path>, qs: set<Path>, f: (Path, int) -> Option<int>, p: Path)
    requires forall q, v :: f(q, v) == if q in qs then Some(v + 1) else None
    ensures Look(Put(s, ps, f), p) == Look(s, p) + if p in ps && p in qs then 1 else 0
  {
  }

  lemma FinishCounts(names: Names, x: Probe, e: Expr, vs: Values, p: Path)
    ensures Look(Finish(Summing(names, x), e, vs).store, p) == Look(vs.store, p) + Own(names, x, e, p)
    ensures Finish(Summing(names, x), e, vs).world == vs.world
  {
    hide Put, Outs;
    var sem := Summing(names, x);
    var f := (q, was) => sem.out(Tag(e), vs.list, Heeded(e, vs.world), q, was);
    PutCounts(vs.store, Outs(names, e), x.outs, f, p);
    if e.Call? {
      var seen := Restrict(vs.store, names.seen(e.name));
      var g := (q, was) => sem.body(e.name, vs.list, seen, vs.world, q, was);
      PutCounts(Put(vs.store, Outs(names, e), f), names.sets(e.name), x.sets, g, p);
    }
  }

  /** Evaluation adds `Count` to each variable, and leaves the simulation state. */
  lemma {:induction false} SummingCounts(names: Names, x: Probe, e: Expr, s: Store, w: int, p: Path)
    ensures var o := Eval(Summing(names, x), e, s, w);
      Look(o.store, p) == Look(s, p) + Count(names, x, e, p) && o.world == w
    decreases e, |Parts(e)| + 1
  {
    if !e.Literal? {
      hide Finish, Summing, Eval, EvalFrom;
      SummingEval(names, x, e, s, w);
      SummingCountsFrom(names, x, e, 0, s, w, p);
      FinishCounts(names, x, e, EvalFrom(Summing(names, x), e, 0, s, w), p);
    }
  }

  lemma {:induction false} SummingCountsFrom(names: Names, x: Probe, e: Expr, k: nat, s: Store, w: int, p: Path)
    requires k <= |Parts(e)|
    ensures var vs := EvalFrom(Summing(names, x), e, k, s, w);
      Look(vs.store, p) == Look(s, p) + CountFrom(names, x, e, k, p) && vs.world == w
    decreases e, |Parts(e)| - k
  {
    hide Summing;
    if k < |Parts(e)| {
      var o := Eval(Summing(names, x), Parts(e)[k], s, w);
      SummingCounts(names, x, Parts(e)[k], s, w, p);
      SummingCountsFrom(names, x, e, k + 1, o.store, o.world, p);
    }
  }

  /** `p` is written by `e` exactly when it is counted, if the probe counts all its assignments. */
  lemma {:induction false} CountedWrites(names: Names, p: Path, seen: Option<Path>, e: Expr)
    ensures Count(names, Probe({p}, {p}, seen), e, p) > 0 <==> p in Writes(names, e)
    decreases e, |Parts(e)| + 1
  {
    hide Outs;
    CountedWritesFrom(names, p, seen, e, 0);
  }

  lemma {:induction false} CountedWritesFrom(names: Names, p: Path, seen: Option<Path>, e: Expr, k: nat)
    requires k <= |Parts(e)|
    ensures CountFrom(names, Probe({p}, {p}, seen), e, k, p) > 0 <==> exists j :: k <= j < |Parts(e)| && p in Writes(names, Parts(e)[j])
    decreases e, |Parts(e)| - k
  {
    hide Writes;
    if k < |Parts(e)| {
      CountedWrites(names, p, seen, Parts(e)[k]);
      CountedWritesFrom(names, p, seen, e, k + 1);
    }
  }

  /** What `e` writes and does not mention is written by a subroutine. */
  lemma {:induction false} CountedBodies(names: Names, p: Path, e: Expr)
    requires p in Writes(names, e) && p !in Mentions(names, e)
    ensures Count(names, Probe({}, {p}, None), e, p) > 0
  {
    hide Outs, Writes, Mentions, CountFrom;
    if !(e.Call? && p in names.sets(e.name)) {
      var k := WrittenPart(names, e, p);
      CountedBodies(names, p, Parts(e)[k]);
      CountPart(names, Probe({}, {p}, None), e, 0, k, p);
    }
  }

  lemma WrittenPart(names: Names, e: Expr, p: Path) returns (k: nat)
    requires p in Writes(names, e) && p !in Mentions(names, e) && !(e.Call? && p in names.sets(e.name))
    ensures k < |Parts(e)| && p in Writes(names, Parts(e)[k]) && p !in Mentions(names, Parts(e)[k])
  {
    OutsMentioned(names, e);
    k :| 0 <= k < |Parts(e)| && p in Writes(names, Parts(e)[k]);
  }

  lemma {:induction false} CountPart(names: Names, x: Probe, e: Expr, i: nat, k: nat, p: Path)
    requires i <= k < |Parts(e)|
    ensures CountFrom(names, x, e, i, p) >= Count(names, x, Parts(e)[k], p)
    decreases k - i
  {
    if i < k { CountPart(names, x, e, i + 1, k, p); }
  }

  lemma {:induction false} Uncounted(names: Names, x: Probe, e: Expr, p: Path)
    requires p !in x.outs && (p !in x.sets || !HasCall(e))
    ensures Count(names, x, e, p) == 0
    decreases e, |Parts(e)| + 1
  {
    UncountedFrom(names, x, e, 0, p);
  }

  lemma {:induction false} UncountedFrom(names: Names, x: Probe, e: Expr, k: nat, p: Path)
    requires k <= |Parts(e)| && p !in x.outs
    requires p !in x.sets || forall j :: 0 <= j < |Parts(e)| ==> !HasCall(Parts(e)[j])
    ensures CountFrom(names, x, e, k, p) == 0
    decreases e, |Parts(e)| - k
  {
    if k < |Parts(e)| {
      Uncounted(names, x, Parts(e)[k], p);
      UncountedFrom(names, x, e, k + 1, p);
    }
  }

  /** The variables in `ps` are no larger in `s` than in `t`. */
  ghost predicate Below(s: Store, t: Store, ps: set<Path>) {
    forall p :: p in ps ==> Look(s, p) <= Look(t, p)
  }

  /** Evaluating `e` may look at no other variables than `ps`. */
  ghost predicate LooksAt(names: Names, x: Probe, e: Expr, ps: set<Path>) {
    Mentions(names, e) <= ps && (x.seen.Some? && x.seen.value in SeenBy(names, e) ==> x.seen.value in ps)
  }

  /** `e` looks at something that is larger in `t`, or at the larger simulation state. */
  ghost predicate Raised(names: Names, x: Probe, e: Expr, s: Store, t: Store, w: int, w': int) {
    || (HasCall(e) && w < w')
    || (exists p :: p in Mentions(names, e) && Look(s, p) < Look(t, p))
    || (x.seen.Some? && x.seen.value in SeenBy(names, e) && Look(s, x.seen.value) < Look(t, x.seen.value))
  }

  lemma RaisedPart(names: Names, x: Probe, e: Expr, s: Store, t: Store, w: int, w': int)
    requires Raised(names, x, e, s, t, w, w')
    requires !(e.Ident? && Look(s, Base(names, e.rooted, e.path)) < Look(t, Base(names, e.rooted, e.path)))
    requires !(e.Call? && (w < w' || (x.seen.Some? && x.seen.value in names.seen(e.name) && Look(s, x.seen.value) < Look(t, x.seen.value))))
    ensures exists k :: 0 <= k < |Parts(e)| && Raised(names, x, Parts(e)[k], s, t, w, w')
  {
    if HasCall(e) && w < w' {
      var k :| 0 <= k < |Parts(e)| && HasCall(Parts(e)[k]);
      assert Raised(names, x, Parts(e)[k], s, t, w, w');
    } else if x.seen.Some? && x.seen.value in SeenBy(names, e) && Look(s, x.seen.value) < Look(t, x.seen.value) {
      var k :| 0 <= k < |Parts(e)| && x.seen.value in SeenBy(names, Parts(e)[k]);
      assert Raised(names, x, Parts(e)[k], s, t, w, w');
    } else {
      var p :| p in Mentions(names, e) && Look(s, p) < Look(t, p);
      var k :| 0 <= k < |Parts(e)| && p in Mentions(names, Parts(e)[k]);
      assert Raised(names, x, Parts(e)[k], s, t, w, w');
    }
  }

  lemma LooksAtParts(names: Names, x: Probe, e: Expr, ps: set<Path>, k: nat)
    requires LooksAt(names, x, e, ps) && k < |Parts(e)|
    ensures LooksAt(names, x, Parts(e)[k], ps)
  {
  }

  /** The value of a finished expression in a summing simulator. */
  function Added(names: Names, x: Probe, e: Expr, s: Store, w: int): int {
    (if e.Ident? then Look(s, Base(names, e.rooted, e.path)) else 0)
    + if e.Call? then w + Heard(x, Restrict(s, names.seen(e.name))) else 0
  }

  lemma FinishSums(names: Names, x: Probe, e: Expr, vs: Values)
    ensures Finish(Summing(names, x), e, vs).value == Sum(vs.list) + Added(names, x, e, vs.store, vs.world)
  {
    hide Stored;
  }

  lemma AddedGrows(names: Names, x: Probe, e: Expr, ps: set<Path>, s: Store, t: Store, w: int, w': int)
    requires LooksAt(names, x, e, ps) && Below(s, t, ps) && w <= w'
    ensures Added(names, x, e, s, w) <= Added(names, x, e, t, w')
    ensures e.Ident? && Look(s, Base(names, e.rooted, e.path)) < Look(t, Base(names, e.rooted, e.path))
      ==> Added(names, x, e, s, w) < Added(names, x, e, t, w')
    ensures e.Call? && (w < w' || (x.seen.Some? && x.seen.value in names.seen(e.name) && Look(s, x.seen.value) < Look(t, x.seen.value)))
      ==> Added(names, x, e, s, w) < Added(names, x, e, t, w')
  {
    if e.Call? && x.seen.Some? {
      var p, ps' := x.seen.value, names.seen(e.name);
      assert Look(Restrict(s, ps'), p) == if p in ps' then Look(s, p) else 0;
      assert Look(Restrict(t, ps'), p) == if p in ps' then Look(t, p) else 0;
    }
  }

  /** A sum grows with what it looks at, strictly if something it looks at does. */
  lemma {:induction false} SummingGrows(names: Names, x: Probe, e: Expr, ps: set<Path>, s: Store, t: Store, w: int, w': int)
    requires LooksAt(names, x, e, ps) && Below(s, t, ps) && w <= w'
    ensures var a, b := Eval(Summing(names, x), e, s, w).value, Eval(Summing(names, x), e, t, w').value;
      a <= b && (Raised(names, x, e, s, t, w, w') ==> a < b)
    decreases e, |Parts(e)| + 1
  {
    if !e.Literal? {
      hide Summing, Eval, Finish, Raised, LooksAt, Added;
      var sem := Summing(names, x);
      forall k | 0 <= k < |Parts(e)| ensures LooksAt(names, x, Parts(e)[k], ps) {
        LooksAtParts(names, x, e, ps, k);
      }
      SummingGrowsFrom(names, x, e, 0, ps, s, t, w, w');
      FinishGrows(names, x, e, ps, s, t, w, w');
      SummingEval(names, x, e, s, w);
      SummingEval(names, x, e, t, w');
      FinishSums(names, x, e, EvalFrom(sem, e, 0, s, w));
      FinishSums(names, x, e, EvalFrom(sem, e, 0, t, w'));
    } else {
      assert !Raised(names, x, e, s, t, w, w');
    }
  }

  /** What finishing adds grows as the variables and the simulation state do. */
  lemma FinishGrows(names: Names, x: Probe, e: Expr, ps: set<Path>, s: Store, t: Store, w: int, w': int)
    requires LooksAt(names, x, e, ps) && Below(s, t, ps) && w <= w'
    ensures var v, u := EvalFrom(Summing(names, x), e, 0, s, w), EvalFrom(Summing(names, x), e, 0, t, w');
      && Added(names, x, e, v.store, v.world) <= Added(names, x, e, u.store, u.world)
      && (Raised(names, x, e, s, t, w, w') && (forall k :: 0 <= k < |Parts(e)| ==> !Raised(names, x, Parts(e)[k], s, t, w, w'))
          ==> Added(names, x, e, v.store, v.world) < Added(names, x, e, u.store, u.world))
  {
    hide Summing, EvalFrom, LooksAt, Added, Raised;
    var v, u := EvalFrom(Summing(names, x), e, 0, s, w), EvalFrom(Summing(names, x), e, 0, t, w');
    SameGrowth(names, x, e, 0, s, t, w, w');
    BelowGrown(s, t, v.store, u.store, ps);
    AddedGrows(names, x, e, ps, v.store, u.store, w, w');
    if Raised(names, x, e, s, t, w, w') && Added(names, x, e, v.store, v.world) >= Added(names, x, e, u.store, u.world) {
      assert e.Ident? ==> Grown(s, t, v.store, u.store, Base(names, e.rooted, e.path));
      assert x.seen.Some? ==> Grown(s, t, v.store, u.store, x.seen.value);
      RaisedPart(names, x, e, s, t, w, w');
    }
  }

  /** `p` has grown by the same amount from `s` to `s'` and from `t` to `t'`. */
  predicate Grown(s: Store, t: Store, s': Store, t': Store, p: Path) {
    Look(s', p) - Look(s, p) == Look(t', p) - Look(t, p)
  }

  lemma SameGrowth(names: Names, x: Probe, e: Expr, k: nat, s: Store, t: Store, w: int, w': int)
    requires k <= |Parts(e)|
    ensures var v, u := EvalFrom(Summing(names, x), e, k, s, w), EvalFrom(Summing(names, x), e, k, t, w');
      v.world == w && u.world == w' && forall p :: Grown(s, t, v.store, u.store, p)
  {
    var v, u := EvalFrom(Summing(names, x), e, k, s, w), EvalFrom(Summing(names, x), e, k, t, w');
    SummingCountsFrom(names, x, e, k, s, w, []);
    SummingCountsFrom(names, x, e, k, t, w', []);
    forall p ensures Grown(s, t, v.store, u.store, p) {
      SummingCountsFrom(names, x, e, k, s, w, p);
      SummingCountsFrom(names, x, e, k, t, w', p);
    }
  }

  lemma SameGrowthOne(names: Names, x: Probe, e: Expr, s: Store, t: Store, w: int, w': int)
    ensures var a, b := Eval(Summing(names, x), e, s, w), Eval(Summing(names, x), e, t, w');
      a.world == w && b.world == w' && forall p :: Grown(s, t, a.store, b.store, p)
  {
    var a, b := Eval(Summing(names, x), e, s, w), Eval(Summing(names, x), e, t, w');
    SummingCounts(names, x, e, s, w, []);
    SummingCounts(names, x, e, t, w', []);
    forall p ensures Grown(s, t, a.store, b.store, p) {
      SummingCounts(names, x, e, s, w, p);
      SummingCounts(names, x, e, t, w', p);
    }
  }

  lemma BelowGrown(s: Store, t: Store, s': Store, t': Store, ps: set<Path>)
    requires Below(s, t, ps) && forall p :: Grown(s, t, s', t', p)
    ensures Below(s', t', ps)
  {
    forall p | p in ps ensures Look(s', p) <= Look(t', p) {
      assert Grown(s, t, s', t', p);
    }
  }

  lemma {:induction false} SummingGrowsFrom(names: Names, x: Probe, e: Expr, k: nat, ps: set<Path>, s: Store, t: Store, w: int, w': int)
    requires k <= |Parts(e)| && Below(s, t, ps) && w <= w'
    requires forall j :: 0 <= j < |Parts(e)| ==> LooksAt(names, x, Parts(e)[j], ps)
    ensures var a, b := EvalFrom(Summing(names, x), e, k, s, w).list, EvalFrom(Summing(names, x), e, k, t, w').list;
      && Sum(a) <= Sum(b)
      && ((exists j :: k <= j < |Parts(e)| && Raised(names, x, Parts(e)[j], s, t, w, w')) ==> Sum(a) < Sum(b))
    decreases e, |Parts(e)| - k
  {
    if k < |Parts(e)| {
      hide Summing, LooksAt, Raised, Below, Sum, Eval, Grown;
      var a, b := Eval(Summing(names, x), Parts(e)[k], s, w), Eval(Summing(names, x), Parts(e)[k], t, w');
      SummingGrows(names, x, Parts(e)[k], ps, s, t, w, w');
      SameGrowthOne(names, x, Parts(e)[k], s, t, w, w');
      BelowGrown(s, t, a.store, b.store, ps);
      SummingGrowsFrom(names, x, e, k + 1, ps, a.store, b.store, w, w');
      forall j | k < j < |Parts(e)| && Raised(names, x, Parts(e)[j], s, t, w, w')
        ensures Raised(names, x, Parts(e)[j], a.store, b.store, w, w')
      {
        RaisedLater(names, x, Parts(e)[j], s, t, a.store, b.store, w, w');
      }
      SumFirst(a.value, EvalFrom(Summing(names, x), e, k + 1, a.store, w).list);
      SumFirst(b.value, EvalFrom(Summing(names, x), e, k + 1, b.store, w').list);
    }
  }

  lemma RaisedLater(names: Names, x: Probe, e: Expr, s: Store, t: Store, s': Store, t': Store, w: int, w': int)
    requires Raised(names, x, e, s, t, w, w') && forall p :: Grown(s, t, s', t', p)
    ensures Raised(names, x, e, s', t', w, w')
  {
    if exists p :: p in Mentions(names, e) && Look(s, p) < Look(t, p) {
      var p :| p in Mentions(names, e) && Look(s, p) < Look(t, p);
      assert Grown(s, t, s', t', p);
      assert Look(s', p) < Look(t', p);
    }
    if x.seen.Some? {
      assert Grown(s, t, s', t', x.seen.value);
    }
  }

  // ---------------------------------------------------------------- the two runs

  /** The variables when the first `k` declarations are through of which those in `r` run. */
  function After(names: Names, x: Probe, ds: seq<Decl>, r: set<string>, s: Store, w: int, k: nat): Store
    requires k <= |ds|
  {
    if k == 0 then s else
      var t := After(names, x, ds, r, s, w, k - 1);
      if ds[k - 1].name !in r then t else
        var o := Eval(Summing(names, x), ds[k - 1].init, t, w);
        o.store[[ds[k - 1].name] := o.value]
  }

  lemma {:induction false} RunsTo(names: Names, x: Probe, ds: seq<Decl>, r: set<string>, s: Store, w: int, k: nat)
    requires k <= |ds|
    ensures Run(Summing(names, x), Emitted(ds[k..], r), After(names, x, ds, r, s, w, k), w)
         == (After(names, x, ds, r, s, w, |ds|), w)
    decreases |ds| - k
  {
    hide Eval, Summing, Run, Emitted;
    if k < |ds| {
      var t := After(names, x, ds, r, s, w, k);
      assert ds[k..] == [ds[k]] + ds[k + 1..];
      EmittedOne(ds[k], ds[k + 1..], r);
      RunOne(Summing(names, x), ds[k], Emitted(ds[k + 1..], r), t, w);
      SummingCounts(names, x, ds[k].init, t, w, []);
      RunsTo(names, x, ds, r, s, w, k + 1);
    } else {
      assert ds[k..] == [];
      EmittedNone(r);
      RunNone(Summing(names, x), After(names, x, ds, r, s, w, k), w);
    }
  }

  lemma RunNone(sem: Semantics, s: Store, w: int)
    ensures Run(sem, [], s, w) == (s, w)
  {
  }

  lemma {:induction false} EmittedAll(ds: seq<Decl>, r: set<string>)
    requires NamesOf(ds) <= r
    ensures Emitted(ds, r) == ds
  {
    if ds != [] {
      assert ds[0].name in NamesOf(ds);
      forall n | n in NamesOf(ds[1..]) ensures n in r {
        var k :| 0 <= k < |ds[1..]| && ds[1..][k].name == n;
        assert ds[k + 1].name == n;
      }
      EmittedAll(ds[1..], r);
    }
  }

  /** One declaration: its variable gets the value, the others count. */
  lemma Step(names: Names, x: Probe, ds: seq<Decl>, r: set<string>, s: Store, w: int, k: nat, p: Path)
    requires k < |ds|
    ensures var t := After(names, x, ds, r, s, w, k);
      Look(After(names, x, ds, r, s, w, k + 1), p)
      == if ds[k].name !in r then Look(t, p)
         else if p == [ds[k].name] then Eval(Summing(names, x), ds[k].init, t, w).value
         else Look(t, p) + Count(names, x, ds[k].init, p)
  {
    SummingCounts(names, x, ds[k].init, After(names, x, ds, r, s, w, k), w, p);
  }

  /** A variable that comes out differently. */
  lemma Differ(names: Names, x: Probe, ds: seq<Decl>, r: set<string>, initial: Store, e: Store, w0: int, w: int, p: Path)
    requires FoldedRight(Summing(names, x), ds, r, e, w0) && SameBut(initial, e, KeysFrom(ds, 0))
    requires Look(After(names, x, ds, NamesOf(ds), initial, w, |ds|), p) != Look(After(names, x, ds, r, e, w, |ds|), p)
    ensures !AlwaysAgrees(names, ds, r)
  {
    var sem := Summing(names, x);
    RunsTo(names, x, ds, NamesOf(ds), initial, w, 0);
    RunsTo(names, x, ds, r, e, w, 0);
    EmittedAll(ds, NamesOf(ds));
    assert ds[0..] == ds;
    assert After(names, x, ds, NamesOf(ds), initial, w, 0) == initial && After(names, x, ds, r, e, w, 0) == e;
    assert sem.names == names;
    hide FoldedRight, SameBut, After, Run, Emitted, Summing, KeysFrom;
    assert Run(sem, ds, initial, w) != Run(sem, Emitted(ds, r), e, w);
  }

  predicate DistinctNames(ds: seq<Decl>) {
    forall i, j :: 0 <= i < j < |ds| ==> ds[i].name != ds[j].name
  }

  lemma FreshKey(ds: seq<Decl>, k: nat)
    requires DistinctNames(ds) && k < |ds|
    ensures [ds[k].name] !in KeysFrom(ds, k + 1)
  {
    forall i | k < i < |ds| ensures [ds[i].name] != [ds[k].name] {
      assert [ds[i].name][0] != [ds[k].name][0];
    }
  }

  // ---------------------------------------------------------------- elaborated values

  /** Elaborated values with the folded initializers right, and `high` for what runs again. */
  function Elab(names: Names, x: Probe, ds: seq<Decl>, r: set<string>, high: seq<int>, w: int, k: nat): Store
    requires k <= |ds| == |high|
  {
    if k == 0 then map[] else
      var t := Elab(names, x, ds, r, high, w, k - 1);
      t[[ds[k - 1].name] := if ds[k - 1].name in r then high[k - 1] else Eval(Summing(names, x), ds[k - 1].init, t, w).value]
  }

  lemma {:induction false} ElabKeeps(names: Names, x: Probe, ds: seq<Decl>, r: set<string>, high: seq<int>, w: int, k: nat, m: nat, p: Path)
    requires k <= m <= |ds| == |high| && p !in KeysFrom(ds, k)
    ensures p in Elab(names, x, ds, r, high, w, k) <==> p in Elab(names, x, ds, r, high, w, m)
    ensures Look(Elab(names, x, ds, r, high, w, k), p) == Look(Elab(names, x, ds, r, high, w, m), p)
  {
    hide Eval, Summing;
    if k < m {
      ElabKeeps(names, x, ds, r, high, w, k, m - 1, p);
      assert [ds[m - 1].name] in KeysFrom(ds, k);
    }
  }

  /** A value is the same over variables that agree where it looks. */
  lemma SummingSame(names: Names, x: Probe, e: Expr, s: Store, t: Store, w: int)
    requires x.seen.None? || !HasCall(e)
    requires forall p :: p in Mentions(names, e) ==> Look(s, p) == Look(t, p)
    ensures Eval(Summing(names, x), e, s, w).value == Eval(Summing(names, x), e, t, w).value
  {
    OwnLooks(names, x, e);
    SummingGrows(names, x, e, Mentions(names, e), s, t, w, w);
    SummingGrows(names, x, e, Mentions(names, e), t, s, w, w);
  }

  lemma OwnLooks(names: Names, x: Probe, e: Expr)
    requires x.seen.None? || !HasCall(e)
    ensures LooksAt(names, x, e, Mentions(names, e))
  {
    if !HasCall(e) {
      forall p ensures p !in SeenBy(names, e) {
        NoCallNothingSeen(names, e, p);
      }
    }
  }

  /** The elaborated value of declaration `k`, over the final elaborated values. */
  lemma ElabValue(names: Names, x: Probe, ds: seq<Decl>, r: set<string>, high: seq<int>, w: int, k: nat)
    requires k < |ds| == |high| && DistinctNames(ds) && MentionsEarlier(names, ds)
    requires ds[k].name !in r && (x.seen.None? || !HasCall(ds[k].init))
    ensures var e := Elab(names, x, ds, r, high, w, |ds|);
      [ds[k].name] in e && Look(e, [ds[k].name]) == Eval(Summing(names, x), ds[k].init, e, w).value
  {
    hide Eval, Summing, HasCall;
    var e, t := Elab(names, x, ds, r, high, w, |ds|), Elab(names, x, ds, r, high, w, k);
    FreshKey(ds, k);
    ElabKeeps(names, x, ds, r, high, w, k + 1, |ds|, [ds[k].name]);
    forall p | p in Mentions(names, ds[k].init) ensures Look(t, p) == Look(e, p) {
      ElabKeeps(names, x, ds, r, high, w, k, |ds|, p);
    }
    SummingSame(names, x, ds[k].init, t, e, w);
  }

  lemma ElabFolded(names: Names, x: Probe, ds: seq<Decl>, r: set<string>, high: seq<int>, w: int)
    requires |high| == |ds| && DistinctNames(ds) && MentionsEarlier(names, ds)
    requires x.seen.None? || forall k :: 0 <= k < |ds| && ds[k].name !in r ==> !HasCall(ds[k].init)
    ensures FoldedRight(Summing(names, x), ds, r, Elab(names, x, ds, r, high, w, |ds|), w)
    ensures SameBut(map[], Elab(names, x, ds, r, high, w, |ds|), KeysFrom(ds, 0))
  {
    hide Eval, Summing, HasCall;
    forall k | 0 <= k < |ds| && ds[k].name !in r
      ensures var e := Elab(names, x, ds, r, high, w, |ds|);
        [ds[k].name] in e && Look(e, [ds[k].name]) == Eval(Summing(names, x), ds[k].init, e, w).value
    {
      ElabValue(names, x, ds, r, high, w, k);
    }
    forall p | p !in KeysFrom(ds, 0) ensures p !in Elab(names, x, ds, r, high, w, |ds|) {
      ElabKeeps(names, x, ds, r, high, w, 0, |ds|, p);
    }
  }

  // ------------------------------------- left out, but reads a member or calls a subroutine

  const PLAIN := Probe({}, {}, None)

  /** A full run from nothing in state 0, and one more than its value for what runs again. */
  function Full(names: Names, ds: seq<Decl>, k: nat): Store
    requires k <= |ds|
  {
    After(names, PLAIN, ds, NamesOf(ds), map[], 0, k)
  }

  function Higher(names: Names, ds: seq<Decl>): (high: seq<int>)
    ensures |high| == |ds|
  {
    seq(|ds|, k requires 0 <= k < |ds| => Look(Full(names, ds, k + 1), [ds[k].name]) + 1)
  }

  function Raise(names: Names, ds: seq<Decl>, r: set<string>, k: nat): Store
    requires k <= |ds|
  {
    Elab(names, PLAIN, ds, r, Higher(names, ds), 1, k)
  }

  lemma FullStep(names: Names, ds: seq<Decl>, k: nat, p: Path)
    requires k < |ds|
    ensures Look(Full(names, ds, k + 1), p)
         == if p == [ds[k].name] then Eval(Summing(names, PLAIN), ds[k].init, Full(names, ds, k), 0).value else Look(Full(names, ds, k), p)
  {
    assert ds[k].name in NamesOf(ds);
    Step(names, PLAIN, ds, NamesOf(ds), map[], 0, k, p);
    Uncounted(names, PLAIN, ds[k].init, p);
  }

  lemma {:induction false} FullKeeps(names: Names, ds: seq<Decl>, k: nat, m: nat, p: Path)
    requires k <= m <= |ds| && p !in KeysFrom(ds, k)
    ensures Look(Full(names, ds, m), p) == Look(Full(names, ds, k), p)
  {
    hide Full;
    if k < m {
      FullStep(names, ds, m - 1, p);
      assert [ds[m - 1].name] in KeysFrom(ds, k);
      FullKeeps(names, ds, k, m - 1, p);
    }
  }

  lemma RaiseStep(names: Names, ds: seq<Decl>, r: set<string>, k: nat, p: Path)
    requires k < |ds|
    ensures Look(Raise(names, ds, r, k + 1), p)
         == if p != [ds[k].name] then Look(Raise(names, ds, r, k), p)
            else if ds[k].name in r then Look(Full(names, ds, k + 1), p) + 1
            else Eval(Summing(names, PLAIN), ds[k].init, Raise(names, ds, r, k), 1).value
  {
    hide Full, Eval, Summing;
  }

  /** The raised elaborated values are nowhere below the full run. */
  ghost predicate Overall(names: Names, ds: seq<Decl>, r: set<string>, k: nat)
    requires k <= |ds|
  {
    forall p :: Look(Full(names, ds, k), p) <= Look(Raise(names, ds, r, k), p)
  }

  lemma ValueRises(names: Names, ds: seq<Decl>, r: set<string>, k: nat)
    requires k < |ds| && Overall(names, ds, r, k)
    ensures Eval(Summing(names, PLAIN), ds[k].init, Full(names, ds, k), 0).value
         <= Eval(Summing(names, PLAIN), ds[k].init, Raise(names, ds, r, k), 1).value
  {
    hide Full, Raise, Eval, Summing;
    OwnLooks(names, PLAIN, ds[k].init);
    SummingGrows(names, PLAIN, ds[k].init, Mentions(names, ds[k].init), Full(names, ds, k), Raise(names, ds, r, k), 0, 1);
  }

  lemma PathRises(names: Names, ds: seq<Decl>, r: set<string>, k: nat, p: Path)
    requires k < |ds| && Overall(names, ds, r, k)
    ensures Look(Full(names, ds, k + 1), p) <= Look(Raise(names, ds, r, k + 1), p)
  {
    hide Full, Raise, Eval, Summing;
    ValueRises(names, ds, r, k);
    FullStep(names, ds, k, p);
    RaiseStep(names, ds, r, k, p);
  }

  lemma {:induction false} RaisedAbove(names: Names, ds: seq<Decl>, r: set<string>, k: nat)
    requires k <= |ds|
    ensures Overall(names, ds, r, k)
  {
    if k > 0 {
      hide Full, Raise, Eval, Summing;
      RaisedAbove(names, ds, r, k - 1);
      forall p ensures Look(Full(names, ds, k), p) <= Look(Raise(names, ds, r, k), p) {
        PathRises(names, ds, r, k - 1, p);
      }
    } else {
      assert Full(names, ds, 0) == map[] == Raise(names, ds, r, 0);
    }
  }

  /** They are above it for what runs again. */
  lemma {:induction false} RaisedMember(names: Names, ds: seq<Decl>, r: set<string>, j: nat, k: nat)
    requires j < k <= |ds| && ds[j].name in r
    ensures Look(Full(names, ds, k), [ds[j].name]) < Look(Raise(names, ds, r, k), [ds[j].name])
  {
    hide Full, Raise, Eval, Summing;
    var p := [ds[j].name];
    FullStep(names, ds, k - 1, p);
    RaiseStep(names, ds, r, k - 1, p);
    if ds[j].name != ds[k - 1].name {
      assert p[0] != [ds[k - 1].name][0];
      RaisedMember(names, ds, r, j, k - 1);
    }
  }

  /** The emitted assignments do not touch what is left out. */
  lemma {:induction false} RunKeeps(names: Names, x: Probe, ds: seq<Decl>, r: set<string>, s: Store, w: int, k: nat, n: string)
    requires k <= |ds| && n !in r && [n] !in x.outs + x.sets
    ensures Look(After(names, x, ds, r, s, w, k), [n]) == Look(s, [n])
  {
    hide Eval, Summing;
    if k > 0 {
      RunKeeps(names, x, ds, r, s, w, k - 1, n);
      Step(names, x, ds, r, s, w, k - 1, [n]);
      Uncounted(names, x, ds[k - 1].init, [n]);
      assert [n][0] == n;
    }
  }

  lemma ReadsRaised(names: Names, ds: seq<Decl>, r: set<string>, k: nat)
    requires MentionsEarlier(names, ds) && r <= NamesOf(ds)
    requires k < |ds| && !(Mentions(names, ds[k].init) !! KeysOf(r))
    ensures exists p :: p in Mentions(names, ds[k].init) && Look(Full(names, ds, k), p) < Look(Raise(names, ds, r, k), p)
  {
    hide Full, Raise, Mentions;
    var p :| p in Mentions(names, ds[k].init) && p in KeysOf(r);
    var n :| n in r && p == [n];
    var j :| 0 <= j < |ds| && ds[j].name == n;
    if k <= j { assert false; }
    RaisedMember(names, ds, r, j, k);
    assert Look(Full(names, ds, k), p) < Look(Raise(names, ds, r, k), p);
  }

  /** An initializer that is left out but reads a member of the set, or calls a subroutine: its
      elaborated value is larger than the one the full run stores. */
  lemma LeftOutStale(names: Names, ds: seq<Decl>, r: set<string>, k: nat)
    requires DistinctNames(ds) && MentionsEarlier(names, ds) && r <= NamesOf(ds)
    requires k < |ds| && ds[k].name !in r && (HasCall(ds[k].init) || !(Mentions(names, ds[k].init) !! KeysOf(r)))
    ensures !AlwaysAgrees(names, ds, r)
  {
    var init, key := ds[k].init, [ds[k].name];
    RaisedAbove(names, ds, r, k);
    if !HasCall(init) { ReadsRaised(names, ds, r, k); }
    hide Full, Eval, Summing, AlwaysAgrees, MentionsEarlier;
    OwnLooks(names, PLAIN, init);
    SummingGrows(names, PLAIN, init, Mentions(names, init), Full(names, ds, k), Raise(names, ds, r, k), 0, 1);
    FullStep(names, ds, k, key);
    assert Look(Full(names, ds, k + 1), key) < Look(Raise(names, ds, r, k + 1), key);
    FreshKey(ds, k);
    FullKeeps(names, ds, k + 1, |ds|, key);
    ElabKeeps(names, PLAIN, ds, r, Higher(names, ds), 1, k + 1, |ds|, key);
    RunKeeps(names, PLAIN, ds, r, Raise(names, ds, r, |ds|), 0, |ds|, ds[k].name);
    ElabFolded(names, PLAIN, ds, r, Higher(names, ds), 1);
    FullIs(names, ds);
    Differ(names, PLAIN, ds, r, map[], Raise(names, ds, r, |ds|), 1, 0, key);
  }

  lemma FullIs(names: Names, ds: seq<Decl>)
    ensures Full(names, ds, |ds|) == After(names, PLAIN, ds, NamesOf(ds), map[], 0, |ds|)
  {
  }

  // ------------------------------------- what is left out is untouched, but other things are not

  /** What is left out calls nothing and reads no member of the set. */
  predicate LeftPure(names: Names, ds: seq<Decl>, r: set<string>) {
    forall k :: 0 <= k < |ds| && ds[k].name !in r ==> !HasCall(ds[k].init) && Mentions(names, ds[k].init) !! KeysOf(r)
  }

  /** Right elaborated values, 0 for what runs again. */
  function Start(names: Names, x: Probe, ds: seq<Decl>, r: set<string>): Store {
    Elab(names, x, ds, r, seq(|ds|, _ => 0), 0, |ds|)
  }

  lemma StartFolded(names: Names, x: Probe, ds: seq<Decl>, r: set<string>)
    requires DistinctNames(ds) && MentionsEarlier(names, ds) && LeftPure(names, ds, r)
    ensures FoldedRight(Summing(names, x), ds, r, Start(names, x, ds, r), 0)
  {
    hide Summing;
    ElabFolded(names, x, ds, r, seq(|ds|, _ => 0), 0);
  }

  /** A left-out initializer has its elaborated value wherever what it mentions has. */
  lemma LeftValue(names: Names, x: Probe, ds: seq<Decl>, r: set<string>, k: nat, s: Store)
    requires DistinctNames(ds) && MentionsEarlier(names, ds) && LeftPure(names, ds, r)
    requires k < |ds| && ds[k].name !in r
    requires forall p :: p in Mentions(names, ds[k].init) ==> Look(s, p) == Look(Start(names, x, ds, r), p)
    ensures Eval(Summing(names, x), ds[k].init, s, 0).value == Look(Start(names, x, ds, r), [ds[k].name])
  {
    hide Summing, Eval, Mentions, Elab;
    ElabValue(names, x, ds, r, seq(|ds|, _ => 0), 0, k);
    SummingSame(names, x, ds[k].init, s, Start(names, x, ds, r), 0);
  }

  lemma OtherKey(ds: seq<Decl>, i: nat, k: nat)
    requires DistinctNames(ds) && i < |ds| && k < |ds| && i != k
    ensures [ds[i].name] != [ds[k].name]
  {
    assert [ds[i].name][0] != [ds[k].name][0];
  }

  /** What the full run does to `p` at declaration `k`. */
  lemma AllStep(names: Names, x: Probe, ds: seq<Decl>, s: Store, k: nat, p: Path)
    requires k < |ds|
    ensures var t := After(names, x, ds, NamesOf(ds), s, 0, k);
      Look(After(names, x, ds, NamesOf(ds), s, 0, k + 1), p)
      == if p == [ds[k].name] then Eval(Summing(names, x), ds[k].init, t, 0).value
         else Look(t, p) + Count(names, x, ds[k].init, p)
  {
    assert ds[k].name in NamesOf(ds);
    Step(names, x, ds, NamesOf(ds), s, 0, k, p);
  }

  // ------------------------------------- a subroutine assigns what is initialized after it

  /** Up to declaration `k`, whose variable `t` subroutines count, the full run keeps the
      elaborated values, and both runs count alike. */
  ghost predicate BeforeReset(names: Names, ds: seq<Decl>, r: set<string>, t: Path, j: nat, i: nat)
    requires i <= |ds|
  {
    var x := Probe({}, {t}, None);
    var e := Start(names, x, ds, r);
    var f, g := After(names, x, ds, NamesOf(ds), e, 0, i), After(names, x, ds, r, e, 0, i);
    && (forall p :: p !in KeysOf(r) && p != t ==> Look(f, p) == Look(e, p))
    && Look(f, t) == Look(g, t) >= Look(e, t) && (j < i ==> Look(g, t) > Look(e, t))
  }

  lemma {:induction false} CountsAlike(names: Names, ds: seq<Decl>, r: set<string>, k: nat, j: nat, i: nat)
    requires DistinctNames(ds) && MentionsEarlier(names, ds) && LeftPure(names, ds, r)
    requires j < k < |ds| && i <= k && ds[k].name !in r && ds[j].name in r && [ds[k].name] in Writes(names, ds[j].init)
    ensures BeforeReset(names, ds, r, [ds[k].name], j, i)
  {
    hide Eval, Summing, Start, After, Writes, Mentions, HasCall;
    var t := [ds[k].name];
    var x := Probe({}, {t}, None);
    var e := Start(names, x, ds, r);
    if i > 0 {
      var d := ds[i - 1];
      CountsAlike(names, ds, r, k, j, i - 1);
      OtherKey(ds, i - 1, k);
      var f := After(names, x, ds, NamesOf(ds), e, 0, i - 1);
      AllStep(names, x, ds, e, i - 1, t);
      Step(names, x, ds, r, e, 0, i - 1, t);
      if d.name !in r {
        Uncounted(names, x, d.init, t);
        assert t in KeysFrom(ds, i - 1);
        LeftValue(names, x, ds, r, i - 1, f);
      }
      forall p | p !in KeysOf(r) && p != t ensures Look(After(names, x, ds, NamesOf(ds), e, 0, i), p) == Look(e, p) {
        AllStep(names, x, ds, e, i - 1, p);
        Uncounted(names, x, d.init, p);
        KeyOfName(r, d.name);
      }
      if i - 1 == j {
        assert t in KeysFrom(ds, j);
        CountedBodies(names, t, ds[j].init);
      }
    } else {
      NothingRun(names, x, ds, NamesOf(ds), e);
      NothingRun(names, x, ds, r, e);
    }
  }

  lemma NothingRun(names: Names, x: Probe, ds: seq<Decl>, r: set<string>, s: Store)
    ensures After(names, x, ds, r, s, 0, 0) == s
  {
  }

  /** Behind it the full run is behind: its count began again. */
  lemma {:induction false} ResetBehind(names: Names, ds: seq<Decl>, r: set<string>, k: nat, j: nat, i: nat)
    requires DistinctNames(ds) && MentionsEarlier(names, ds) && LeftPure(names, ds, r)
    requires j < k < i <= |ds| && ds[k].name !in r && ds[j].name in r && [ds[k].name] in Writes(names, ds[j].init)
    ensures var t, x := [ds[k].name], Probe({}, {[ds[k].name]}, None);
      var e := Start(names, x, ds, r);
      Look(After(names, x, ds, NamesOf(ds), e, 0, i), t) < Look(After(names, x, ds, r, e, 0, i), t)
  {
    hide Eval, Summing, Start, After, Writes, HasCall;
    var t := [ds[k].name];
    var x := Probe({}, {t}, None);
    var e := Start(names, x, ds, r);
    AllStep(names, x, ds, e, i - 1, t);
    Step(names, x, ds, r, e, 0, i - 1, t);
    if i - 1 == k {
      CountsAlike(names, ds, r, k, j, k);
      assert t in KeysFrom(ds, k);
      LeftValue(names, x, ds, r, k, After(names, x, ds, NamesOf(ds), e, 0, k));
    } else {
      OtherKey(ds, i - 1, k);
      ResetBehind(names, ds, r, k, j, i - 1);
      if ds[i - 1].name !in r { Uncounted(names, x, ds[i - 1].init, t); }
    }
  }

  lemma SetTooEarly(names: Names, ds: seq<Decl>, r: set<string>, k: nat, j: nat)
    requires DistinctNames(ds) && MentionsEarlier(names, ds) && LeftPure(names, ds, r)
    requires j < k < |ds| && ds[k].name !in r && ds[j].name in r && [ds[k].name] in Writes(names, ds[j].init)
    ensures !AlwaysAgrees(names, ds, r)
  {
    var x := Probe({}, {[ds[k].name]}, None);
    var e := Start(names, x, ds, r);
    StartFolded(names, x, ds, r);
    ResetBehind(names, ds, r, k, j, |ds|);
    SameAlways(e, KeysFrom(ds, 0));
    hide *;
    Differ(names, x, ds, r, e, e, 0, 0, [ds[k].name]);
  }

  // ------------------------------------- a subroutine reads what is declared after it

  /** The full run starts with one less in `t`. */
  ghost predicate StartsBelow(names: Names, ds: seq<Decl>, r: set<string>, t: Path, i: nat)
    requires i <= |ds|
  {
    var x := Probe({}, {}, Some(t));
    var e := Start(names, x, ds, r);
    var f, g := After(names, x, ds, NamesOf(ds), e[t := Look(e, t) - 1], 0, i), After(names, x, ds, r, e, 0, i);
    && (forall p :: Look(f, p) <= Look(g, p))
    && (forall p :: p !in KeysOf(r) ==> Look(g, p) == Look(e, p) && (p !in KeysFrom(ds, i) ==> Look(f, p) == Look(e, p)))
  }

  lemma {:induction false} StaysBelow(names: Names, ds: seq<Decl>, r: set<string>, t: Path, i: nat)
    requires DistinctNames(ds) && MentionsEarlier(names, ds) && LeftPure(names, ds, r)
    requires i <= |ds| && t in KeysFrom(ds, 0)
    ensures StartsBelow(names, ds, r, t, i)
  {
    hide Eval, Summing, Start, After, Mentions, HasCall;
    var x := Probe({}, {}, Some(t));
    var e := Start(names, x, ds, r);
    var s := e[t := Look(e, t) - 1];
    if i > 0 {
      var d := ds[i - 1];
      StaysBelow(names, ds, r, t, i - 1);
      var f, g := After(names, x, ds, NamesOf(ds), s, 0, i - 1), After(names, x, ds, r, e, 0, i - 1);
      KeyOfName(r, d.name);
      KeysStep(ds, i - 1);
      if d.name in r {
        assert LooksAt(names, x, d.init, Mentions(names, d.init) + {t});
        SummingGrows(names, x, d.init, Mentions(names, d.init) + {t}, f, g, 0, 0);
      } else {
        LeftValue(names, x, ds, r, i - 1, f);
      }
      forall p
        ensures Look(After(names, x, ds, NamesOf(ds), s, 0, i), p) <= Look(After(names, x, ds, r, e, 0, i), p)
        ensures p !in KeysOf(r) ==> Look(After(names, x, ds, r, e, 0, i), p) == Look(e, p)
        ensures p !in KeysOf(r) && p !in KeysFrom(ds, i) ==> Look(After(names, x, ds, NamesOf(ds), s, 0, i), p) == Look(e, p)
      {
        AllStep(names, x, ds, s, i - 1, p);
        Step(names, x, ds, r, e, 0, i - 1, p);
        Uncounted(names, x, d.init, p);
      }
    } else {
      NothingRun(names, x, ds, NamesOf(ds), s);
      NothingRun(names, x, ds, r, e);
    }
  }

  /** Nothing happens to a variable before its declaration. */
  lemma {:induction false} NotYet(names: Names, x: Probe, ds: seq<Decl>, r: set<string>, s: Store, i: nat, m: nat)
    requires DistinctNames(ds) && i <= m < |ds| && [ds[m].name] !in x.outs + x.sets
    ensures Look(After(names, x, ds, r, s, 0, i), [ds[m].name]) == Look(s, [ds[m].name])
  {
    hide Eval, Summing;
    if i > 0 {
      NotYet(names, x, ds, r, s, i - 1, m);
      Step(names, x, ds, r, s, 0, i - 1, [ds[m].name]);
      OtherKey(ds, i - 1, m);
      Uncounted(names, x, ds[i - 1].init, [ds[m].name]);
    }
  }

  /** Nor after it. */
  lemma {:induction false} NoMore(names: Names, x: Probe, ds: seq<Decl>, r: set<string>, s: Store, k: nat, i: nat)
    requires DistinctNames(ds) && k < i <= |ds| && [ds[k].name] !in x.outs + x.sets
    ensures Look(After(names, x, ds, r, s, 0, i), [ds[k].name]) == Look(After(names, x, ds, r, s, 0, k + 1), [ds[k].name])
  {
    hide Eval, Summing;
    if i > k + 1 {
      NoMore(names, x, ds, r, s, k, i - 1);
      Step(names, x, ds, r, s, 0, i - 1, [ds[k].name]);
      OtherKey(ds, i - 1, k);
      Uncounted(names, x, ds[i - 1].init, [ds[k].name]);
    }
  }

  lemma SeenTooEarly(names: Names, ds: seq<Decl>, r: set<string>, j: nat, m: nat)
    requires DistinctNames(ds) && MentionsEarlier(names, ds) && LeftPure(names, ds, r)
    requires j <= m < |ds| && ds[j].name in r && [ds[m].name] in SeenBy(names, ds[j].init)
    ensures !AlwaysAgrees(names, ds, r)
  {
    hide Eval, Summing, Start, After, Mentions, AlwaysAgrees, HasCall;
    var t, key, init := [ds[m].name], [ds[j].name], ds[j].init;
    var x := Probe({}, {}, Some(t));
    var e := Start(names, x, ds, r);
    var s := e[t := Look(e, t) - 1];
    assert t in KeysFrom(ds, 0);
    StaysBelow(names, ds, r, t, j);
    NotYet(names, x, ds, NamesOf(ds), s, j, m);
    NotYet(names, x, ds, r, e, j, m);
    var f, g := After(names, x, ds, NamesOf(ds), s, 0, j), After(names, x, ds, r, e, 0, j);
    assert LooksAt(names, x, init, Mentions(names, init) + {t});
    assert Raised(names, x, init, f, g, 0, 0);
    SummingGrows(names, x, init, Mentions(names, init) + {t}, f, g, 0, 0);
    AllStep(names, x, ds, s, j, key);
    Step(names, x, ds, r, e, 0, j, key);
    NoMore(names, x, ds, NamesOf(ds), s, j, |ds|);
    NoMore(names, x, ds, r, e, j, |ds|);
    StartFolded(names, x, ds, r);
    Differ(names, x, ds, r, s, e, 0, 0, key);
  }

  // ------------------------------------- what is left out reads what is assigned before it

  /** No initializer that runs again assigns a left-out variable that is declared after it. */
  predicate NoneEarly(names: Names, ds: seq<Decl>, r: set<string>) {
    forall j, k :: 0 <= j < k < |ds| && ds[j].name in r && ds[k].name !in r ==> [ds[k].name] !in Writes(names, ds[j].init)
  }

  /** All assignments to `t` are counted; the full run is ahead everywhere, and the emitted run
      keeps what is left out but for `t`. */
  ghost predicate Ahead(names: Names, ds: seq<Decl>, r: set<string>, t: Path, i: nat)
    requires i <= |ds|
  {
    var x := Probe({t}, {t}, None);
    var e := Start(names, x, ds, r);
    var f, g := After(names, x, ds, NamesOf(ds), e, 0, i), After(names, x, ds, r, e, 0, i);
    && (forall p :: Look(g, p) <= Look(f, p))
    && (forall p :: p !in KeysOf(r) ==> Look(e, p) <= Look(g, p) && (p != t ==> Look(g, p) == Look(e, p)))
    && (t in KeysFrom(ds, i) ==> Look(g, t) == Look(e, t))
  }

  lemma {:induction false} StaysAhead(names: Names, ds: seq<Decl>, r: set<string>, t: Path, i: nat)
    requires DistinctNames(ds) && MentionsEarlier(names, ds) && LeftPure(names, ds, r) && NoneEarly(names, ds, r)
    requires i <= |ds| && t !in KeysOf(r)
    ensures Ahead(names, ds, r, t, i)
  {
    hide Eval, Summing, Start, After;
    var x := Probe({t}, {t}, None);
    var e := Start(names, x, ds, r);
    if i > 0 {
      StaysAhead(names, ds, r, t, i - 1);
      AheadStep(names, ds, r, t, i - 1);
    } else {
      NothingRun(names, x, ds, NamesOf(ds), e);
      NothingRun(names, x, ds, r, e);
    }
  }

  /** The value at declaration `k` in the full run is no smaller than in the emitted run. */
  lemma AheadValue(names: Names, ds: seq<Decl>, r: set<string>, t: Path, k: nat)
    requires DistinctNames(ds) && MentionsEarlier(names, ds) && LeftPure(names, ds, r)
    requires k < |ds| && Ahead(names, ds, r, t, k)
    ensures var x := Probe({t}, {t}, None);
      var e := Start(names, x, ds, r);
      var f, g := After(names, x, ds, NamesOf(ds), e, 0, k), After(names, x, ds, r, e, 0, k);
      var v := Eval(Summing(names, x), ds[k].init, f, 0).value;
      && (ds[k].name in r ==> Eval(Summing(names, x), ds[k].init, g, 0).value <= v)
      && (ds[k].name !in r ==> Look(e, [ds[k].name]) <= v)
      && (ds[k].name !in r && t in Mentions(names, ds[k].init) && Look(e, t) < Look(f, t) ==> Look(e, [ds[k].name]) < v)
  {
    hide Eval, Summing, Start, After, Mentions, HasCall;
    var x := Probe({t}, {t}, None);
    var e := Start(names, x, ds, r);
    var f, g := After(names, x, ds, NamesOf(ds), e, 0, k), After(names, x, ds, r, e, 0, k);
    OwnLooks(names, x, ds[k].init);
    if ds[k].name in r {
      SummingGrows(names, x, ds[k].init, Mentions(names, ds[k].init), g, f, 0, 0);
    } else {
      LeftValue(names, x, ds, r, k, e);
      forall p | p in Mentions(names, ds[k].init) ensures Look(e, p) <= Look(f, p) {
        assert p !in KeysOf(r);
      }
      SummingGrows(names, x, ds[k].init, Mentions(names, ds[k].init), e, f, 0, 0);
    }
  }

  /** What declaration `k` does to `p` in the two runs. */
  lemma AheadAt(names: Names, ds: seq<Decl>, r: set<string>, t: Path, k: nat, p: Path)
    requires DistinctNames(ds) && MentionsEarlier(names, ds) && LeftPure(names, ds, r)
    requires k < |ds| && t !in KeysOf(r) && Ahead(names, ds, r, t, k)
    ensures var x := Probe({t}, {t}, None);
      var e := Start(names, x, ds, r);
      var f, g := After(names, x, ds, NamesOf(ds), e, 0, k + 1), After(names, x, ds, r, e, 0, k + 1);
      && Look(g, p) <= Look(f, p)
      && (p !in KeysOf(r) ==> Look(e, p) <= Look(g, p) && (p != t ==> Look(g, p) == Look(e, p)))
  {
    AheadValue(names, ds, r, t, k);
    hide Eval, Summing, Start, After, Mentions, HasCall, MentionsEarlier, LeftPure;
    var x, d := Probe({t}, {t}, None), ds[k];
    var e := Start(names, x, ds, r);
    KeyOfName(r, d.name);
    assert [d.name] in KeysFrom(ds, k);
    AllStep(names, x, ds, e, k, p);
    Step(names, x, ds, r, e, 0, k, p);
    if p != t { Uncounted(names, x, d.init, p); }
  }

  lemma AheadStep(names: Names, ds: seq<Decl>, r: set<string>, t: Path, k: nat)
    requires DistinctNames(ds) && MentionsEarlier(names, ds) && LeftPure(names, ds, r) && NoneEarly(names, ds, r)
    requires k < |ds| && t !in KeysOf(r) && Ahead(names, ds, r, t, k)
    ensures Ahead(names, ds, r, t, k + 1)
  {
    hide Eval, Summing, Start, After, Writes, MentionsEarlier, LeftPure;
    var x, d := Probe({t}, {t}, None), ds[k];
    var e := Start(names, x, ds, r);
    var f, g := After(names, x, ds, NamesOf(ds), e, 0, k + 1), After(names, x, ds, r, e, 0, k + 1);
    forall p
      ensures Look(g, p) <= Look(f, p)
      ensures p !in KeysOf(r) ==> Look(e, p) <= Look(g, p) && (p != t ==> Look(g, p) == Look(e, p))
    {
      AheadAt(names, ds, r, t, k, p);
    }
    if t in KeysFrom(ds, k + 1) {
      KeyOfName(r, d.name);
      KeysStep(ds, k);
      CountedWrites(names, t, None, d.init);
      if d.name in r { NotWrittenEarly(names, ds, r, t, k); }
      Step(names, x, ds, r, e, 0, k, t);
    }
  }

  lemma NotWrittenEarly(names: Names, ds: seq<Decl>, r: set<string>, t: Path, k: nat)
    requires NoneEarly(names, ds, r) && k < |ds| && ds[k].name in r && t !in KeysOf(r) && t in KeysFrom(ds, k + 1)
    ensures t !in Writes(names, ds[k].init)
  {
    hide Writes;
    var i :| k + 1 <= i < |ds| && t == [ds[i].name];
    KeyOfName(r, ds[i].name);
  }

  /** Once something that runs again has assigned `t`, it is larger in the emitted run. */
  lemma {:induction false} AssignedLarger(names: Names, ds: seq<Decl>, r: set<string>, t: Path, j: nat, i: nat)
    requires DistinctNames(ds) && MentionsEarlier(names, ds) && LeftPure(names, ds, r) && NoneEarly(names, ds, r)
    requires j < i <= |ds| && t !in KeysOf(r) && ds[j].name in r && t in Writes(names, ds[j].init)
    ensures var x := Probe({t}, {t}, None);
      var e := Start(names, x, ds, r);
      Look(After(names, x, ds, r, e, 0, i), t) > Look(e, t)
  {
    hide Eval, Summing, Start, After, Writes;
    var x := Probe({t}, {t}, None);
    var e := Start(names, x, ds, r);
    Step(names, x, ds, r, e, 0, i - 1, t);
    KeyOfName(r, ds[i - 1].name);
    if i - 1 == j {
      StaysAhead(names, ds, r, t, j);
      CountedWrites(names, t, None, ds[j].init);
    } else {
      AssignedLarger(names, ds, r, t, j, i - 1);
    }
  }

  lemma ReadsAssigned(names: Names, ds: seq<Decl>, r: set<string>, t: Path, j: nat, k: nat)
    requires DistinctNames(ds) && MentionsEarlier(names, ds) && LeftPure(names, ds, r) && NoneEarly(names, ds, r)
    requires j < k < |ds| && ds[j].name in r && t in Writes(names, ds[j].init)
    requires ds[k].name !in r && t in Mentions(names, ds[k].init)
    ensures !AlwaysAgrees(names, ds, r)
  {
    hide Eval, Summing, Start, After, Writes, AlwaysAgrees, HasCall, Mentions;
    var x, key := Probe({t}, {t}, None), [ds[k].name];
    var e := Start(names, x, ds, r);
    assert t !in KeysOf(r);
    assert key != t by { assert key in KeysFrom(ds, k); }
    StaysAhead(names, ds, r, t, k);
    AssignedLarger(names, ds, r, t, j, k);
    AheadValue(names, ds, r, t, k);
    AllStep(names, x, ds, e, k, key);
    NoMore(names, x, ds, NamesOf(ds), e, k, |ds|);
    StaysAhead(names, ds, r, t, |ds|);
    KeyOfName(r, ds[k].name);
    StartFolded(names, x, ds, r);
    SameAlways(e, KeysFrom(ds, 0));
    Differ(names, x, ds, r, e, e, 0, 0, key);
  }

  // ------------------------------------- what is left out assigns something itself

  lemma {:induction false} LeftAssigns(names: Names, ds: seq<Decl>, r: set<string>, t: Path, k: nat, i: nat)
    requires DistinctNames(ds) && MentionsEarlier(names, ds) && LeftPure(names, ds, r) && NoneEarly(names, ds, r)
    requires k < i <= |ds| && ds[k].name !in r && t in Writes(names, ds[k].init) && t in Mentions(names, ds[k].init)
    ensures var x := Probe({t}, {t}, None);
      var e := Start(names, x, ds, r);
      Look(After(names, x, ds, r, e, 0, i), t) < Look(After(names, x, ds, NamesOf(ds), e, 0, i), t)
  {
    hide Eval, Summing, Start, After, Writes, Mentions, HasCall;
    var x, d := Probe({t}, {t}, None), ds[i - 1];
    var e := Start(names, x, ds, r);
    assert t != [d.name] by { assert [d.name] in KeysFrom(ds, k); }
    AllStep(names, x, ds, e, i - 1, t);
    Step(names, x, ds, r, e, 0, i - 1, t);
    if i - 1 == k {
      StaysAhead(names, ds, r, t, k);
      CountedWrites(names, t, None, ds[k].init);
    } else {
      LeftAssigns(names, ds, r, t, k, i - 1);
    }
  }

  lemma AssignsLeftOut(names: Names, ds: seq<Decl>, r: set<string>, t: Path, k: nat)
    requires DistinctNames(ds) && MentionsEarlier(names, ds) && LeftPure(names, ds, r) && NoneEarly(names, ds, r)
    requires k < |ds| && ds[k].name !in r && t in Writes(names, ds[k].init)
    ensures !AlwaysAgrees(names, ds, r)
  {
    hide Eval, Summing, Start, After, Writes, AlwaysAgrees, Mentions;
    var x := Probe({t}, {t}, None);
    var e := Start(names, x, ds, r);
    assert t in Mentions(names, ds[k].init) by {
      if t !in Mentions(names, ds[k].init) {
        CountedBodies(names, t, ds[k].init);
        Uncounted(names, Probe({}, {t}, None), ds[k].init, t);
      }
    }
    LeftAssigns(names, ds, r, t, k, |ds|);
    StartFolded(names, x, ds, r);
    SameAlways(e, KeysFrom(ds, 0));
    Differ(names, x, ds, r, e, e, 0, 0, t);
  }

  // ------------------------------------------------------------------ the exact condition

  lemma {:induction false} DirtyMember(names: Names, ds: seq<Decl>, r: set<string>, k: nat, t: Path)
    requires k <= |ds| && t in Dirty(names, ds, r, k) && t !in KeysOf(r)
    ensures exists j :: 0 <= j < k && ds[j].name in r && t in Writes(names, ds[j].init)
  {
    if t in Dirty(names, ds, r, k - 1) {
      DirtyMember(names, ds, r, k - 1, t);
    }
  }

  /** Something that is left out is not apart, although it is pure. */
  lemma NotLeftApart(names: Names, ds: seq<Decl>, r: set<string>, k: nat)
    requires DistinctNames(ds) && MentionsEarlier(names, ds) && LeftPure(names, ds, r)
    requires k < |ds| && ds[k].name !in r && !LeftApart(names, ds, r, k)
    ensures !AlwaysAgrees(names, ds, r)
  {
    hide AlwaysAgrees, Writes, Mentions, HasCall, MentionsEarlier;
    if !NoneEarly(names, ds, r) {
      var j, i :| 0 <= j < i < |ds| && ds[j].name in r && ds[i].name !in r && [ds[i].name] in Writes(names, ds[j].init);
      SetTooEarly(names, ds, r, i, j);
    } else if Writes(names, ds[k].init) != {} {
      var t :| t in Writes(names, ds[k].init);
      AssignsLeftOut(names, ds, r, t, k);
    } else {
      var t :| t in Mentions(names, ds[k].init) + {[ds[k].name]} && t in Dirty(names, ds, r, k);
      KeyOfName(r, ds[k].name);
      DirtyMember(names, ds, r, k, t);
      var j :| 0 <= j < k && ds[j].name in r && t in Writes(names, ds[j].init);
      ReadsAssigned(names, ds, r, t, j, k);
    }
  }

  /** For any set that has the seeds, exactly when what is left out is kept apart from it do the
      emitted assignments always end where every initializer in order ends. */
  lemma EmittedExact(names: Names, ds: seq<Decl>, r: set<string>)
    requires SeedsIn(ds, r) && r <= NamesOf(ds) && DistinctNames(ds) && MentionsEarlier(names, ds)
    ensures KeptApart(names, ds, r) <==> AlwaysAgrees(names, ds, r)
  {
    hide MentionsEarlier, SeedsIn, HasCall, Mentions, FoldedRight, SameBut, Run, Emitted, LeftApart, KeysFrom, SeenBy;
    if KeptApart(names, ds, r) {
      forall sem: Semantics, initial: Store, elaborated: Store, w0: int, w: int |
        sem.names == names && FoldedRight(sem, ds, r, elaborated, w0) && SameBut(initial, elaborated, KeysFrom(ds, 0))
        ensures Run(sem, ds, initial, w) == Run(sem, Emitted(ds, r), elaborated, w)
      {
        EmittedIsEnough(sem, ds, r, initial, elaborated, w0, w);
      }
    } else {
      hide AlwaysAgrees;
      NotApart(names, ds, r);
    }
  }

  lemma NotApart(names: Names, ds: seq<Decl>, r: set<string>)
    requires r <= NamesOf(ds) && DistinctNames(ds) && MentionsEarlier(names, ds) && !KeptApart(names, ds, r)
    ensures !AlwaysAgrees(names, ds, r)
  {
    hide AlwaysAgrees, MentionsEarlier, HasCall, Mentions, LeftApart, SeenBy;
    if !LeftPure(names, ds, r) {
      var k :| 0 <= k < |ds| && ds[k].name !in r && (HasCall(ds[k].init) || !(Mentions(names, ds[k].init) !! KeysOf(r)));
      LeftOutStale(names, ds, r, k);
    } else {
      var k :| 0 <= k < |ds| && !(if ds[k].name in r then SeenBy(names, ds[k].init) !! KeysFrom(ds, k) else LeftApart(names, ds, r, k));
      if ds[k].name in r {
        var t :| t in SeenBy(names, ds[k].init) && t in KeysFrom(ds, k);
        var m :| k <= m < |ds| && t == [ds[m].name];
        SeenTooEarly(names, ds, r, k, m);
      } else {
        NotLeftApart(names, ds, r, k);
      }
    }
  }

  /** Exactly when what the loop leaves out is kept apart from its set. */
  lemma ReissueExact(sc: Scope, names: Names, ds: seq<Decl>, r: set<string>)
    requires HasSeed(ds) && Reissued(sc, ds, r)
    requires DistinctNames(ds) && MentionsEarlier(names, ds)
    ensures KeptApart(names, ds, r) <==> AlwaysAgrees(names, ds, r)
  {
    LeftOut(sc, ds, r);
    EmittedExact(names, ds, r);
  }
}
