/** The installed list runs the re-issued assignments first, and the initializers of unpacked
    arrays, which are never candidates, behind them: when that ends where declaration order ends. */
module InitOrder {
  import opened Results
  import opened StaticInit
  import opened InitRuns
  import opened InitLimits

  /** Two declarations that may change places: neither sets what the other reads or sets, and not
      both look at the simulation state. */
  predicate Separate(names: Names, a: Decl, b: Decl) {
    var sa, sb := Writes(names, a.init) + {[a.name]}, Writes(names, b.init) + {[b.name]};
    sa !! sb && Reads(names, a.init) !! sb && Reads(names, b.init) !! sa && (Timeless(a.init) || Timeless(b.init))
  }

  /** What runs late is separate from everything behind it that runs before it instead. */
  predicate InOrder(names: Names, ds: seq<Decl>, r: set<string>, late: set<string>) {
    forall a, j :: 0 <= a < j < |ds| && ds[a].name in late && ds[j].name in r ==> Separate(names, ds[a], ds[j])
  }

  /** The declarations of the installed list, in its order. */
  function Installed(ds: seq<Decl>, r: set<string>, late: set<string>): seq<Decl> {
    Emitted(ds, r) + Emitted(ds, late)
  }

  // ---------------------------------------------------------------- changing places

  lemma AfterOther(sem: Semantics, b: Decl, s: Store, t: Store, sa: set<Path>, w: int, w': int)
    requires SameBut(s, t, sa) && Reads(sem.names, b.init) !! sa && (w == w' || Timeless(b.init))
    ensures var x, y := Eval(sem, b.init, s, w), Eval(sem, b.init, t, w');
      x.value == y.value && SameBut(x.store, y.store, sa) && x.world - w == y.world - w'
  {
    hide Eval, Timeless, Reads, SameBut;
    EvalLocal(sem, b.init, s, t, sa, w);
    if w != w' {
      EvalTimeless(sem, b.init, t, w, w');
      EvalTimeless(sem, b.init, t, w', w');
    }
  }

  /** `b` after `a`, against `a` after `b`. */
  lemma Swap(sem: Semantics, a: Decl, b: Decl, s: Store, w: int)
    requires Separate(sem.names, a, b)
    ensures Run(sem, [a] + ([b] + []), s, w) == Run(sem, [b] + ([a] + []), s, w)
  {
    hide Run;
    hide Eval, Timeless, Reads, Writes;
    var sa, sb := Writes(sem.names, a.init) + {[a.name]}, Writes(sem.names, b.init) + {[b.name]};
    var a1, b1 := Eval(sem, a.init, s, w), Eval(sem, b.init, s, w);
    var s1, t1 := a1.store[[a.name] := a1.value], b1.store[[b.name] := b1.value];
    var b2, a2 := Eval(sem, b.init, s1, a1.world), Eval(sem, a.init, t1, b1.world);
    EvalWrites(sem, a.init, s, w, sa);
    EvalWrites(sem, b.init, s, w, sb);
    EvalWrites(sem, b.init, s1, a1.world, sb);
    EvalWrites(sem, a.init, t1, b1.world, sa);
    TimelessWorld(sem, a.init, s, w);
    TimelessWorld(sem, b.init, s, w);
    AfterOther(sem, b, s1, s, sa, a1.world, w);
    AfterOther(sem, a, t1, s, sb, b1.world, w);
    RunOne(sem, a, [b] + [], s, w);
    RunOne(sem, b, [], s1, a1.world);
    RunOne(sem, b, [a] + [], s, w);
    RunOne(sem, a, [], t1, b1.world);
    SameResult(a, b, s, sa, sb, a1, b1, a2, b2);
    RunNone(sem, b2.store[[b.name] := b2.value], b2.world);
    RunNone(sem, a2.store[[a.name] := a2.value], a2.world);
  }

  lemma TimelessWorld(sem: Semantics, e: Expr, s: Store, w: int)
    ensures Timeless(e) ==> Eval(sem, e, s, w).world == w
  {
    if Timeless(e) { EvalTimeless(sem, e, s, w, w); }
  }

  lemma SameResult(a: Decl, b: Decl, s: Store, sa: set<Path>, sb: set<Path>, a1: Outcome, b1: Outcome, a2: Outcome, b2: Outcome)
    requires sa !! sb && [a.name] in sa && [b.name] in sb
    requires SameBut(a1.store, s, sa) && SameBut(b1.store, s, sb) && a1.value == a2.value && b1.value == b2.value
    requires SameBut(b2.store, a1.store[[a.name] := a1.value], sb) && SameBut(a2.store, b1.store[[b.name] := b1.value], sa)
    requires SameBut(b2.store, b1.store, sa) && SameBut(a2.store, a1.store, sb)
    ensures b2.store[[b.name] := b2.value] == a2.store[[a.name] := a2.value]
  {
    var f, g := b2.store[[b.name] := b2.value], a2.store[[a.name] := a2.value];
    forall p ensures (p in f <==> p in g) && (p in f ==> f[p] == g[p]) {
      if p !in sa && p !in sb {
        assert p in f <==> p in s;
      }
    }
  }

  lemma {:induction false} RunThen(sem: Semantics, a: seq<Decl>, b: seq<Decl>, s: Store, w: int)
    ensures Run(sem, a + b, s, w) == Run(sem, b, Run(sem, a, s, w).0, Run(sem, a, s, w).1)
  {
    hide Eval;
    if a == [] {
      assert a + b == b;
    } else {
      var o := Eval(sem, a[0].init, s, w);
      assert (a + b)[1..] == a[1..] + b && (a + b)[0] == a[0];
      RunThen(sem, a[1..], b, o.store[[a[0].name] := o.value], o.world);
    }
  }

  /** A declaration moves behind others that it is separate from. */
  lemma {:induction false} MovesBehind(sem: Semantics, a: Decl, bs: seq<Decl>, s: Store, w: int)
    requires forall k :: 0 <= k < |bs| ==> Separate(sem.names, a, bs[k])
    ensures Run(sem, [a] + bs, s, w) == Run(sem, bs + [a], s, w)
  {
    hide Separate, Run;
    if bs == [] {
      assert [a] + bs == bs + [a];
    } else {
      var b, rest := bs[0], bs[1..];
      Swap(sem, a, b, s, w);
      RunThen(sem, [a] + ([b] + []), rest, s, w);
      RunThen(sem, [b] + ([a] + []), rest, s, w);
      assert [a] + bs == ([a] + ([b] + [])) + rest;
      RunOneBefore(sem, b, [a], rest, s, w);
      var o := Eval(sem, b.init, s, w);
      var t := o.store[[b.name] := o.value];
      MovesBehind(sem, a, rest, t, o.world);
      RunOne(sem, b, rest + [a], s, w);
      assert bs + [a] == [b] + (rest + [a]);
    }
  }

  lemma RunOneBefore(sem: Semantics, b: Decl, a: seq<Decl>, rest: seq<Decl>, s: Store, w: int)
    ensures var o := Eval(sem, b.init, s, w);
      Run(sem, ([b] + (a + [])) + rest, s, w) == Run(sem, a + rest, o.store[[b.name] := o.value], o.world)
  {
    assert ([b] + (a + [])) + rest == [b] + (a + rest);
    RunOne(sem, b, a + rest, s, w);
  }

  lemma {:induction false} EmittedFrom(ds: seq<Decl>, r: set<string>, k: nat)
    ensures k < |Emitted(ds, r)| ==> exists j :: 0 <= j < |ds| && ds[j].name in r && ds[j] == Emitted(ds, r)[k]
  {
    if ds != [] && k < |Emitted(ds, r)| && !(ds[0].name in r && k == 0) {
      var i := if ds[0].name in r then k - 1 else k;
      EmittedFrom(ds[1..], r, i);
      var j :| 0 <= j < |ds[1..]| && ds[1..][j].name in r && ds[1..][j] == Emitted(ds[1..], r)[i];
      assert ds[j + 1] == ds[1..][j];
    }
  }

  lemma InOrderTail(names: Names, ds: seq<Decl>, r: set<string>, late: set<string>)
    requires ds != [] && InOrder(names, ds, r, late)
    ensures InOrder(names, ds[1..], r, late)
    ensures ds[0].name in late ==> forall k :: 0 <= k < |Emitted(ds[1..], r)| ==> Separate(names, ds[0], Emitted(ds[1..], r)[k])
  {
    hide Separate;
    var rest := ds[1..];
    forall a, j | 0 <= a < j < |rest| && rest[a].name in late && rest[j].name in r ensures Separate(names, rest[a], rest[j]) {
      assert rest[a] == ds[a + 1] && rest[j] == ds[j + 1];
    }
    forall k | 0 <= k < |Emitted(rest, r)| && ds[0].name in late ensures Separate(names, ds[0], Emitted(rest, r)[k]) {
      EmittedFrom(rest, r, k);
      var j :| 0 <= j < |rest| && rest[j].name in r && rest[j] == Emitted(rest, r)[k];
      assert rest[j] == ds[j + 1];
    }
  }

  lemma InstalledOne(d: Decl, rest: seq<Decl>, r: set<string>, late: set<string>)
    requires r !! late
    ensures var x, y := Emitted(rest, r), Emitted(rest, late);
      Installed([d] + rest, r, late) == if d.name in r then [d] + (x + y) else if d.name in late then (x + [d]) + y else x + y
  {
    hide Emitted;
    EmittedOne(d, rest, r);
    EmittedOne(d, rest, late);
    var x, y := Emitted(rest, r), Emitted(rest, late);
    assert ([d] + x) + y == [d] + (x + y);
    assert x + ([d] + y) == (x + [d]) + y;
  }

  lemma MovesIn(sem: Semantics, d: Decl, x: seq<Decl>, y: seq<Decl>, s: Store, w: int)
    requires forall k :: 0 <= k < |x| ==> Separate(sem.names, d, x[k])
    ensures Run(sem, [d] + (x + y), s, w) == Run(sem, (x + [d]) + y, s, w)
  {
    hide Run, Separate;
    MovesBehind(sem, d, x, s, w);
    RunThen(sem, [d] + x, y, s, w);
    RunThen(sem, x + [d], y, s, w);
    assert [d] + (x + y) == ([d] + x) + y;
  }

  /** Everything that runs, in declaration order and in the order of the installed list. */
  lemma {:induction false} SameInOrder(sem: Semantics, ds: seq<Decl>, r: set<string>, late: set<string>, s: Store, w: int)
    requires r !! late && InOrder(sem.names, ds, r, late)
    ensures Run(sem, Emitted(ds, r + late), s, w) == Run(sem, Installed(ds, r, late), s, w)
    decreases |ds|
  {
    if ds == [] {
      assert Installed(ds, r, late) == Emitted(ds, r + late);
    } else {
      var d, rest := ds[0], ds[1..];
      InOrderTail(sem.names, ds, r, late);
      assert ds == [d] + rest;
      EmittedOne(d, rest, r + late);
      InstalledOne(d, rest, r, late);
      hide Run, Emitted, Separate, InOrder, Eval;
      if d.name in r + late {
        var o := Eval(sem, d.init, s, w);
        SameInOrder(sem, rest, r, late, o.store[[d.name] := o.value], o.world);
        RunOne(sem, d, Emitted(rest, r + late), s, w);
        RunOne(sem, d, Emitted(rest, r) + Emitted(rest, late), s, w);
        if d.name in late { MovesIn(sem, d, Emitted(rest, r), Emitted(rest, late), s, w); }
      } else {
        SameInOrder(sem, rest, r, late, s, w);
      }
    }
  }

  /** The installed list, run over the elaborated variables, ends where all initializers in
      declaration order end. */
  lemma InstalledIsEnough(sem: Semantics, ds: seq<Decl>, r: set<string>, late: set<string>, initial: Store, elaborated: Store, w0: int, w: int)
    requires MentionsEarlier(sem.names, ds) && r !! late
    requires SeedsIn(ds, r + late) && KeptApart(sem.names, ds, r + late) && InOrder(sem.names, ds, r, late)
    requires FoldedRight(sem, ds, r + late, elaborated, w0) && SameBut(initial, elaborated, KeysFrom(ds, 0))
    ensures Run(sem, ds, initial, w) == Run(sem, Installed(ds, r, late), elaborated, w)
  {
    EmittedIsEnough(sem, ds, r + late, initial, elaborated, w0, w);
    SameInOrder(sem, ds, r, late, elaborated, w);
  }

  ghost predicate InstalledAgrees(names: Names, ds: seq<Decl>, r: set<string>, late: set<string>) {
    forall sem: Semantics, initial: Store, elaborated: Store, w0: int, w: int ::
      sem.names == names && FoldedRight(sem, ds, r + late, elaborated, w0)
      && SameBut(initial, elaborated, KeysFrom(ds, 0)) ==>
      Run(sem, ds, initial, w) == Run(sem, Installed(ds, r, late), elaborated, w)
  }

  // ---------------------------------------------------------------- and only then

  /** What runs late does nothing but compute its value. */
  predicate LateQuiet(names: Names, ds: seq<Decl>, late: set<string>) {
    forall k :: 0 <= k < |ds| && ds[k].name in late ==> Quiet(names, ds[k].init)
  }

  /** The setting of the following lemmas: everything is in order but the places. */
  ghost predicate Setting(names: Names, ds: seq<Decl>, r: set<string>, late: set<string>) {
    && DistinctNames(ds) && MentionsEarlier(names, ds) && SeedsIn(ds, r + late) && KeptApart(names, ds, r + late)
    && r !! late && late <= NamesOf(ds) && LateQuiet(names, ds, late)
  }

  lemma SettingPure(names: Names, ds: seq<Decl>, r: set<string>, late: set<string>)
    requires Setting(names, ds, r, late)
    ensures LeftPure(names, ds, r + late)
  {
    forall k | 0 <= k < |ds| && ds[k].name !in r + late
      ensures !HasCall(ds[k].init) && Mentions(names, ds[k].init) !! KeysOf(r + late)
    {
      DirtyGrows(names, ds, r + late, k);
      assert LeftApart(names, ds, r + late, k);
    }
  }

  /** The two phases of the installed list. */
  function Early(names: Names, x: Probe, ds: seq<Decl>, r: set<string>, e: Store, k: nat): Store
    requires k <= |ds|
  {
    After(names, x, ds, r, e, 0, k)
  }

  function Behind(names: Names, x: Probe, ds: seq<Decl>, r: set<string>, late: set<string>, e: Store, k: nat): Store
    requires k <= |ds|
  {
    After(names, x, ds, late, Early(names, x, ds, r, e, |ds|), 0, k)
  }

  lemma DifferInstalled(names: Names, x: Probe, ds: seq<Decl>, r: set<string>, late: set<string>, s: Store, e: Store, p: Path)
    requires Setting(names, ds, r, late)
    requires FoldedRight(Summing(names, x), ds, r + late, s, 0) && FoldedRight(Summing(names, x), ds, r + late, e, 0)
    requires SameBut(s, e, KeysFrom(ds, 0))
    requires Look(After(names, x, ds, r + late, s, 0, |ds|), p) != Look(Behind(names, x, ds, r, late, e, |ds|), p)
    ensures !InstalledAgrees(names, ds, r, late)
  {
    var sem := Summing(names, x);
    SameAlways(s, KeysFrom(ds, 0));
    assert sem.names == names;
    EmittedIsEnough(sem, ds, r + late, s, s, 0, 0);
    RunsTo(names, x, ds, r + late, s, 0, 0);
    RunsTo(names, x, ds, r, e, 0, 0);
    RunsTo(names, x, ds, late, Early(names, x, ds, r, e, |ds|), 0, 0);
    RunThen(sem, Emitted(ds, r), Emitted(ds, late), e, 0);
    assert ds[0..] == ds;
    NothingRun(names, x, ds, r + late, s);
    NothingRun(names, x, ds, r, e);
    NothingRun(names, x, ds, late, Early(names, x, ds, r, e, |ds|));
    hide FoldedRight, SameBut, After, Run, Emitted, Summing, KeysFrom, Setting, Look;
    assert Run(sem, ds, s, 0) != Run(sem, Installed(ds, r, late), e, 0);
  }

  lemma {:induction false} NotWritten(names: Names, x: Probe, e: Expr, p: Path)
    requires p !in Writes(names, e)
    ensures Count(names, x, e, p) == 0
    decreases e, |Parts(e)| + 1
  {
    hide Outs;
    NotWrittenFrom(names, x, e, 0, p);
  }

  lemma {:induction false} NotWrittenFrom(names: Names, x: Probe, e: Expr, k: nat, p: Path)
    requires k <= |Parts(e)| && forall j :: 0 <= j < |Parts(e)| ==> p !in Writes(names, Parts(e)[j])
    ensures CountFrom(names, x, e, k, p) == 0
    decreases e, |Parts(e)| - k
  {
    hide Writes;
    if k < |Parts(e)| {
      NotWritten(names, x, Parts(e)[k], p);
      NotWrittenFrom(names, x, e, k + 1, p);
    }
  }

  // ------------------------------------- a re-issued initializer reads an array in front of it

  /** Elaborated values one above what the run in declaration order gives. */
  function Peaks(names: Names, x: Probe, ds: seq<Decl>, r: set<string>): (high: seq<int>)
    ensures |high| == |ds|
  {
    seq(|ds|, k requires 0 <= k < |ds| => Look(After(names, x, ds, r, Start(names, x, ds, r), 0, k + 1), [ds[k].name]) + 1)
  }

  function High(names: Names, x: Probe, ds: seq<Decl>, r: set<string>): Store {
    Elab(names, x, ds, r, Peaks(names, x, ds, r), 0, |ds|)
  }

  /** What is left out has the same elaborated values whatever those of the others are. */
  lemma {:induction false} ElabApart(names: Names, x: Probe, ds: seq<Decl>, r: set<string>, high: seq<int>, other: seq<int>, k: nat, p: Path)
    requires k <= |ds| == |high| == |other| && LeftPure(names, ds, r) && p !in KeysOf(r)
    ensures Look(Elab(names, x, ds, r, high, 0, k), p) == Look(Elab(names, x, ds, r, other, 0, k), p)
  {
    hide Eval, Summing, Mentions, HasCall;
    if k > 0 {
      var d := ds[k - 1];
      ElabApart(names, x, ds, r, high, other, k - 1, p);
      if d.name !in r {
        forall q | q in Mentions(names, d.init)
          ensures Look(Elab(names, x, ds, r, high, 0, k - 1), q) == Look(Elab(names, x, ds, r, other, 0, k - 1), q)
        {
          ElabApart(names, x, ds, r, high, other, k - 1, q);
        }
        SummingSame(names, x, d.init, Elab(names, x, ds, r, high, 0, k - 1), Elab(names, x, ds, r, other, 0, k - 1), 0);
      } else {
        KeyOfName(r, d.name);
      }
    }
  }

  /** The run in declaration order starts from 0, the installed one from the peaks. */
  ghost predicate Peaked(names: Names, ds: seq<Decl>, r: set<string>, late: set<string>, a: nat, j: nat, i: nat)
    requires a < j < |ds| && i <= |ds|
  {
    var t := [ds[a].name];
    var x := Probe({}, {}, Some(t));
    var f, g := After(names, x, ds, r + late, Start(names, x, ds, r + late), 0, i), Early(names, x, ds, r, High(names, x, ds, r + late), i);
    && (forall p :: p !in KeysFrom(ds, i) ==> Look(f, p) <= Look(g, p))
    && (a < i ==> Look(f, t) < Look(g, t))
    && (j < i ==> Look(f, [ds[j].name]) < Look(g, [ds[j].name]))
  }

  lemma PeakedAgain(names: Names, ds: seq<Decl>, r: set<string>, late: set<string>, a: nat, j: nat, k: nat)
    requires MentionsEarlier(names, ds) && KeptApart(names, ds, r + late) && a < j < |ds| && k < |ds| && ds[k].name in r
    requires [ds[a].name] in Reads(names, ds[j].init) && Peaked(names, ds, r, late, a, j, k)
    ensures var x, key := Probe({}, {}, Some([ds[a].name])), [ds[k].name];
      var f := After(names, x, ds, r + late, Start(names, x, ds, r + late), 0, k + 1);
      var g := Early(names, x, ds, r, High(names, x, ds, r + late), k + 1);
      Look(f, key) <= Look(g, key) && (k == j ==> Look(f, key) < Look(g, key))
  {
    hide Eval, Summing, Start, After, HasCall, Reads, MentionsEarlier, KeptApart, High, LooksAt;
    var x, key, init := Probe({}, {}, Some([ds[a].name])), [ds[k].name], ds[k].init;
    var all := r + late;
    var s, e := Start(names, x, ds, all), High(names, x, ds, all);
    EarlierReads(names, ds, all, k);
    Step(names, x, ds, all, s, 0, k, key);
    Step(names, x, ds, r, e, 0, k, key);
    ReadsLooks(names, x, init);
    var f, g := After(names, x, ds, all, s, 0, k), Early(names, x, ds, r, e, k);
    if k == j { ReadRaises(names, x, init, f, g); }
    SummingGrows(names, x, init, Reads(names, init), f, g, 0, 0);
  }

  lemma PeakedLate(names: Names, x: Probe, ds: seq<Decl>, r: set<string>, late: set<string>, k: nat)
    requires DistinctNames(ds) && r !! late && k < |ds| && ds[k].name in late && x.outs == x.sets == {}
    ensures var key := [ds[k].name];
      Look(After(names, x, ds, r + late, Start(names, x, ds, r + late), 0, k + 1), key)
      < Look(Early(names, x, ds, r, High(names, x, ds, r + late), k + 1), key)
  {
    hide Eval, Summing, Start, After;
    var all, key := r + late, [ds[k].name];
    RunKeeps(names, x, ds, r, High(names, x, ds, all), 0, k + 1, ds[k].name);
    FreshKey(ds, k);
    ElabKeeps(names, x, ds, all, Peaks(names, x, ds, all), 0, k + 1, |ds|, key);
  }

  lemma PeakedLeft(names: Names, x: Probe, ds: seq<Decl>, r: set<string>, late: set<string>, k: nat)
    requires LeftPure(names, ds, r + late) && k < |ds| && ds[k].name !in r + late && x.outs == x.sets == {}
    ensures var key := [ds[k].name];
      Look(After(names, x, ds, r + late, Start(names, x, ds, r + late), 0, k + 1), key)
      == Look(Early(names, x, ds, r, High(names, x, ds, r + late), k + 1), key)
  {
    hide Eval, Summing, After, Elab, LeftPure;
    var all, key := r + late, [ds[k].name];
    KeyOfName(all, ds[k].name);
    RunKeeps(names, x, ds, r, High(names, x, ds, all), 0, k + 1, ds[k].name);
    RunKeeps(names, x, ds, all, Start(names, x, ds, all), 0, k + 1, ds[k].name);
    ElabApart(names, x, ds, all, seq(|ds|, _ => 0), Peaks(names, x, ds, all), |ds|, key);
  }

  ghost predicate Comparable(names: Names, ds: seq<Decl>, r: set<string>, late: set<string>, a: nat, j: nat, k: nat)
    requires a < j < |ds| && k < |ds|
  {
    var x, key := Probe({}, {}, Some([ds[a].name])), [ds[k].name];
    var f := After(names, x, ds, r + late, Start(names, x, ds, r + late), 0, k + 1);
    var g := Early(names, x, ds, r, High(names, x, ds, r + late), k + 1);
    Look(f, key) <= Look(g, key) && (k == a || k == j ==> Look(f, key) < Look(g, key))
  }

  /** At declaration `k` its own variable becomes comparable. */
  lemma PeakedHere(names: Names, ds: seq<Decl>, r: set<string>, late: set<string>, a: nat, j: nat, k: nat)
    requires Setting(names, ds, r, late) && a < j < |ds| && ds[a].name in late && ds[j].name in r
    requires [ds[a].name] in Reads(names, ds[j].init) && k < |ds| && Peaked(names, ds, r, late, a, j, k)
    ensures Comparable(names, ds, r, late, a, j, k)
  {
    hide Peaked, After, Early, Start, High, Reads, Mentions, MentionsEarlier, KeptApart, LeftPure;
    if ds[k].name in r {
      PeakedAgain(names, ds, r, late, a, j, k);
      assert k != a;
    } else if ds[k].name in late {
      PeakedLate(names, Probe({}, {}, Some([ds[a].name])), ds, r, late, k);
    } else {
      SettingPure(names, ds, r, late);
      PeakedLeft(names, Probe({}, {}, Some([ds[a].name])), ds, r, late, k);
    }
  }

  lemma EarlierReads(names: Names, ds: seq<Decl>, r: set<string>, k: nat)
    requires MentionsEarlier(names, ds) && KeptApart(names, ds, r) && k < |ds| && ds[k].name in r
    ensures Reads(names, ds[k].init) !! KeysFrom(ds, k)
  {
  }

  lemma ReadsLooks(names: Names, x: Probe, e: Expr)
    ensures LooksAt(names, x, e, Reads(names, e))
  {
  }

  lemma ReadRaises(names: Names, x: Probe, e: Expr, f: Store, g: Store)
    requires x.seen.Some? && x.seen.value in Reads(names, e) && Look(f, x.seen.value) < Look(g, x.seen.value)
    ensures Raised(names, x, e, f, g, 0, 0)
  {
  }

  lemma PeakedFirst(names: Names, ds: seq<Decl>, r: set<string>, late: set<string>, a: nat, j: nat)
    requires a < j < |ds|
    ensures Peaked(names, ds, r, late, a, j, 0)
  {
    hide Eval, Summing, After;
    var x := Probe({}, {}, Some([ds[a].name]));
    var all := r + late;
    var s, e := Start(names, x, ds, all), High(names, x, ds, all);
    NothingRun(names, x, ds, all, s);
    NothingRun(names, x, ds, r, e);
    forall p | p !in KeysFrom(ds, 0) ensures Look(s, p) <= Look(e, p) {
      ElabKeeps(names, x, ds, all, seq(|ds|, _ => 0), 0, 0, |ds|, p);
      ElabKeeps(names, x, ds, all, Peaks(names, x, ds, all), 0, 0, |ds|, p);
    }
  }

  lemma {:induction false} StaysPeaked(names: Names, ds: seq<Decl>, r: set<string>, late: set<string>, a: nat, j: nat, i: nat)
    requires Setting(names, ds, r, late) && a < j < |ds| && ds[a].name in late && ds[j].name in r
    requires [ds[a].name] in Reads(names, ds[j].init) && i <= |ds|
    ensures Peaked(names, ds, r, late, a, j, i)
  {
    hide *;
    if i > 0 {
      SettingDistinct(names, ds, r, late);
      StaysPeaked(names, ds, r, late, a, j, i - 1);
      PeakedHere(names, ds, r, late, a, j, i - 1);
      PeakedStep(names, ds, r, late, a, j, i - 1);
    } else {
      PeakedFirst(names, ds, r, late, a, j);
    }
  }

  lemma PeakedStep(names: Names, ds: seq<Decl>, r: set<string>, late: set<string>, a: nat, j: nat, k: nat)
    requires a < j < |ds| && k < |ds| && DistinctNames(ds) && Peaked(names, ds, r, late, a, j, k)
    requires Comparable(names, ds, r, late, a, j, k)
    ensures Peaked(names, ds, r, late, a, j, k + 1)
  {
    hide Eval, Summing, Start, After, High;
    var x := Probe({}, {}, Some([ds[a].name]));
    var all := r + late;
    var s, e := Start(names, x, ds, all), High(names, x, ds, all);
    KeysStep(ds, k);
    forall p | p != [ds[k].name]
      ensures Look(After(names, x, ds, all, s, 0, k + 1), p) == Look(After(names, x, ds, all, s, 0, k), p)
      ensures Look(Early(names, x, ds, r, e, k + 1), p) == Look(Early(names, x, ds, r, e, k), p)
    {
      Step(names, x, ds, all, s, 0, k, p);
      Step(names, x, ds, r, e, 0, k, p);
      Uncounted(names, x, ds[k].init, p);
    }
    if k != a { OtherKey(ds, k, a); }
    if k != j { OtherKey(ds, k, j); }
  }

  lemma ReadsLate(names: Names, ds: seq<Decl>, r: set<string>, late: set<string>, a: nat, j: nat)
    requires Setting(names, ds, r, late) && a < j < |ds| && ds[a].name in late && ds[j].name in r
    requires [ds[a].name] in Reads(names, ds[j].init)
    ensures !InstalledAgrees(names, ds, r, late)
  {
    var x, key := Probe({}, {}, Some([ds[a].name])), [ds[j].name];
    var all := r + late;
    var s, e := Start(names, x, ds, all), High(names, x, ds, all);
    StaysPeaked(names, ds, r, late, a, j, |ds|);
    SettingPure(names, ds, r, late);
    StartFolded(names, x, ds, all);
    ElabFolded(names, x, ds, all, Peaks(names, x, ds, all), 0);
    ElabFolded(names, x, ds, all, seq(|ds|, _ => 0), 0);
    SameStarts(s, e, KeysFrom(ds, 0));
    hide Eval, Summing, Start, After, High, FoldedRight, SameBut, InstalledAgrees, Setting, Reads;
    RunKeeps(names, x, ds, late, Early(names, x, ds, r, e, |ds|), 0, |ds|, ds[j].name);
    DifferInstalled(names, x, ds, r, late, s, e, key);
  }

  lemma SameStarts(s: Store, t: Store, ps: set<Path>)
    requires SameBut(map[], s, ps) && SameBut(map[], t, ps)
    ensures SameBut(s, t, ps)
  {
  }

  // ------------------------------------- without such readers

  predicate NoReaders(names: Names, ds: seq<Decl>, r: set<string>, late: set<string>) {
    forall a, j :: 0 <= a < j < |ds| && ds[a].name in late && ds[j].name in r ==> [ds[a].name] !in Reads(names, ds[j].init)
  }

  lemma NotRead(names: Names, ds: seq<Decl>, r: set<string>, late: set<string>, a: nat, j: nat)
    requires NoReaders(names, ds, r, late) && a < j < |ds| && ds[a].name in late && ds[j].name in r
    ensures [ds[a].name] !in Mentions(names, ds[j].init)
  {
    hide Mentions, SeenBy;
  }

  lemma LateUnmentioned(names: Names, ds: seq<Decl>, r: set<string>, late: set<string>, k: nat)
    requires MentionsEarlier(names, ds) && NoReaders(names, ds, r, late) && late <= NamesOf(ds) && k < |ds| && ds[k].name in r
    ensures Mentions(names, ds[k].init) !! KeysOf(late)
  {
    hide Mentions, Reads;
    forall a | 0 <= a < |ds| && ds[a].name in late ensures [ds[a].name] !in Mentions(names, ds[k].init) {
      if k <= a {
        assert [ds[a].name] in KeysFrom(ds, k);
      } else {
        NotRead(names, ds, r, late, a, k);
      }
    }
    forall n | n in late ensures [n] !in Mentions(names, ds[k].init) {
      assert n in NamesOf(ds);
    }
  }

  /** Then the first phase is the run in declaration order, as far as it goes. */
  lemma {:induction false} SameEarly(names: Names, x: Probe, ds: seq<Decl>, r: set<string>, late: set<string>, s: Store, i: nat, p: Path)
    requires Setting(names, ds, r, late) && NoReaders(names, ds, r, late) && x.seen.None? && i <= |ds| && p !in KeysOf(late)
    ensures Look(After(names, x, ds, r + late, s, 0, i), p) == Look(Early(names, x, ds, r, s, i), p)
  {
    hide Eval, Summing, Mentions, Setting, NoReaders;
    if i > 0 {
      var d := ds[i - 1];
      SameEarly(names, x, ds, r, late, s, i - 1, p);
      Step(names, x, ds, r + late, s, 0, i - 1, p);
      Step(names, x, ds, r, s, 0, i - 1, p);
      if d.name in r {
        forall q | q in Mentions(names, d.init)
          ensures Look(After(names, x, ds, r + late, s, 0, i - 1), q) == Look(Early(names, x, ds, r, s, i - 1), q)
        {
          SettingUnmentioned(names, ds, r, late, i - 1);
          SameEarly(names, x, ds, r, late, s, i - 1, q);
        }
        SummingSame(names, x, d.init, After(names, x, ds, r + late, s, 0, i - 1), Early(names, x, ds, r, s, i - 1), 0);
      } else if d.name in late {
        KeyOfName(late, d.name);
        SettingLate(names, ds, r, late, i - 1);
        NotWritten(names, x, d.init, p);
      }
    }
  }

  lemma SettingUnmentioned(names: Names, ds: seq<Decl>, r: set<string>, late: set<string>, k: nat)
    requires Setting(names, ds, r, late) && NoReaders(names, ds, r, late) && k < |ds| && ds[k].name in r
    ensures Mentions(names, ds[k].init) !! KeysOf(late)
  {
    LateUnmentioned(names, ds, r, late, k);
  }

  lemma SettingLate(names: Names, ds: seq<Decl>, r: set<string>, late: set<string>, k: nat)
    requires Setting(names, ds, r, late) && k < |ds| && ds[k].name in late
    ensures Writes(names, ds[k].init) == {} && !HasCall(ds[k].init)
    ensures Mentions(names, ds[k].init) !! KeysFrom(ds, k)
  {
  }

  lemma BehindStep(names: Names, x: Probe, ds: seq<Decl>, r: set<string>, late: set<string>, s: Store, k: nat, p: Path)
    requires k < |ds|
    ensures var t := Behind(names, x, ds, r, late, s, k);
      Look(Behind(names, x, ds, r, late, s, k + 1), p)
      == if ds[k].name !in late then Look(t, p)
         else if p == [ds[k].name] then Eval(Summing(names, x), ds[k].init, t, 0).value
         else Look(t, p) + Count(names, x, ds[k].init, p)
  {
    hide Early;
    Step(names, x, ds, late, Early(names, x, ds, r, s, |ds|), 0, k, p);
  }

  /** The second phase leaves everything else. */
  lemma {:induction false} BehindKeeps(names: Names, x: Probe, ds: seq<Decl>, r: set<string>, late: set<string>, s: Store, i: nat, p: Path)
    requires Setting(names, ds, r, late) && i <= |ds| && p !in KeysOf(late)
    ensures Look(Behind(names, x, ds, r, late, s, i), p) == Look(Early(names, x, ds, r, s, |ds|), p)
  {
    hide Eval, Summing, Setting, Early;
    if i > 0 {
      BehindKeeps(names, x, ds, r, late, s, i - 1, p);
      BehindStep(names, x, ds, r, late, s, i - 1, p);
      if ds[i - 1].name in late {
        KeyOfName(late, ds[i - 1].name);
        SettingLate(names, ds, r, late, i - 1);
        NotWritten(names, x, ds[i - 1].init, p);
      }
    }
  }

  /** A variable that is declared can only grow, and does where it is counted. */
  lemma {:induction false} Grows(names: Names, x: Probe, ds: seq<Decl>, r: set<string>, s: Store, k: nat, m: nat, p: Path)
    requires k <= m <= |ds| && p !in KeysFrom(ds, k)
    ensures Look(After(names, x, ds, r, s, 0, k), p) <= Look(After(names, x, ds, r, s, 0, m), p)
    ensures p !in x.outs + x.sets ==> Look(After(names, x, ds, r, s, 0, k), p) == Look(After(names, x, ds, r, s, 0, m), p)
    ensures (exists j :: k <= j < m && ds[j].name in r && Count(names, x, ds[j].init, p) > 0)
      ==> Look(After(names, x, ds, r, s, 0, k), p) < Look(After(names, x, ds, r, s, 0, m), p)
  {
    hide Eval, Summing, Count;
    if k < m {
      Grows(names, x, ds, r, s, k, m - 1, p);
      Step(names, x, ds, r, s, 0, m - 1, p);
      assert [ds[m - 1].name] in KeysFrom(ds, k);
      if p !in x.outs + x.sets { Uncounted(names, x, ds[m - 1].init, p); }
    }
  }

  // ------------------------------------- a subroutine sets an array in front of it

  /** Counts what subroutines assign to `t`. */
  function BodyOf(t: Path): Probe {
    Probe({}, {t}, None)
  }

  /** Counts every assignment to `t`. */
  function AllOf(t: Path): Probe {
    Probe({t}, {t}, None)
  }

  lemma ProbesOnly(t: Path)
    ensures BodyOf(t).seen.None? && AllOf(t).seen.None?
    ensures forall p :: p != t ==> p !in BodyOf(t).outs && p !in BodyOf(t).sets && p !in AllOf(t).outs && p !in AllOf(t).sets
  {
  }

  lemma BodyCounts(names: Names, t: Path, e: Expr)
    requires t in Writes(names, e) && t !in Mentions(names, e)
    ensures Count(names, BodyOf(t), e, t) > 0
  {
    CountedBodies(names, t, e);
  }

  lemma AllCounts(names: Names, t: Path, e: Expr)
    requires t in Writes(names, e)
    ensures Count(names, AllOf(t), e, t) > 0
  {
    CountedWrites(names, t, None, e);
  }

  /** What is behind declaration `k` does not change what `k` looks at, if it is not counted. */
  lemma LateLooks(names: Names, x: Probe, ds: seq<Decl>, r: set<string>, late: set<string>, s: Store, k: nat, p: Path)
    requires Setting(names, ds, r, late) && NoReaders(names, ds, r, late) && x.seen.None? && k < |ds|
    requires p !in KeysOf(late) && p !in KeysFrom(ds, k)
    ensures Look(After(names, x, ds, r + late, s, 0, k), p) <= Look(Behind(names, x, ds, r, late, s, k), p)
    ensures p !in x.outs + x.sets ==> Look(After(names, x, ds, r + late, s, 0, k), p) == Look(Behind(names, x, ds, r, late, s, k), p)
    ensures (exists j :: k <= j < |ds| && ds[j].name in r + late && Count(names, x, ds[j].init, p) > 0)
      ==> Look(After(names, x, ds, r + late, s, 0, k), p) < Look(Behind(names, x, ds, r, late, s, k), p)
  {
    hide *;
    Grows(names, x, ds, r + late, s, k, |ds|, p);
    SameEarly(names, x, ds, r, late, s, |ds|, p);
    BehindKeeps(names, x, ds, r, late, s, k, p);
  }

  lemma NotItself(ds: seq<Decl>, m: nat, k: nat)
    requires DistinctNames(ds) && m < k <= |ds|
    ensures [ds[m].name] !in KeysFrom(ds, k)
  {
    forall i | k <= i < |ds| ensures [ds[i].name] != [ds[m].name] {
      OtherKey(ds, i, m);
    }
  }

  /** Up to the counted declaration `a` the second phase gives the arrays the values of the run in
      declaration order. */
  lemma {:induction false} SameArrays(names: Names, ds: seq<Decl>, r: set<string>, late: set<string>, s: Store, a: nat, i: nat, m: nat)
    requires Setting(names, ds, r, late) && NoReaders(names, ds, r, late)
    requires m < i <= a < |ds| && ds[m].name in late
    ensures var x, p := BodyOf([ds[a].name]), [ds[m].name];
      Look(Behind(names, x, ds, r, late, s, i), p) == Look(After(names, x, ds, r + late, s, 0, m + 1), p)
    decreases i, 0
  {
    hide BodyOf, AllOf, Eval, Summing, Setting, NoReaders, After, Behind, DistinctNames, MentionsEarlier, KeysFrom;
    ProbesOnly([ds[a].name]);
    var x, p := BodyOf([ds[a].name]), [ds[m].name];
    SettingDistinct(names, ds, r, late);
    BehindStep(names, x, ds, r, late, s, i - 1, p);
    if m < i - 1 {
      SameArrays(names, ds, r, late, s, a, i - 1, m);
      OtherKey(ds, m, i - 1);
      OtherKey(ds, m, a);
      Uncounted(names, x, ds[i - 1].init, p);
    } else {
      Step(names, x, ds, r + late, s, 0, m, p);
      SameArrayValue(names, ds, r, late, s, a, m);
    }
  }

  lemma {:induction false} SameArrayValue(names: Names, ds: seq<Decl>, r: set<string>, late: set<string>, s: Store, a: nat, k: nat)
    requires Setting(names, ds, r, late) && NoReaders(names, ds, r, late) && k <= a < |ds| && ds[k].name in late
    ensures var x := BodyOf([ds[a].name]);
      Eval(Summing(names, x), ds[k].init, Behind(names, x, ds, r, late, s, k), 0).value
      == Eval(Summing(names, x), ds[k].init, After(names, x, ds, r + late, s, 0, k), 0).value
    decreases k, 1
  {
    hide BodyOf, AllOf, Eval, Summing, Setting, NoReaders, After, Behind, Mentions;
    ProbesOnly([ds[a].name]);
    var x := BodyOf([ds[a].name]);
    SettingLate(names, ds, r, late, k);
    forall p | p in Mentions(names, ds[k].init)
      ensures Look(Behind(names, x, ds, r, late, s, k), p) == Look(After(names, x, ds, r + late, s, 0, k), p)
    {
      assert p != [ds[a].name] by { assert [ds[a].name] in KeysFrom(ds, k); }
      if p in KeysOf(late) {
        var m := ArrayBefore(names, ds, r, late, k, p);
        SameArrays(names, ds, r, late, s, a, k, m);
        SettingDistinct(names, ds, r, late);
        NotItself(ds, m, m + 1);
        Grows(names, x, ds, r + late, s, m + 1, k, p);
      } else {
        LateLooks(names, x, ds, r, late, s, k, p);
      }
    }
    SummingSame(names, x, ds[k].init, Behind(names, x, ds, r, late, s, k), After(names, x, ds, r + late, s, 0, k), 0);
  }

  lemma SettingDistinct(names: Names, ds: seq<Decl>, r: set<string>, late: set<string>)
    requires Setting(names, ds, r, late)
    ensures DistinctNames(ds) && MentionsEarlier(names, ds)
  {
  }

  /** The late declaration of a variable that declaration `k` may look at. */
  lemma ArrayBefore(names: Names, ds: seq<Decl>, r: set<string>, late: set<string>, k: nat, p: Path) returns (m: nat)
    requires Setting(names, ds, r, late) && k <= |ds| && p in KeysOf(late) && p !in KeysFrom(ds, k)
    ensures m < k && ds[m].name in late && p == [ds[m].name]
  {
    hide MentionsEarlier, KeptApart, SeedsIn, LateQuiet, DistinctNames;
    var n :| n in late && p == [n];
    assert n in NamesOf(ds);
    m :| 0 <= m < |ds| && ds[m].name == n;
    if k <= m { assert false; }
  }

  /** A subroutine called behind an array assigns it. */
  lemma SetsLate(names: Names, ds: seq<Decl>, r: set<string>, late: set<string>, a: nat, j: nat)
    requires Setting(names, ds, r, late) && NoReaders(names, ds, r, late)
    requires a < j < |ds| && ds[a].name in late && ds[j].name in r && [ds[a].name] in Writes(names, ds[j].init)
    ensures !InstalledAgrees(names, ds, r, late)
  {
    hide BodyOf, AllOf, Eval, Summing, Start, After, FoldedRight, SameBut, InstalledAgrees, Setting, NoReaders, Behind, Early, DistinctNames;
    ProbesOnly([ds[a].name]);
    var t, all := [ds[a].name], r + late;
    var x := BodyOf(t);
    var s := Start(names, x, ds, all);
    NotRead(names, ds, r, late, a, j);
    BodyCounts(names, t, ds[j].init);
    SettingDistinct(names, ds, r, late);
    SettingPure(names, ds, r, late);
    StartFolded(names, x, ds, all);
    NotItself(ds, a, a + 1);
    Grows(names, x, ds, all, s, a + 1, |ds|, t);
    SetArray(names, ds, r, late, s, a, |ds|);
    SameAlways(s, KeysFrom(ds, 0));
    DifferInstalled(names, x, ds, r, late, s, s, t);
  }

  /** Behind it, nothing in the second phase changes it. */
  lemma {:induction false} SetArray(names: Names, ds: seq<Decl>, r: set<string>, late: set<string>, s: Store, a: nat, i: nat)
    requires Setting(names, ds, r, late) && NoReaders(names, ds, r, late) && a < i <= |ds| && ds[a].name in late
    ensures var x, t := BodyOf([ds[a].name]), [ds[a].name];
      Look(Behind(names, x, ds, r, late, s, i), t) == Look(After(names, x, ds, r + late, s, 0, a + 1), t)
    decreases i
  {
    hide BodyOf, AllOf, Eval, Summing, Setting, NoReaders, After, Behind, DistinctNames, MentionsEarlier, KeysFrom;
    ProbesOnly([ds[a].name]);
    var x, t := BodyOf([ds[a].name]), [ds[a].name];
    SettingDistinct(names, ds, r, late);
    BehindStep(names, x, ds, r, late, s, i - 1, t);
    if a < i - 1 {
      SetArray(names, ds, r, late, s, a, i - 1);
      OtherKey(ds, a, i - 1);
      if ds[i - 1].name in late {
        SettingLate(names, ds, r, late, i - 1);
        NotWritten(names, x, ds[i - 1].init, t);
      }
    } else {
      Step(names, x, ds, r + late, s, 0, a, t);
      SameArrayValue(names, ds, r, late, s, a, a);
    }
  }

  // ------------------------------------- an array reads what is assigned behind it

  /** All assignments to `t` counted, the arrays get no smaller values in the second phase. */
  lemma {:induction false} LargerArrays(names: Names, ds: seq<Decl>, r: set<string>, late: set<string>, s: Store, t: Path, i: nat, m: nat)
    requires Setting(names, ds, r, late) && NoReaders(names, ds, r, late) && t !in KeysOf(late)
    requires m < i <= |ds| && ds[m].name in late
    ensures var x, p := AllOf(t), [ds[m].name];
      && Look(After(names, x, ds, r + late, s, 0, m + 1), p) <= Look(Behind(names, x, ds, r, late, s, i), p)
      && (t in Mentions(names, ds[m].init) && (exists j :: m < j < |ds| && ds[j].name in r && t in Writes(names, ds[j].init))
          ==> Look(After(names, x, ds, r + late, s, 0, m + 1), p) < Look(Behind(names, x, ds, r, late, s, i), p))
    decreases i, 0
  {
    hide BodyOf, AllOf, Eval, Summing, Setting, NoReaders, After, DistinctNames, Mentions, Writes;
    ProbesOnly(t);
    var x, p := AllOf(t), [ds[m].name];
    SettingDistinct(names, ds, r, late);
    KeyOfName(late, ds[m].name);
    BehindStep(names, x, ds, r, late, s, i - 1, p);
    if m < i - 1 {
      LargerArrays(names, ds, r, late, s, t, i - 1, m);
      OtherKey(ds, m, i - 1);
      Uncounted(names, x, ds[i - 1].init, p);
    } else {
      Step(names, x, ds, r + late, s, 0, m, p);
      LargerArrayValue(names, ds, r, late, s, t, m);
    }
  }

  lemma {:induction false} LargerArrayValue(names: Names, ds: seq<Decl>, r: set<string>, late: set<string>, s: Store, t: Path, k: nat)
    requires Setting(names, ds, r, late) && NoReaders(names, ds, r, late) && t !in KeysOf(late) && k < |ds| && ds[k].name in late
    ensures var x := AllOf(t);
      var v := Eval(Summing(names, x), ds[k].init, After(names, x, ds, r + late, s, 0, k), 0).value;
      var v' := Eval(Summing(names, x), ds[k].init, Behind(names, x, ds, r, late, s, k), 0).value;
      && v <= v'
      && (t in Mentions(names, ds[k].init) && (exists j :: k < j < |ds| && ds[j].name in r && t in Writes(names, ds[j].init)) ==> v < v')
    decreases k, 2
  {
    hide BodyOf, AllOf, Eval, Summing, Setting, NoReaders, After, Behind, Mentions, Writes, LooksAt;
    ProbesOnly(t);
    var x, init := AllOf(t), ds[k].init;
    SettingLate(names, ds, r, late, k);
    var f, g := After(names, x, ds, r + late, s, 0, k), Behind(names, x, ds, r, late, s, k);
    forall p | p in Mentions(names, init) ensures Look(f, p) <= Look(g, p) {
      LargerOperand(names, ds, r, late, s, t, k, p);
    }
    OwnLooks(names, x, init);
    if t in Mentions(names, init) && exists j :: k < j < |ds| && ds[j].name in r && t in Writes(names, ds[j].init) {
      var j :| k < j < |ds| && ds[j].name in r && t in Writes(names, ds[j].init);
      AllCounts(names, t, ds[j].init);
      LateLooks(names, x, ds, r, late, s, k, t);
      assert Raised(names, x, init, f, g, 0, 0);
    }
    SummingGrows(names, x, init, Mentions(names, init), f, g, 0, 0);
  }

  lemma {:induction false} LargerOperand(names: Names, ds: seq<Decl>, r: set<string>, late: set<string>, s: Store, t: Path, k: nat, p: Path)
    requires Setting(names, ds, r, late) && NoReaders(names, ds, r, late) && t !in KeysOf(late)
    requires k < |ds| && p !in KeysFrom(ds, k)
    ensures var x := AllOf(t);
      Look(After(names, x, ds, r + late, s, 0, k), p) <= Look(Behind(names, x, ds, r, late, s, k), p)
    decreases k, 1
  {
    hide BodyOf, AllOf, Eval, Summing, Setting, NoReaders, After, Behind, Mentions, Writes;
    ProbesOnly(t);
    var x := AllOf(t);
    if p in KeysOf(late) {
      var m := ArrayBefore(names, ds, r, late, k, p);
      LargerArrays(names, ds, r, late, s, t, k, m);
      SettingDistinct(names, ds, r, late);
      NotItself(ds, m, m + 1);
      Grows(names, x, ds, r + late, s, m + 1, k, p);
    } else {
      LateLooks(names, x, ds, r, late, s, k, p);
    }
  }

  lemma ReadsAssignedBehind(names: Names, ds: seq<Decl>, r: set<string>, late: set<string>, t: Path, a: nat, j: nat)
    requires Setting(names, ds, r, late) && NoReaders(names, ds, r, late) && t !in KeysOf(late)
    requires a < j < |ds| && ds[a].name in late && ds[j].name in r
    requires t in Mentions(names, ds[a].init) && t in Writes(names, ds[j].init)
    ensures !InstalledAgrees(names, ds, r, late)
  {
    hide BodyOf, AllOf, Eval, Summing, Start, After, FoldedRight, SameBut, InstalledAgrees, Setting, NoReaders, Behind, Early, DistinctNames, Mentions, Writes;
    ProbesOnly(t);
    var x, p, all := AllOf(t), [ds[a].name], r + late;
    var s := Start(names, x, ds, all);
    SettingDistinct(names, ds, r, late);
    SettingPure(names, ds, r, late);
    StartFolded(names, x, ds, all);
    KeyOfName(late, ds[a].name);
    NotItself(ds, a, a + 1);
    Grows(names, x, ds, all, s, a + 1, |ds|, p);
    LargerArrays(names, ds, r, late, s, t, |ds|, a);
    SameAlways(s, KeysFrom(ds, 0));
    DifferInstalled(names, x, ds, r, late, s, s, p);
  }

  // ------------------------------------------------------------------ the exact condition

  lemma NotSeparate(names: Names, ds: seq<Decl>, r: set<string>, late: set<string>, a: nat, j: nat)
    requires Setting(names, ds, r, late) && a < j < |ds| && ds[a].name in late && ds[j].name in r
    requires !Separate(names, ds[a], ds[j]) && [ds[a].name] !in Reads(names, ds[j].init) + Writes(names, ds[j].init)
    ensures exists t :: t in Mentions(names, ds[a].init) && t in Writes(names, ds[j].init)
  {
    hide Mentions, Writes, SeenBy, Timeless;
    SettingLate(names, ds, r, late, a);
    OtherKey(ds, a, j);
    assert Quiet(names, ds[a].init);
    assert SeenBy(names, ds[a].init) == {} by {
      forall p ensures p !in SeenBy(names, ds[a].init) {
        NoCallNothingSeen(names, ds[a].init, p);
      }
    }
    assert [ds[j].name] in KeysFrom(ds, a);
    var t :| t in Reads(names, ds[a].init) && t in Writes(names, ds[j].init) + {[ds[j].name]};
    assert t in Mentions(names, ds[a].init) && t in Writes(names, ds[j].init);
  }

  lemma NotInOrder(names: Names, ds: seq<Decl>, r: set<string>, late: set<string>)
    requires Setting(names, ds, r, late) && !InOrder(names, ds, r, late)
    ensures !InstalledAgrees(names, ds, r, late)
  {
    hide InstalledAgrees, Reads, Writes, Mentions, Separate, Setting;
    if !NoReaders(names, ds, r, late) {
      var a, j :| 0 <= a < j < |ds| && ds[a].name in late && ds[j].name in r && [ds[a].name] in Reads(names, ds[j].init);
      ReadsLate(names, ds, r, late, a, j);
    } else if exists a, j :: 0 <= a < j < |ds| && ds[a].name in late && ds[j].name in r && [ds[a].name] in Writes(names, ds[j].init) {
      var a, j :| 0 <= a < j < |ds| && ds[a].name in late && ds[j].name in r && [ds[a].name] in Writes(names, ds[j].init);
      SetsLate(names, ds, r, late, a, j);
    } else {
      var a, j :| 0 <= a < j < |ds| && ds[a].name in late && ds[j].name in r && !Separate(names, ds[a], ds[j]);
      NotSeparate(names, ds, r, late, a, j);
      var t :| t in Mentions(names, ds[a].init) && t in Writes(names, ds[j].init);
      if t in KeysOf(late) {
        SettingLate(names, ds, r, late, a);
        var m := ArrayBefore(names, ds, r, late, a, t);
        assert false;
      }
      ReadsAssignedBehind(names, ds, r, late, t, a, j);
    }
  }

  /** For late initializers that only compute: the installed list always ends where declaration
      order ends if and only if each of them is separate from all that is moved in front of it. */
  lemma InstalledExact(names: Names, ds: seq<Decl>, r: set<string>, late: set<string>)
    requires Setting(names, ds, r, late)
    ensures InOrder(names, ds, r, late) <==> InstalledAgrees(names, ds, r, late)
  {
    hide KeptApart, InOrder, FoldedRight, SameBut, Run, Installed, SeedsIn, MentionsEarlier;
    if InOrder(names, ds, r, late) {
      forall sem: Semantics, initial: Store, elaborated: Store, w0: int, w: int |
        sem.names == names && FoldedRight(sem, ds, r + late, elaborated, w0) && SameBut(initial, elaborated, KeysFrom(ds, 0))
        ensures Run(sem, ds, initial, w) == Run(sem, Installed(ds, r, late), elaborated, w)
      {
        InstalledIsEnough(sem, ds, r, late, initial, elaborated, w0, w);
      }
    } else {
      NotInOrder(names, ds, r, late);
    }
  }
}
