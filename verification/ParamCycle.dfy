/** Parameters whose value depends on itself (src/should_fail_lint.rs, check_param_value_refs;
    IEEE 1800-2017 section 6.20.2). */
module ParamCycle {
  import opened Results
  import opened Worklists

  /** A parameter and the names its value reads. */
  datatype Param = Param(name: string, uses: seq<string>)

  /** The last of the leading `k` parameters named `n`. */
  function LastNamed(ps: seq<Param>, k: nat, n: string): Option<nat>
    requires k <= |ps|
  {
    if k == 0 then None else if ps[k - 1].name == n then Some(k - 1) else LastNamed(ps, k - 1, n)
  }

  /** A name in a value that is not a package name refers to the parameter of that name. */
  function Target(ps: seq<Param>, packages: set<string>, n: string): Option<nat> {
    if n in packages then None else LastNamed(ps, |ps|, n)
  }

  ghost predicate Refers(ps: seq<Param>, packages: set<string>, i: nat, j: nat) {
    i < |ps| && exists n :: n in ps[i].uses && Target(ps, packages, n) == Some(j)
  }

  /** A reference path of at least one step from `i` to `j`. */
  ghost predicate Leads(ps: seq<Param>, packages: set<string>, i: nat, path: seq<nat>, j: nat) {
    path != [] && path[|path| - 1] == j && Chained(ps, packages, i, path)
  }

  ghost predicate Chained(ps: seq<Param>, packages: set<string>, i: nat, path: seq<nat>)
    decreases path
  {
    path != [] ==> Refers(ps, packages, i, path[0]) && Chained(ps, packages, path[0], path[1..])
  }

  ghost predicate DependsOn(ps: seq<Param>, packages: set<string>, i: nat, j: nat) {
    exists path :: Leads(ps, packages, i, path, j)
  }

  lemma {:induction false} ChainedThen(ps: seq<Param>, packages: set<string>, i: nat, path: seq<nat>, k: nat)
    requires Chained(ps, packages, i, path) && Refers(ps, packages, if path == [] then i else path[|path| - 1], k)
    ensures Chained(ps, packages, i, path + [k])
    decreases path
  {
    if path == [] {
      assert [k][1..] == [];
    } else {
      assert (path + [k])[1..] == path[1..] + [k];
      ChainedThen(ps, packages, path[0], path[1..], k);
    }
  }

  lemma DependsFurther(ps: seq<Param>, packages: set<string>, i: nat, j: nat, k: nat)
    requires (DependsOn(ps, packages, i, j) || i == j) && Refers(ps, packages, j, k)
    ensures DependsOn(ps, packages, i, k)
  {
    if i == j {
      ChainedThen(ps, packages, i, [], k);
      assert Leads(ps, packages, i, [k], k) by { assert [] + [k] == [k]; }
    }
    if DependsOn(ps, packages, i, j) {
      var path :| Leads(ps, packages, i, path, j);
      ChainedThen(ps, packages, i, path, k);
      assert Leads(ps, packages, i, path + [k], k);
    }
  }

  /** What the value of parameter `p` refers to, in order. */
  method Targets(ps: seq<Param>, packages: set<string>, index: map<string, nat>, p: nat) returns (ts: seq<nat>)
    requires p < |ps| && IndexOf(ps, index)
    ensures forall t: nat :: t in Elems(ts) <==> Refers(ps, packages, p, t)
  {
    var uses := ps[p].uses;
    ts := [];
    for k := 0 to |uses|
      invariant forall t: nat :: t in ts <==> exists n :: n in uses[..k] && Target(ps, packages, n) == Some(t)
    {
      assert Elems(uses[..k + 1]) == Elems(uses[..k]) + {uses[k]};
      if uses[k] !in packages && uses[k] in index {
        ts := ts + [index[uses[k]]];
      }
    }
    assert uses[..|uses|] == uses;
  }

  method Index(ps: seq<Param>) returns (index: map<string, nat>)
    ensures IndexOf(ps, index)
  {
    index := map[];
    for k := 0 to |ps|
      invariant forall n :: (n in index <==> LastNamed(ps, k, n).Some?) && (n in index ==> LastNamed(ps, k, n) == Some(index[n]))
    {
      index := index[ps[k].name := k];
    }
  }

  /** `done` and what is pending are reached from `i`, and nothing else can be. */
  ghost predicate Searching(ps: seq<Param>, packages: set<string>, i: nat, done: set<nat>, pending: set<nat>) {
    (forall k :: k in done + pending ==> DependsOn(ps, packages, i, k))
    && i !in done
    && (forall j, k :: (j == i || j in done) && Refers(ps, packages, j, k) ==> k in done + pending)
  }

  /** A path from a closed set stays inside it. */
  lemma {:induction false} StaysInside(ps: seq<Param>, packages: set<string>, i: nat, done: set<nat>, j: nat, path: seq<nat>)
    requires Searching(ps, packages, i, done, {}) && (j == i || j in done)
    requires Chained(ps, packages, j, path) && path != []
    ensures path[|path| - 1] in done
    decreases path
  {
    if |path| > 1 {
      StaysInside(ps, packages, i, done, path[0], path[1..]);
    }
  }

  lemma NoCycle(ps: seq<Param>, packages: set<string>, i: nat, done: set<nat>)
    requires Searching(ps, packages, i, done, {})
    ensures !DependsOn(ps, packages, i, i)
  {
    if DependsOn(ps, packages, i, i) {
      var path :| Leads(ps, packages, i, path, i);
      StaysInside(ps, packages, i, done, i, path);
    }
  }

  lemma SearchStarts(ps: seq<Param>, packages: set<string>, i: nat, next: set<nat>)
    requires forall t: nat :: t in next <==> Refers(ps, packages, i, t)
    ensures Searching(ps, packages, i, {}, next)
  {
    forall t | t in next ensures DependsOn(ps, packages, i, t) {
      DependsFurther(ps, packages, i, i, t);
    }
  }

  lemma SearchStep(ps: seq<Param>, packages: set<string>, i: nat, done: set<nat>, rest: set<nat>, k: nat, next: set<nat>)
    requires Searching(ps, packages, i, done, rest + {k}) && k != i
    requires forall t: nat :: t in next <==> Refers(ps, packages, k, t)
    ensures Searching(ps, packages, i, done + {k}, rest + next)
  {
    forall t | t in next ensures DependsOn(ps, packages, i, t) {
      DependsFurther(ps, packages, i, k, t);
    }
  }

  lemma SearchRepeats(ps: seq<Param>, packages: set<string>, i: nat, done: set<nat>, rest: set<nat>, k: nat)
    requires Searching(ps, packages, i, done, rest + {k}) && k in done
    ensures Searching(ps, packages, i, done, rest)
  {
  }

  ghost predicate IndexOf(ps: seq<Param>, index: map<string, nat>) {
    forall n :: (n in index <==> LastNamed(ps, |ps|, n).Some?) && (n in index ==> LastNamed(ps, |ps|, n) == Some(index[n]))
  }

  /** Does the value of parameter `i` lead back to it? */
  method Cyclic(ps: seq<Param>, packages: set<string>, index: map<string, nat>, i: nat) returns (cyclic: bool)
    requires i < |ps| && IndexOf(ps, index)
    ensures cyclic <==> DependsOn(ps, packages, i, i)
  {
    var seen := seq(|ps|, _ => false);
    var stack := Targets(ps, packages, index, i);
    SearchStarts(ps, packages, i, Elems(stack));
    assert Flagged(seen) == {};
    while stack != []
      invariant |seen| == |ps| && Searching(ps, packages, i, Flagged(seen), Elems(stack))
      decreases Unflagged(seen), |stack|
    {
      var k, rest := stack[|stack| - 1], stack[..|stack| - 1];
      Popped(stack);
      stack := rest;
      if k == i {
        return true;
      }
      ReachedIsParam(ps, packages, i, k);
      if seen[k] {
        SearchRepeats(ps, packages, i, Flagged(seen), Elems(rest), k);
      } else {
        FlagSet(seen, k);
        FlagFirst(seen, k);
        var next := Targets(ps, packages, index, k);
        SearchStep(ps, packages, i, Flagged(seen), Elems(rest), k, Elems(next));
        assert Elems(rest + next) == Elems(rest) + Elems(next);
        seen, stack := seen[k := true], rest + next;
      }
    }
    NoCycle(ps, packages, i, Flagged(seen));
    return false;
  }

  lemma {:induction false} LastNamedIs(ps: seq<Param>, k: nat, n: string)
    requires k <= |ps|
    ensures LastNamed(ps, k, n).Some? ==> LastNamed(ps, k, n).value < k && ps[LastNamed(ps, k, n).value].name == n
    ensures LastNamed(ps, k, n).None? ==> forall j :: 0 <= j < k ==> ps[j].name != n
  {
    if k > 0 {
      LastNamedIs(ps, k - 1, n);
    }
  }

  lemma {:induction false} ReachedIsParam(ps: seq<Param>, packages: set<string>, i: nat, k: nat)
    requires DependsOn(ps, packages, i, k)
    ensures k < |ps|
  {
    var path :| Leads(ps, packages, i, path, k);
    ChainIsParams(ps, packages, i, path);
  }

  lemma {:induction false} ChainIsParams(ps: seq<Param>, packages: set<string>, i: nat, path: seq<nat>)
    requires Chained(ps, packages, i, path) && path != []
    ensures path[|path| - 1] < |ps|
    decreases path
  {
    if |path| == 1 {
      var n :| n in ps[i].uses && Target(ps, packages, n) == Some(path[0]);
      LastNamedIs(ps, |ps|, n);
    } else {
      ChainIsParams(ps, packages, path[0], path[1..]);
    }
  }

  /** The parameters reported as depending on their own value. */
  method CheckParams(ps: seq<Param>, packages: set<string>) returns (reported: seq<bool>)
    ensures |reported| == |ps|
    ensures forall i :: 0 <= i < |ps| ==> (reported[i] <==> DependsOn(ps, packages, i, i))
  {
    var index := Index(ps);
    reported := [];
    for i := 0 to |ps|
      invariant |reported| == i && forall j :: 0 <= j < i ==> (reported[j] <==> DependsOn(ps, packages, j, j))
    {
      var cyclic := Cyclic(ps, packages, index, i);
      reported := reported + [cyclic];
    }
  }

  lemma {:induction false} LastNamedExact(ps: seq<Param>, k: nat, j: nat)
    requires j < k <= |ps|
    ensures LastNamed(ps, k, ps[j].name) == Some(j) <==> forall b :: j < b < k ==> ps[b].name != ps[j].name
  {
    if j < k - 1 {
      LastNamedExact(ps, k - 1, j);
    }
  }

  /** One parameter refers to another exactly when its value reads the other's name, that is
      not the name of a package, and no later parameter has it. */
  lemma RefersByName(ps: seq<Param>, packages: set<string>, i: nat, j: nat)
    requires i < |ps| && j < |ps|
    ensures Refers(ps, packages, i, j) <==>
      ps[j].name in ps[i].uses && ps[j].name !in packages && forall b :: j < b < |ps| ==> ps[b].name != ps[j].name
  {
    LastNamedExact(ps, |ps|, j);
    if Refers(ps, packages, i, j) {
      var n :| n in ps[i].uses && Target(ps, packages, n) == Some(j);
      LastNamedIs(ps, |ps|, n);
    }
  }

  /** The reference that a path ends with. */
  lemma {:induction false} LastReference(ps: seq<Param>, packages: set<string>, i: nat, path: seq<nat>) returns (h: nat)
    requires Chained(ps, packages, i, path) && path != []
    ensures Refers(ps, packages, h, path[|path| - 1])
    decreases path
  {
    if |path| == 1 {
      h := i;
    } else {
      h := LastReference(ps, packages, path[0], path[1..]);
    }
  }

  /** A parameter that reads its own name is reported exactly when the name is no package's and
      no later parameter has it. */
  lemma SelfReferenceReported(ps: seq<Param>, packages: set<string>, i: nat)
    requires i < |ps| && ps[i].name in ps[i].uses
    ensures DependsOn(ps, packages, i, i) <==>
      ps[i].name !in packages && forall b :: i < b < |ps| ==> ps[b].name != ps[i].name
  {
    RefersByName(ps, packages, i, i);
    if Refers(ps, packages, i, i) {
      DependsFurther(ps, packages, i, i, i);
    } else if DependsOn(ps, packages, i, i) {
      var path :| Leads(ps, packages, i, path, i);
      var h := LastReference(ps, packages, i, path);
      RefersByName(ps, packages, h, i);
    }
  }

  /** With a repeated name the search follows only the last parameter of that name: here the
      first `A` reads itself, but is not reported. */
  lemma ShadowedSelfReference()
    ensures !DependsOn([Param("A", ["A"]), Param("A", [])], {}, 0, 0)
  {
    var ps := [Param("A", ["A"]), Param("A", [])];
    SelfReferenceReported(ps, {}, 0);
    assert ps[1].name == ps[0].name;
  }
}
